/**
 The vocabulary of the segmented index: documents, volumes (a segment's stored
 documents and its tombstones), the keymap, and the files of the index directory.

 A "shelf" maps a segment generation to its volume; the live writer is the volume
 of the writer's generation.  `order` lists the disk segments, oldest first.
 */
module SegmentModel {
  import opened Sequences

  type Key = string

  /** `terms` is the number of index terms the parser finds in `text`. */
  datatype Document = Document(text: string, terms: nat)

  datatype Entry = Entry(key: Key, document: Document)

  datatype Loc = Loc(generation: nat, docid: nat)

  datatype Volume = Volume(docs: seq<Entry>, dead: set<nat>)

  type Shelf = map<nat, Volume>

  type Keymap = map<Key, Loc>

  datatype Option<+T> = None | Some(value: T)

  const EMPTY_VOLUME := Volume([], {})

  const MAX_KEY := 4096

  /** The keys the keymap log and the filename tables can round-trip. */
  predicate ValidKey(k: Key) {
    && 0 < |k| < MAX_KEY
    && '\t' !in k && '\n' !in k
    && !IsSpace(k[0]) && !IsSpace(k[|k| - 1])
  }

  /** isspace(). */
  predicate IsSpace(c: char) {
    c == ' ' || '\t' <= c <= '\r'
  }

  /** strip_space_inplace(), through which every key goes on its way into a filename table. */
  function Stripped(s: string): (r: string) {
    if s == "" then s
    else if IsSpace(s[0]) then Stripped(s[1..])
    else if IsSpace(s[|s| - 1]) then Stripped(s[..|s| - 1])
    else s
  }

  /** The usable keys are those that the tables hold, the log's fields can carry and stripping keeps. */
  lemma ValidKeyIs(k: Key)
    ensures ValidKey(k) <==> 1 <= |k| <= 4095 && '\t' !in k && '\n' !in k && Stripped(k) == k
  {
    if k != "" && (IsSpace(k[0]) || IsSpace(k[|k| - 1])) {
      StrippedShrinks(k[1..]);
      StrippedShrinks(k[..|k| - 1]);
    }
  }

  lemma {:induction false} StrippedShrinks(s: string)
    ensures |Stripped(s)| <= |s|
    decreases |s|
  {
    if s != "" {
      StrippedShrinks(s[1..]);
      StrippedShrinks(s[..|s| - 1]);
    }
  }

  // ---------------------------------------------------------------- shelves

  predicate InRange(shelf: Shelf, loc: Loc) {
    loc.generation in shelf && loc.docid < |shelf[loc.generation].docs|
  }

  /** Stored and not tombstoned. */
  predicate Alive(shelf: Shelf, loc: Loc) {
    InRange(shelf, loc) && loc.docid !in shelf[loc.generation].dead
  }

  function EntryAt(shelf: Shelf, loc: Loc): Entry
    requires InRange(shelf, loc)
  {
    shelf[loc.generation].docs[loc.docid]
  }

  function Kill(shelf: Shelf, loc: Loc): Shelf {
    if loc.generation in shelf then
      var v := shelf[loc.generation];
      shelf[loc.generation := v.(dead := v.dead + {loc.docid})]
    else
      shelf
  }

  /** Every tombstone names a stored document, and every stored key is usable. */
  ghost predicate WellKept(v: Volume) {
    && (forall d :: d in v.dead ==> d < |v.docs|)
    && (forall d :: 0 <= d < |v.docs| ==> ValidKey(v.docs[d].key))
  }

  ghost predicate WellStored(shelf: Shelf) {
    forall g :: g in shelf ==> WellKept(shelf[g])
  }

  // ----------------------------------------------------------------- keymap

  /** Each keymap entry names a live copy of its own key. */
  ghost predicate Sound(shelf: Shelf, km: Keymap) {
    forall k :: k in km ==> Alive(shelf, km[k]) && EntryAt(shelf, km[k]).key == k
  }

  /** The keymap entry of this document's key names this document. */
  predicate Named(shelf: Shelf, km: Keymap, loc: Loc)
    requires InRange(shelf, loc)
  {
    EntryAt(shelf, loc).key in km && km[EntryAt(shelf, loc).key] == loc
  }

  /** Each live document is the one its key's entry names. */
  ghost predicate Complete(shelf: Shelf, km: Keymap) {
    forall loc: Loc :: Alive(shelf, loc) ==> Named(shelf, km, loc)
  }

  ghost predicate Coherent(shelf: Shelf, km: Keymap) {
    Sound(shelf, km) && Complete(shelf, km)
  }

  /** What a caller sees: the key -> document map. */
  function View(shelf: Shelf, km: Keymap): (view: map<Key, Document>) {
    map k | k in km && InRange(shelf, km[k]) :: EntryAt(shelf, km[k]).document
  }

  /** The entries that name one of the given generations. */
  function Retain(km: Keymap, generations: set<nat>): (r: Keymap) {
    map k | k in km && km[k].generation in generations :: km[k]
  }

  function Only(shelf: Shelf, generations: set<nat>): (r: Shelf) {
    map g | g in shelf && g in generations :: shelf[g]
  }

  /** A shelf has at most one coherent keymap. */
  lemma CoherentKeymapIsUnique(shelf: Shelf, a: Keymap, b: Keymap)
    requires Coherent(shelf, a) && Coherent(shelf, b)
    ensures a == b
  {
    forall k | k in a ensures k in b && b[k] == a[k] {
      assert Alive(shelf, a[k]);
    }
    forall k | k in b ensures k in a && a[k] == b[k] {
      assert Alive(shelf, b[k]);
    }
  }

  /** Restricting shelf and keymap to some generations keeps them coherent. */
  lemma RetainIsCoherent(shelf: Shelf, km: Keymap, generations: set<nat>)
    requires Coherent(shelf, km)
    ensures Coherent(Only(shelf, generations), Retain(km, generations))
  {
    var s, m := Only(shelf, generations), Retain(km, generations);
    forall loc: Loc | Alive(s, loc) ensures Named(s, m, loc) {
      assert Alive(shelf, loc);
      assert Named(shelf, km, loc);
    }
  }

  // ------------------------------------------------------- generation lists

  /** Order-preserving removal of every element of `gone`. */
  function Without(order: seq<nat>, gone: set<nat>): (r: seq<nat>)
    ensures forall g :: g in r <==> g in order && g !in gone
  {
    if order == [] then []
    else
      var rest := Without(order[..|order| - 1], gone);
      var last := order[|order| - 1];
      assert forall g :: g in order <==> g in order[..|order| - 1] || g == last;
      if last in gone then rest else rest + [last]
  }

  lemma {:induction false} WithoutKeepsDistinct(order: seq<nat>, gone: set<nat>)
    requires Distinct(order)
    ensures Distinct(Without(order, gone))
  {
    if order != [] {
      WithoutKeepsDistinct(order[..|order| - 1], gone);
    }
  }

  // ------------------------------------------------------------------- disk

  datatype WalRecord =
    | Added(key: Key, document: Document)
    | Updated(key: Key, document: Document)
    | Deleted(key: Key)

  /**
   The index directory.  `next` and `order` are the manifest; `log` is what the
   keymap log replays to, None when the file is missing; `files` holds every
   seg_G.aspt, manifested or not, `dels` every seg_G.del.
   */
  datatype Disk = Disk(
    next: nat,
    order: seq<nat>,
    files: map<nat, seq<Entry>>,
    dels: map<nat, set<nat>>,
    log: Option<Keymap>,
    wal: seq<WalRecord>,
    marker: bool)

  function DelOf(d: Disk, g: nat): set<nat> {
    if g in d.dels then d.dels[g] else {}
  }

  /** The disk's files for generation g are the shelf's volume. */
  predicate Stores(d: Disk, shelf: Shelf, g: nat) {
    && g in shelf && g in d.files
    && d.files[g] == shelf[g].docs
    && DelOf(d, g) == shelf[g].dead
  }

  /** Every segment the manifest names has its file. */
  ghost predicate Openable(d: Disk) {
    Distinct(d.order) && forall g :: g in d.order ==> g in d.files
  }

  function DiskShelf(d: Disk): (r: Shelf) {
    map g | g in Elements(d.order) && g in d.files :: Volume(d.files[g], DelOf(d, g))
  }

  /** The next generation the manifest hands out after being loaded. */
  function Clamp(next: nat, order: seq<nat>): (r: nat)
    ensures next <= r
    ensures forall g :: g in order ==> g < r
    ensures r == next || (r > 0 && (r - 1) in order)
  {
    if order == [] then next
    else
      var rest := Clamp(next, order[..|order| - 1]);
      var last := order[|order| - 1];
      assert forall g :: g in order <==> g in order[..|order| - 1] || g == last;
      if rest <= last then last + 1 else rest
  }
}
