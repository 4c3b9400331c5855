/**
 The index's operations on its whole state: what is in memory and what is on disk
 after add_document, update_document, delete_document and flush have returned.
 */
module Operations {
  import opened Sequences
  import opened SegmentModel
  import opened Shelves

  /** `flushAfter` 0 means manual flush only. */
  datatype Policy = Policy(durable: bool, flushAfter: nat)

  /**
   `order` is segments[] (equal to the manifest's list), `next` the manifest's
   generation counter.  `replaying` and `truncatePending` are only set inside open().
   */
  datatype Index = Index(
    order: seq<nat>,
    shelf: Shelf,
    keymap: Keymap,
    next: nat,
    writer: nat,
    policy: Policy,
    healthy: bool,
    replaying: bool,
    truncatePending: bool,
    disk: Disk)

  const MAX_TEXT := 256 * 1024 * 1024

  /** Generations are distinct, all handed out before `next`, and each has a volume. */
  ghost predicate Structured(ix: Index) {
    && Distinct(ix.order)
    && ix.writer !in ix.order
    && ix.shelf.Keys == Elements(ix.order) + {ix.writer}
    && (forall g :: g in ix.shelf ==> g < ix.next)
    && WellStored(ix.shelf)
  }

  /** The directory holds exactly the flushed part of the index. */
  ghost predicate Mirrored(ix: Index) {
    && ix.disk.next == ix.next
    && ix.disk.order == ix.order
    && ix.disk.files.Keys == Elements(ix.order)
    && ix.disk.dels.Keys <= Elements(ix.order)
    && (forall g :: g in ix.order ==> Stores(ix.disk, ix.shelf, g))
    && ix.disk.log == Some(ix.keymap)
    && !ix.disk.marker
  }

  ghost predicate Consistent(ix: Index) {
    Structured(ix) && Mirrored(ix) && Coherent(ix.shelf, ix.keymap)
  }

  function Contents(ix: Index): map<Key, Document> {
    View(ix.shelf, ix.keymap)
  }

  /** The documents a crash would leave: those in flushed segments. */
  function Flushable(ix: Index): map<Key, Document> {
    View(Only(ix.shelf, Elements(ix.order)), Retain(ix.keymap, Elements(ix.order)))
  }

  // ------------------------------------------------------------- operations

  function LogPut(log: Option<Keymap>, k: Key, loc: Loc): Option<Keymap> {
    Some((if log.Some? then log.value else map[])[k := loc])
  }

  function LogDrop(log: Option<Keymap>, k: Key): Option<Keymap> {
    Some((if log.Some? then log.value else map[]) - {k})
  }

  /** add_document_core() up to and including the keymap entry. */
  function Stored(ix: Index, k: Key, doc: Document): (r: Index)
    requires ix.writer in ix.shelf
    ensures r.writer in r.shelf
  {
    var v := ix.shelf[ix.writer];
    var loc := Loc(ix.writer, |v.docs|);
    ix.(shelf := ix.shelf[ix.writer := v.(docs := v.docs + [Entry(k, doc)])],
        keymap := ix.keymap[k := loc],
        disk := ix.disk.(log := LogPut(ix.disk.log, k, loc)))
  }

  function Recordable(r: WalRecord): bool {
    r.Deleted? || |r.document.text| <= MAX_TEXT
  }

  /** The write-ahead-log hook; a record the log refuses makes it unhealthy. */
  function Logged(ix: Index, r: WalRecord): Index {
    if !ix.policy.durable || ix.replaying || !ix.healthy then ix
    else if !Recordable(r) then ix.(healthy := false)
    else ix.(disk := ix.disk.(wal := ix.disk.wal + [r]))
  }

  /** flush(): the writer becomes a manifested segment and a new writer starts. */
  function Flushed(ix: Index): (r: Index)
    requires ix.writer in ix.shelf
    ensures r.writer in r.shelf
  {
    var v := ix.shelf[ix.writer];
    if v.docs == [] then ix
    else
      var truncates := ix.policy.durable && !ix.replaying;
      ix.(order := ix.order + [ix.writer],
          shelf := ix.shelf[ix.next := EMPTY_VOLUME],
          next := ix.next + 1,
          writer := ix.next,
          healthy := ix.healthy || truncates,
          truncatePending := ix.truncatePending || (ix.policy.durable && ix.replaying),
          disk := ix.disk.(
            next := ix.next + 1,
            order := ix.order + [ix.writer],
            files := ix.disk.files[ix.writer := v.docs],
            dels := if v.dead == {} then ix.disk.dels else ix.disk.dels[ix.writer := v.dead],
            wal := if truncates then [] else ix.disk.wal))
  }

  function AutoFlushed(ix: Index): (r: Index)
    requires ix.writer in ix.shelf
    ensures r.writer in r.shelf
  {
    if 0 < ix.policy.flushAfter <= |ix.shelf[ix.writer].docs| then Flushed(ix) else ix
  }

  /** A document without terms is rejected and leaves no trace. */
  function Add(ix: Index, k: Key, doc: Document): (r: Index)
    requires ix.writer in ix.shelf
    ensures r.writer in r.shelf
  {
    if doc.terms == 0 then ix
    else AutoFlushed(Logged(Stored(ix, k, doc), Added(k, doc)))
  }

  /** tombstone(): a disk segment's .del file is saved at once. */
  function Tombstoned(ix: Index, loc: Loc): Index {
    if loc.generation == ix.writer then
      ix.(shelf := Kill(ix.shelf, loc))
    else if loc.generation in ix.order && loc.generation in ix.shelf then
      var s := Kill(ix.shelf, loc);
      ix.(shelf := s, disk := ix.disk.(dels := ix.disk.dels[loc.generation := s[loc.generation].dead]))
    else
      ix
  }

  /** Upsert: the new copy first, then the log record, then the old copy's tombstone. */
  function Update(ix: Index, k: Key, doc: Document): (r: Index)
    requires ix.writer in ix.shelf
    ensures r.writer in r.shelf
  {
    if doc.terms == 0 then ix
    else
      var added := Logged(AutoFlushed(Stored(ix, k, doc)), Updated(k, doc));
      if k in ix.keymap then Tombstoned(added, ix.keymap[k]) else added
  }

  predicate Deletable(ix: Index, k: Key) {
    && k in ix.keymap
    && (ix.keymap[k].generation == ix.writer ||
        (ix.keymap[k].generation in ix.order && ix.keymap[k].generation in ix.shelf))
  }

  function Delete(ix: Index, k: Key): (r: Index)
    requires ix.writer in ix.shelf
    ensures r.writer in r.shelf
  {
    if !Deletable(ix, k) then ix
    else
      var t := Tombstoned(ix, ix.keymap[k]);
      Logged(t.(keymap := t.keymap - {k}, disk := t.disk.(log := LogDrop(t.disk.log, k))), Deleted(k))
  }

  // ----------------------------------------------------- single-step lemmas

  lemma StoredIs(ix: Index, k: Key, doc: Document)
    requires Structured(ix)
    ensures Stored(ix, k, doc).shelf == Append(ix.shelf, ix.writer, Entry(k, doc))
    ensures Stored(ix, k, doc).keymap == ix.keymap[k := End(ix.shelf, ix.writer)]
  {
  }

  lemma StoredIsStructured(ix: Index, k: Key, doc: Document)
    requires Structured(ix) && ValidKey(k)
    ensures Structured(Stored(ix, k, doc))
    ensures Mirrored(ix) ==> Mirrored(Stored(ix, k, doc))
  {
    var jx := Stored(ix, k, doc);
    assert jx.shelf.Keys == ix.shelf.Keys;
    forall g | g in ix.order ensures jx.shelf[g] == ix.shelf[g] {
    }
    if Mirrored(ix) {
      forall g | g in jx.order ensures Stores(jx.disk, jx.shelf, g) {
        assert Stores(ix.disk, ix.shelf, g);
      }
    }
  }

  lemma TombstonedIsStructured(ix: Index, loc: Loc)
    requires Structured(ix) && InRange(ix.shelf, loc)
    ensures Tombstoned(ix, loc).shelf == Kill(ix.shelf, loc)
    ensures Structured(Tombstoned(ix, loc))
  {
    assert loc.generation in ix.shelf.Keys;
    KillKeepsStored(ix.shelf, loc);
  }

  /** One volume's tombstones and their .del file change together. */
  lemma StoresAfterKill(d: Disk, shelf: Shelf, loc: Loc, g: nat)
    requires Stores(d, shelf, g) && loc.generation in shelf
    ensures g != loc.generation ==> Stores(d, Kill(shelf, loc), g)
    ensures Stores(d.(dels := d.dels[loc.generation := Kill(shelf, loc)[loc.generation].dead]), Kill(shelf, loc), g)
  {
  }

  lemma TombstonedIsMirrored(ix: Index, loc: Loc)
    requires Structured(ix) && Mirrored(ix) && InRange(ix.shelf, loc)
    ensures Mirrored(Tombstoned(ix, loc))
  {
    assert loc.generation in Elements(ix.order) + {ix.writer};
    forall g | g in ix.order ensures Stores(Tombstoned(ix, loc).disk, Tombstoned(ix, loc).shelf, g) {
      StoresAfterKill(ix.disk, ix.shelf, loc, g);
    }
  }

  lemma FlushedIsStructured(ix: Index)
    requires Structured(ix)
    ensures Structured(Flushed(ix))
  {
    if ix.shelf[ix.writer].docs != [] {
      var jx := Flushed(ix);
      assert ix.next !in ix.shelf;
      EmptyKeeps(ix.shelf, ix.keymap, ix.next);
      assert Elements(jx.order) == Elements(ix.order) + {ix.writer};
    }
  }

  lemma FlushedIsMirrored(ix: Index)
    requires Structured(ix) && Mirrored(ix)
    ensures Mirrored(Flushed(ix))
  {
    if ix.shelf[ix.writer].docs != [] {
      var jx := Flushed(ix);
      assert ix.next !in ix.shelf;
      assert Elements(jx.order) == Elements(ix.order) + {ix.writer};
      forall g | g in jx.order ensures Stores(jx.disk, jx.shelf, g) {
        if g != ix.writer {
          assert Stores(ix.disk, ix.shelf, g);
        }
      }
    }
  }

  /** Flushing moves documents to disk without changing what the index contains. */
  lemma FlushKeeps(ix: Index)
    requires Structured(ix)
    ensures Sound(ix.shelf, ix.keymap) ==> Sound(Flushed(ix).shelf, Flushed(ix).keymap)
    ensures Complete(ix.shelf, ix.keymap) ==> Complete(Flushed(ix).shelf, Flushed(ix).keymap)
    ensures Contents(Flushed(ix)) == Contents(ix)
    ensures Flushed(ix).keymap == ix.keymap
  {
    if ix.shelf[ix.writer].docs != [] {
      EmptyKeeps(ix.shelf, ix.keymap, ix.next);
    }
  }

  /** After a flush that had something to write, everything survives a crash. */
  lemma FlushMakesDurable(ix: Index)
    requires Structured(ix) && Sound(ix.shelf, ix.keymap)
    requires ix.shelf[ix.writer].docs != []
    ensures Flushable(Flushed(ix)) == Contents(ix)
  {
    var jx := Flushed(ix);
    var all := Elements(jx.order);
    assert all == Elements(ix.order) + {ix.writer} == ix.shelf.Keys;
    forall k | k in ix.keymap ensures ix.keymap[k].generation in all {
      assert Alive(ix.shelf, ix.keymap[k]);
    }
    assert Retain(jx.keymap, all) == ix.keymap;
    assert Only(jx.shelf, all) == ix.shelf;
  }
}
