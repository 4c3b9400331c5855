/** compact(): merging some disk segments into one new segment. */
module Compaction {
  import opened Sequences
  import opened SegmentModel
  import opened Operations
  import opened Renumbering

  function VolumeAt(shelf: Shelf, g: nat): Volume {
    if g in shelf then shelf[g] else EMPTY_VOLUME
  }

  function Inputs(shelf: Shelf, gens: seq<nat>): (r: seq<Column<Entry>>)
    ensures |r| == |gens|
  {
    seq(|gens|, i requires 0 <= i < |gens| =>
      Column(VolumeAt(shelf, gens[i]).docs, VolumeAt(shelf, gens[i]).dead))
  }

  /** The merge output: live documents, inputs in the order they were named. */
  function MergedDocs(shelf: Shelf, gens: seq<nat>): seq<Entry> {
    Merge(Inputs(shelf, gens))
  }

  /** The remap loop: the keymap after the first n output documents were repointed. */
  function Remapped(km: Keymap, out: nat, docs: seq<Entry>, n: nat): Keymap
    requires n <= |docs|
  {
    if n == 0 then km
    else Remapped(km, out, docs, n - 1)[docs[n - 1].key := Loc(out, n - 1)]
  }

  function CompactedShelf(shelf: Shelf, gens: seq<nat>, out: nat): (r: Shelf) {
    (shelf - Elements(gens))[out := Volume(MergedDocs(shelf, gens), {})]
  }

  function CompactedKeymap(shelf: Shelf, km: Keymap, gens: seq<nat>, out: nat): Keymap {
    var docs := MergedDocs(shelf, gens);
    Remapped(km, out, docs, |docs|)
  }

  /** Inputs must be named once each, and be open disk segments. */
  ghost predicate Compactable(ix: Index, gens: seq<nat>) {
    0 < |gens| && Distinct(gens) && forall g :: g in gens ==> g in ix.order
  }

  /** The index after compact() returned 0. */
  function Compacted(ix: Index, gens: seq<nat>): Index {
    var out := ix.next;
    var docs := MergedDocs(ix.shelf, gens);
    var km := CompactedKeymap(ix.shelf, ix.keymap, gens, out);
    var gone := Elements(gens);
    ix.(order := Without(ix.order, gone) + [out],
        shelf := CompactedShelf(ix.shelf, gens, out),
        keymap := km,
        next := ix.next + 1,
        disk := ix.disk.(
          next := ix.next + 1,
          order := Without(ix.order, gone) + [out],
          files := (ix.disk.files - gone)[out := docs],
          dels := ix.disk.dels - gone,
          log := Some(km),
          marker := false))
  }

  // ------------------------------------------------------------ the remap loop

  /** The position of the last output document with key k, or None. */
  function LastWith(docs: seq<Entry>, k: Key, n: nat): (r: Option<nat>)
    requires n <= |docs|
    ensures r.Some? ==> r.value < n && docs[r.value].key == k
    ensures forall j :: (if r.Some? then r.value + 1 else 0) <= j < n ==> docs[j].key != k
  {
    if n == 0 then None
    else if docs[n - 1].key == k then Some(n - 1)
    else LastWith(docs, k, n - 1)
  }

  /** The remap leaves other keys alone and points each output key at its last copy. */
  lemma {:induction false} RemappedAt(km: Keymap, out: nat, docs: seq<Entry>, n: nat, k: Key)
    requires n <= |docs|
    ensures match LastWith(docs, k, n)
            case Some(j) => k in Remapped(km, out, docs, n) && Remapped(km, out, docs, n)[k] == Loc(out, j)
            case None => (k in Remapped(km, out, docs, n) <==> k in km) &&
                         (k in km ==> Remapped(km, out, docs, n)[k] == km[k])
  {
    if n > 0 {
      RemappedAt(km, out, docs, n - 1, k);
    }
  }

  // --------------------------------------------------------- what merging keeps

  /** Each output document is a live input document, and a different one each time. */
  lemma MergedFrom(shelf: Shelf, gens: seq<nat>, n: nat) returns (loc: Loc)
    requires forall g :: g in gens ==> g in shelf
    requires n < |MergedDocs(shelf, gens)|
    ensures loc.generation in gens && Alive(shelf, loc)
    ensures EntryAt(shelf, loc) == MergedDocs(shelf, gens)[n]
    ensures exists i: nat :: Survives(Inputs(shelf, gens), i, loc.docid) && gens[i] == loc.generation &&
              NewDocid(Inputs(shelf, gens), i, loc.docid) == n
  {
    var i, d := Origin(Inputs(shelf, gens), n);
    loc := Loc(gens[i], d);
  }

  /** Each live input document reaches the output. */
  lemma MergedHas(shelf: Shelf, gens: seq<nat>, loc: Loc) returns (n: nat)
    requires loc.generation in gens && Alive(shelf, loc)
    ensures n < |MergedDocs(shelf, gens)| && MergedDocs(shelf, gens)[n] == EntryAt(shelf, loc)
  {
    var i :| 0 <= i < |gens| && gens[i] == loc.generation;
    RowFollowsDocument(Inputs(shelf, gens), i, loc.docid);
    n := NewDocid(Inputs(shelf, gens), i, loc.docid);
  }

  /** Without stray copies no key reaches the output twice. */
  lemma MergedKeysDiffer(shelf: Shelf, km: Keymap, gens: seq<nat>, m: nat, n: nat)
    requires Distinct(gens) && (forall g :: g in gens ==> g in shelf) && Complete(shelf, km)
    requires m < n < |MergedDocs(shelf, gens)|
    ensures MergedDocs(shelf, gens)[m].key != MergedDocs(shelf, gens)[n].key
  {
    var a := MergedFrom(shelf, gens, m);
    var b := MergedFrom(shelf, gens, n);
    assert Named(shelf, km, a) && Named(shelf, km, b);
  }

  lemma CompactedAt(shelf: Shelf, gens: seq<nat>, out: nat, loc: Loc)
    requires out !in shelf
    ensures loc.generation != out ==>
              && (Alive(CompactedShelf(shelf, gens, out), loc) <==> Alive(shelf, loc) && loc.generation !in gens)
              && (Alive(shelf, loc) && loc.generation !in gens ==>
                    EntryAt(CompactedShelf(shelf, gens, out), loc) == EntryAt(shelf, loc))
    ensures loc.generation == out ==>
              && (Alive(CompactedShelf(shelf, gens, out), loc) <==> loc.docid < |MergedDocs(shelf, gens)|)
              && (loc.docid < |MergedDocs(shelf, gens)| ==>
                    EntryAt(CompactedShelf(shelf, gens, out), loc) == MergedDocs(shelf, gens)[loc.docid])
  {
  }

  lemma EntryIsLive(shelf: Shelf, km: Keymap, k: Key)
    requires Sound(shelf, km) && k in km
    ensures Alive(shelf, km[k]) && EntryAt(shelf, km[k]).key == k
  {
  }

  /**
   What a key maps to and shows after a compaction, even when stray copies exist: a
   key among the merged documents shows the last of them, any other key is untouched.
   */
  lemma CompactedShows(shelf: Shelf, km: Keymap, gens: seq<nat>, out: nat, k: Key)
    requires Distinct(gens) && (forall g :: g in gens ==> g in shelf) && out !in shelf
    requires Sound(shelf, km)
    ensures var s, m := CompactedShelf(shelf, gens, out), CompactedKeymap(shelf, km, gens, out);
            var docs := MergedDocs(shelf, gens);
            match LastWith(docs, k, |docs|)
            case Some(n) => k in m && m[k] == Loc(out, n) && Alive(s, m[k]) && EntryAt(s, m[k]) == docs[n]
            case None => (k in m <==> k in km) &&
                         (k in km ==> m[k] == km[k] && Alive(s, m[k]) && EntryAt(s, m[k]) == EntryAt(shelf, km[k]))
  {
    hide MergedDocs, CompactedShelf, Sound;
    var docs := MergedDocs(shelf, gens);
    RemappedAt(km, out, docs, |docs|, k);
    if k in km {
      EntryIsLive(shelf, km, k);
    }
    match LastWith(docs, k, |docs|) {
      case Some(n) =>
        CompactedAt(shelf, gens, out, Loc(out, n));
      case None =>
        if k in km {
          CompactedAt(shelf, gens, out, km[k]);
          if km[k].generation in gens {
            var n := MergedHas(shelf, gens, km[k]);
          }
        }
    }
  }

  /** A key with an output document shows, coherently, the document it showed before. */
  lemma OutputShowsSame(shelf: Shelf, km: Keymap, gens: seq<nat>, k: Key)
    requires Distinct(gens) && (forall g :: g in gens ==> g in shelf)
    requires Coherent(shelf, km)
    ensures var docs := MergedDocs(shelf, gens);
            match LastWith(docs, k, |docs|)
            case Some(n) => k in km && docs[n] == EntryAt(shelf, km[k])
            case None => true
  {
    var docs := MergedDocs(shelf, gens);
    match LastWith(docs, k, |docs|) {
      case Some(n) =>
        var loc := MergedFrom(shelf, gens, n);
        assert Named(shelf, km, loc);
      case None =>
    }
  }

  /** Compaction keeps every keymap entry pointing at a live copy of its key. */
  lemma CompactionIsSound(shelf: Shelf, km: Keymap, gens: seq<nat>, out: nat)
    requires Distinct(gens) && (forall g :: g in gens ==> g in shelf) && out !in shelf
    requires Sound(shelf, km)
    ensures Sound(CompactedShelf(shelf, gens, out), CompactedKeymap(shelf, km, gens, out))
  {
    var m := CompactedKeymap(shelf, km, gens, out);
    forall k | k in m
      ensures Alive(CompactedShelf(shelf, gens, out), m[k])
      ensures EntryAt(CompactedShelf(shelf, gens, out), m[k]).key == k
    {
      CompactedShows(shelf, km, gens, out, k);
    }
  }

  /** Compaction of a coherent index changes where documents live, not what it contains. */
  lemma CompactionPreservesView(shelf: Shelf, km: Keymap, gens: seq<nat>, out: nat)
    requires Distinct(gens) && (forall g :: g in gens ==> g in shelf) && out !in shelf
    requires Coherent(shelf, km)
    ensures View(CompactedShelf(shelf, gens, out), CompactedKeymap(shelf, km, gens, out)) == View(shelf, km)
  {
    var s, m := CompactedShelf(shelf, gens, out), CompactedKeymap(shelf, km, gens, out);
    forall k
      ensures k in m <==> k in km
      ensures k in km ==> InRange(s, m[k]) && EntryAt(s, m[k]).document == EntryAt(shelf, km[k]).document
    {
      CompactedShows(shelf, km, gens, out, k);
      OutputShowsSame(shelf, km, gens, k);
    }
  }

  lemma CompactionIsComplete(shelf: Shelf, km: Keymap, gens: seq<nat>, out: nat)
    requires Distinct(gens) && (forall g :: g in gens ==> g in shelf) && out !in shelf
    requires Coherent(shelf, km)
    ensures Complete(CompactedShelf(shelf, gens, out), CompactedKeymap(shelf, km, gens, out))
  {
    var s, m := CompactedShelf(shelf, gens, out), CompactedKeymap(shelf, km, gens, out);
    forall loc: Loc | Alive(s, loc) ensures Named(s, m, loc) {
      CompactedAt(shelf, gens, out, loc);
      var k := EntryAt(s, loc).key;
      CompactedShows(shelf, km, gens, out, k);
      OutputShowsSame(shelf, km, gens, k);
      if loc.generation == out {
        OnlyOutput(shelf, km, gens, loc.docid);
      } else {
        assert Named(shelf, km, loc);
        NoOutput(shelf, km, gens, loc);
      }
    }
  }

  lemma OnlyOutput(shelf: Shelf, km: Keymap, gens: seq<nat>, n: nat)
    requires Distinct(gens) && (forall g :: g in gens ==> g in shelf) && Complete(shelf, km)
    requires n < |MergedDocs(shelf, gens)|
    ensures var docs := MergedDocs(shelf, gens); LastWith(docs, docs[n].key, |docs|) == Some(n)
  {
    var docs := MergedDocs(shelf, gens);
    var last := LastWith(docs, docs[n].key, |docs|);
    if last.value != n {
      MergedKeysDiffer(shelf, km, gens, n, last.value);
    }
  }

  lemma NoOutput(shelf: Shelf, km: Keymap, gens: seq<nat>, loc: Loc)
    requires (forall g :: g in gens ==> g in shelf) && Complete(shelf, km)
    requires Alive(shelf, loc) && loc.generation !in gens
    ensures var docs := MergedDocs(shelf, gens); LastWith(docs, EntryAt(shelf, loc).key, |docs|) == None
  {
    var docs := MergedDocs(shelf, gens);
    var last := LastWith(docs, EntryAt(shelf, loc).key, |docs|);
    assert Named(shelf, km, loc);
    if last.Some? {
      var other := MergedFrom(shelf, gens, last.value);
    }
  }

  // ------------------------------------------------------- the whole operation

  lemma ReplacedElements(order: seq<nat>, gone: set<nat>, out: nat)
    ensures Elements(Without(order, gone) + [out]) == Elements(order) - gone + {out}
  {
  }

  lemma MergedIsWellStored(shelf: Shelf, gens: seq<nat>, out: nat)
    requires WellStored(shelf) && forall g :: g in gens ==> g in shelf
    ensures WellStored(CompactedShelf(shelf, gens, out))
  {
    var docs := MergedDocs(shelf, gens);
    forall n: nat | n < |docs| ensures ValidKey(docs[n].key) {
      var loc := MergedFrom(shelf, gens, n);
      assert WellKept(shelf[loc.generation]);
    }
  }

  lemma CompactedIsStructured(ix: Index, gens: seq<nat>)
    requires Structured(ix) && Compactable(ix, gens)
    ensures Structured(Compacted(ix, gens))
  {
    var jx, gone := Compacted(ix, gens), Elements(gens);
    WithoutKeepsDistinct(ix.order, gone);
    ReplacedElements(ix.order, gone, ix.next);
    MergedIsWellStored(ix.shelf, gens, ix.next);
    assert ix.next !in ix.shelf;
  }

  lemma CompactedIsMirrored(ix: Index, gens: seq<nat>)
    requires Structured(ix) && Mirrored(ix) && Compactable(ix, gens)
    ensures Mirrored(Compacted(ix, gens))
  {
    var jx, gone := Compacted(ix, gens), Elements(gens);
    ReplacedElements(ix.order, gone, ix.next);
    assert ix.next !in ix.shelf;
    forall g | g in jx.order ensures Stores(jx.disk, jx.shelf, g) {
      if g != ix.next {
        assert Stores(ix.disk, ix.shelf, g);
      }
    }
  }

  /** compact() keeps the index consistent and changes nothing a caller can look up. */
  lemma CompactPreserves(ix: Index, gens: seq<nat>)
    requires Consistent(ix) && Compactable(ix, gens)
    ensures Consistent(Compacted(ix, gens))
    ensures Contents(Compacted(ix, gens)) == Contents(ix)
    ensures Flushable(Compacted(ix, gens)) == Flushable(ix)
  {
    assert ix.next !in ix.shelf && forall g :: g in gens ==> g in ix.shelf;
    CompactedIsStructured(ix, gens);
    CompactedIsMirrored(ix, gens);
    CompactionIsSound(ix.shelf, ix.keymap, gens, ix.next);
    CompactionIsComplete(ix.shelf, ix.keymap, gens, ix.next);
    CompactionPreservesView(ix.shelf, ix.keymap, gens, ix.next);
    CompactKeepsFlushable(ix, gens);
  }

  /** The disk part of the compacted index is the compacted disk part. */
  lemma CompactCommutesWithOnly(ix: Index, gens: seq<nat>)
    requires Structured(ix) && Compactable(ix, gens)
    ensures Only(Compacted(ix, gens).shelf, Elements(Compacted(ix, gens).order))
         == CompactedShelf(Only(ix.shelf, Elements(ix.order)), gens, ix.next)
  {
    var disk, gone := Elements(ix.order), Elements(gens);
    var s := Only(ix.shelf, disk);
    ReplacedElements(ix.order, gone, ix.next);
    assert Inputs(s, gens) == Inputs(ix.shelf, gens);
    OnlyOfCompacted(ix.shelf, gens, ix.next, disk);
  }

  lemma OnlyOfCompacted(shelf: Shelf, gens: seq<nat>, out: nat, disk: set<nat>)
    requires Inputs(Only(shelf, disk), gens) == Inputs(shelf, gens)
    ensures Only(CompactedShelf(shelf, gens, out), disk - Elements(gens) + {out})
         == CompactedShelf(Only(shelf, disk), gens, out)
  {
    hide Merge, Inputs, Elements;
    var a, b := Only(CompactedShelf(shelf, gens, out), disk - Elements(gens) + {out}),
                CompactedShelf(Only(shelf, disk), gens, out);
    assert a.Keys == b.Keys;
  }

  lemma CompactKeepsFlushable(ix: Index, gens: seq<nat>)
    requires Structured(ix) && Coherent(ix.shelf, ix.keymap) && Compactable(ix, gens)
    ensures Flushable(Compacted(ix, gens)) == Flushable(ix)
  {
    var jx, disk := Compacted(ix, gens), Elements(ix.order);
    var s, km := Only(ix.shelf, disk), Retain(ix.keymap, disk);
    assert ix.next !in ix.shelf && ix.next !in s && forall g :: g in gens ==> g in ix.shelf && g in s;
    CompactCommutesWithOnly(ix, gens);
    hide Structured, Coherent, View, CompactedShelf, CompactedKeymap, Only, Retain;
    KeymapsAgree(ix, gens);
    CompactionPreservesView(s, km, gens, ix.next);
  }

  lemma KeymapsAgree(ix: Index, gens: seq<nat>)
    requires Structured(ix) && Coherent(ix.shelf, ix.keymap) && Compactable(ix, gens)
    ensures var s, km := Only(ix.shelf, Elements(ix.order)), Retain(ix.keymap, Elements(ix.order));
            && Coherent(s, km)
            && Retain(Compacted(ix, gens).keymap, Elements(Compacted(ix, gens).order))
               == CompactedKeymap(s, km, gens, ix.next)
  {
    var jx, disk := Compacted(ix, gens), Elements(ix.order);
    var s, km := Only(ix.shelf, disk), Retain(ix.keymap, disk);
    assert ix.next !in ix.shelf && ix.next !in s && forall g :: g in gens ==> g in ix.shelf && g in s;
    CompactCommutesWithOnly(ix, gens);
    hide Structured, Sound, Complete, CompactedShelf, CompactedKeymap, Only, Retain;
    RetainIsCoherent(ix.shelf, ix.keymap, disk);
    CompactionIsSound(ix.shelf, ix.keymap, gens, ix.next);
    CompactionIsComplete(ix.shelf, ix.keymap, gens, ix.next);
    RetainIsCoherent(jx.shelf, jx.keymap, Elements(jx.order));
    CompactionIsSound(s, km, gens, ix.next);
    CompactionIsComplete(s, km, gens, ix.next);
    CoherentKeymapIsUnique(Only(jx.shelf, Elements(jx.order)),
                           Retain(jx.keymap, Elements(jx.order)), CompactedKeymap(s, km, gens, ix.next));
  }
}
