/**
 What add, update, delete and flush guarantee: the index stays consistent, and the
 key -> document map changes by exactly the one key the caller named.
 */
module Mutations {
  import opened Sequences
  import opened SegmentModel
  import opened Shelves
  import opened Operations

  /** Structured, with every keymap entry naming a live copy; strays are allowed. */
  ghost predicate Usable(ix: Index) {
    Structured(ix) && Mirrored(ix) && Sound(ix.shelf, ix.keymap)
  }

  lemma LoggedKeeps(ix: Index, r: WalRecord)
    ensures Structured(ix) ==> Structured(Logged(ix, r))
    ensures Mirrored(ix) ==> Mirrored(Logged(ix, r))
  {
  }

  lemma AutoFlushKeeps(ix: Index)
    requires Structured(ix)
    ensures Structured(AutoFlushed(ix))
    ensures Mirrored(ix) ==> Mirrored(AutoFlushed(ix))
    ensures Sound(ix.shelf, ix.keymap) ==> Sound(AutoFlushed(ix).shelf, AutoFlushed(ix).keymap)
    ensures Complete(ix.shelf, ix.keymap) ==> Complete(AutoFlushed(ix).shelf, AutoFlushed(ix).keymap)
    ensures Contents(AutoFlushed(ix)) == Contents(ix)
  {
    FlushedIsStructured(ix);
    if Mirrored(ix) {
      FlushedIsMirrored(ix);
    }
    FlushKeeps(ix);
  }

  lemma AutoFlushKeymap(ix: Index)
    requires ix.writer in ix.shelf
    ensures AutoFlushed(ix).keymap == ix.keymap
  {
  }

  /** Flushing neither creates nor removes live documents. */
  lemma AutoFlushShelf(ix: Index)
    requires Structured(ix)
    ensures AutoFlushed(ix).shelf == ix.shelf || AutoFlushed(ix).shelf == WithEmpty(ix.shelf, ix.next)
    ensures ix.next !in ix.shelf
  {
  }

  /** Adding writes exactly one key; a document without terms writes none. */
  lemma AddWrites(ix: Index, k: Key, doc: Document)
    requires Usable(ix) && ValidKey(k)
    ensures Usable(Add(ix, k, doc))
    ensures Contents(Add(ix, k, doc)) == if doc.terms == 0 then Contents(ix) else Contents(ix)[k := doc]
  {
    hide Mirrored, Sound, View, AutoFlushed, Append, ValidKey;
    if doc.terms != 0 {
      StoredIs(ix, k, doc);
      StoredIsStructured(ix, k, doc);
      AppendIsSound(ix.shelf, ix.keymap, ix.writer, Entry(k, doc));
      LoggedKeeps(Stored(ix, k, doc), Added(k, doc));
      AutoFlushKeeps(Logged(Stored(ix, k, doc), Added(k, doc)));
    }
  }

  lemma AddStrands(ix: Index, k: Key, doc: Document)
    requires Structured(ix) && Coherent(ix.shelf, ix.keymap) && ValidKey(k)
    requires doc.terms != 0 && k in ix.keymap
    ensures !Complete(Add(ix, k, doc).shelf, Add(ix, k, doc).keymap)
  {
    hide View, ValidKey, Append, CoherentBut;
    var prior, logged, after := ix.keymap[k], Logged(Stored(ix, k, doc), Added(k, doc)), Add(ix, k, doc);
    StoredIs(ix, k, doc);
    StoredIsStructured(ix, k, doc);
    AutoFlushShelf(logged);
    assert Alive(ix.shelf, prior) && EntryAt(ix.shelf, prior).key == k;
    AppendAt(ix.shelf, ix.writer, Entry(k, doc), prior);
    EmptyAt(logged.shelf, logged.next, prior);
    assert Alive(after.shelf, prior) && !Named(after.shelf, after.keymap, prior);
  }

  lemma AddFresh(ix: Index, k: Key, doc: Document)
    requires Structured(ix) && Coherent(ix.shelf, ix.keymap) && ValidKey(k)
    requires doc.terms != 0 && k !in ix.keymap
    ensures Complete(Add(ix, k, doc).shelf, Add(ix, k, doc).keymap)
  {
    hide View, Append, ValidKey, AutoFlushed, Mirrored, Sound, Complete;
    StoredIs(ix, k, doc);
    StoredIsStructured(ix, k, doc);
    AppendIsComplete(ix.shelf, ix.keymap, ix.writer, Entry(k, doc));
    LoggedKeeps(Stored(ix, k, doc), Added(k, doc));
    AutoFlushKeeps(Logged(Stored(ix, k, doc), Added(k, doc)));
  }

  /**
   add_document() keeps live documents and keymap entries in bijection exactly when
   the document is rejected or the key is not mapped yet: it never retires a prior copy.
   */
  lemma AddIsConsistent(ix: Index, k: Key, doc: Document)
    requires Consistent(ix) && ValidKey(k)
    ensures Consistent(Add(ix, k, doc)) <==> doc.terms == 0 || k !in ix.keymap
  {
    hide Structured, Mirrored, Sound, Complete, ValidKey;
    AddWrites(ix, k, doc);
    if doc.terms != 0 && k in ix.keymap {
      AddStrands(ix, k, doc);
    } else if doc.terms != 0 {
      AddFresh(ix, k, doc);
    }
  }

  /** update_document() before the old copy is retired. */
  function Superseding(ix: Index, k: Key, doc: Document): Index
    requires ix.writer in ix.shelf
  {
    Logged(AutoFlushed(Stored(ix, k, doc)), Updated(k, doc))
  }

  lemma SupersedingWrites(ix: Index, k: Key, doc: Document)
    requires Usable(ix) && ValidKey(k)
    ensures Usable(Superseding(ix, k, doc))
    ensures Contents(Superseding(ix, k, doc)) == Contents(ix)[k := doc]
    ensures Superseding(ix, k, doc).keymap == ix.keymap[k := End(ix.shelf, ix.writer)]
    ensures Coherent(ix.shelf, ix.keymap) && k !in ix.keymap ==>
              Coherent(Superseding(ix, k, doc).shelf, Superseding(ix, k, doc).keymap)
  {
    StoredIs(ix, k, doc);
    StoredIsStructured(ix, k, doc);
    LoggedShelf(AutoFlushed(Stored(ix, k, doc)), Updated(k, doc));
    AutoFlushKeymap(Stored(ix, k, doc));
    assert ix.writer in ix.shelf && WellStored(ix.shelf);
    hide Structured, WellStored, Mirrored, Sound, Complete, View, Append, ValidKey, Stored, AutoFlushed, Logged;
    AppendIsSound(ix.shelf, ix.keymap, ix.writer, Entry(k, doc));
    if Coherent(ix.shelf, ix.keymap) {
      AppendIsComplete(ix.shelf, ix.keymap, ix.writer, Entry(k, doc));
    }
    AutoFlushKeeps(Stored(ix, k, doc));
    LoggedKeeps(AutoFlushed(Stored(ix, k, doc)), Updated(k, doc));
  }

  lemma SupersedingStrands(ix: Index, k: Key, doc: Document)
    requires Structured(ix) && Sound(ix.shelf, ix.keymap) && ValidKey(k) && k in ix.keymap
    ensures InRange(Superseding(ix, k, doc).shelf, ix.keymap[k])
    ensures Coherent(ix.shelf, ix.keymap) ==>
              CoherentBut(Superseding(ix, k, doc).shelf, Superseding(ix, k, doc).keymap, ix.keymap[k])
  {
    var prior, stored := ix.keymap[k], Stored(ix, k, doc);
    StoredIs(ix, k, doc);
    StoredIsStructured(ix, k, doc);
    AutoFlushShelf(stored);
    assert Alive(ix.shelf, prior);
    AppendAt(ix.shelf, ix.writer, Entry(k, doc), prior);
    EmptyAt(stored.shelf, stored.next, prior);
    hide View, Append, ValidKey, CoherentBut, Sound, Complete;
    if Coherent(ix.shelf, ix.keymap) {
      AppendIsComplete(ix.shelf, ix.keymap, ix.writer, Entry(k, doc));
      EmptyKeepsStray(stored.shelf, stored.keymap, stored.next, prior);
    }
  }

  ghost predicate Unnamed(km: Keymap, loc: Loc) {
    forall k :: k in km ==> km[k] != loc
  }

  lemma KilledUnnamed(shelf: Shelf, km: Keymap, victim: Loc)
    requires Sound(shelf, km) && Unnamed(km, victim)
    ensures Sound(Kill(shelf, victim), km)
    ensures View(Kill(shelf, victim), km) == View(shelf, km)
  {
    forall k | k in km
      ensures Alive(Kill(shelf, victim), km[k])
      ensures EntryAt(Kill(shelf, victim), km[k]) == EntryAt(shelf, km[k])
    {
      KillAt(shelf, victim, km[k]);
    }
  }

  /** No entry names the copy that was just superseded. */
  lemma SupersededIsUnnamed(ix: Index, k: Key)
    requires Structured(ix) && Sound(ix.shelf, ix.keymap) && k in ix.keymap
    ensures Unnamed(ix.keymap[k := End(ix.shelf, ix.writer)], ix.keymap[k])
  {
    assert Alive(ix.shelf, ix.keymap[k]);
  }

  /** update_document() is an upsert that leaves exactly one live copy. */
  lemma UpdateWrites(ix: Index, k: Key, doc: Document)
    requires Usable(ix) && ValidKey(k)
    ensures Usable(Update(ix, k, doc))
    ensures Coherent(ix.shelf, ix.keymap) ==> Consistent(Update(ix, k, doc))
    ensures Contents(Update(ix, k, doc)) == if doc.terms == 0 then Contents(ix) else Contents(ix)[k := doc]
  {
    SupersededRetires(ix, k, doc);
    hide Mirrored, Sound, Complete, View, ValidKey, Stored, AutoFlushed, Logged, Tombstoned;
    SupersedingWrites(ix, k, doc);
  }

  lemma SupersededRetires(ix: Index, k: Key, doc: Document)
    requires Usable(ix) && ValidKey(k)
    ensures k in ix.keymap ==>
              var jx := Tombstoned(Superseding(ix, k, doc), ix.keymap[k]);
              && Usable(jx)
              && Contents(jx) == Contents(Superseding(ix, k, doc))
              && (Coherent(ix.shelf, ix.keymap) ==> Consistent(jx))
  {
    if k in ix.keymap {
      SupersededIsUnnamed(ix, k);
      hide Structured, Mirrored, Sound, Complete, CoherentBut, View, ValidKey, Superseding, Tombstoned;
      var prior, sx := ix.keymap[k], Superseding(ix, k, doc);
      SupersedingWrites(ix, k, doc);
      SupersedingStrands(ix, k, doc);
      TombstonedIsStructured(sx, prior);
      TombstonedIsMirrored(sx, prior);
      KilledUnnamed(sx.shelf, sx.keymap, prior);
      if Coherent(ix.shelf, ix.keymap) {
        KilledStray(sx.shelf, sx.keymap, prior);
      }
      TombstonedKeymap(sx, prior);
    }
  }

  lemma TombstonedKeymap(ix: Index, loc: Loc)
    ensures Tombstoned(ix, loc).keymap == ix.keymap
  {
  }

  function Forgotten(ix: Index, k: Key): Index {
    ix.(keymap := ix.keymap - {k}, disk := ix.disk.(log := LogDrop(ix.disk.log, k)))
  }

  lemma ForgottenKeeps(ix: Index, k: Key)
    ensures Structured(ix) ==> Structured(Forgotten(ix, k))
    ensures Mirrored(ix) ==> Mirrored(Forgotten(ix, k))
  {
  }

  /** delete_document() forgets exactly the key it is given. */
  lemma DeleteForgets(ix: Index, k: Key)
    requires Usable(ix)
    ensures Deletable(ix, k) <==> k in ix.keymap
    ensures Usable(Delete(ix, k))
    ensures Coherent(ix.shelf, ix.keymap) ==> Consistent(Delete(ix, k))
    ensures Contents(Delete(ix, k)) == Contents(ix) - {k}
  {
    if k in ix.keymap {
      var loc := ix.keymap[k];
      assert Alive(ix.shelf, loc);
      assert loc.generation in Elements(ix.order) + {ix.writer};
      hide Structured, Mirrored, Sound, Complete, View, ValidKey, Logged, Tombstoned;
      TombstonedIsStructured(ix, loc);
      TombstonedIsMirrored(ix, loc);
      TombstonedKeymap(ix, loc);
      KilledMapped(ix.shelf, ix.keymap, k);
      ForgottenKeeps(Tombstoned(ix, loc), k);
      LoggedKeeps(Forgotten(Tombstoned(ix, loc), k), Deleted(k));
      LoggedShelf(Forgotten(Tombstoned(ix, loc), k), Deleted(k));
      assert Delete(ix, k) == Logged(Forgotten(Tombstoned(ix, loc), k), Deleted(k));
    }
  }

  lemma LoggedShelf(ix: Index, r: WalRecord)
    ensures Logged(ix, r).shelf == ix.shelf && Logged(ix, r).keymap == ix.keymap
  {
  }

  /** flush() changes where documents live, never what the index contains. */
  lemma FlushPreserves(ix: Index)
    requires Usable(ix)
    ensures Usable(Flushed(ix))
    ensures Coherent(ix.shelf, ix.keymap) ==> Consistent(Flushed(ix))
    ensures Contents(Flushed(ix)) == Contents(ix)
    ensures ix.shelf[ix.writer].docs != [] ==> Flushable(Flushed(ix)) == Contents(ix)
  {
    FlushedIsStructured(ix);
    FlushedIsMirrored(ix);
    FlushKeeps(ix);
    if ix.shelf[ix.writer].docs != [] {
      FlushMakesDurable(ix);
    }
  }
}
