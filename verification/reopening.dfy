/**
 The durable-mode invariant -- flushed segments overlaid with the log are the index --
 and what reopening after a crash gives back.
 */
module Reopening {
  import opened Sequences
  import opened SegmentModel
  import opened Shelves
  import opened Operations
  import opened Mutations
  import opened Compaction
  import opened Recovery
  import opened Durability

  // --------------------------------------------- what an operation leaves flushed

  lemma FlushableAfterStoring(shelf: Shelf, km: Keymap, disk: set<nat>, writer: nat, e: Entry)
    requires writer in shelf && writer !in disk
    ensures View(Only(Append(shelf, writer, e), disk), Retain(km[e.key := End(shelf, writer)], disk))
         == View(Only(shelf, disk), Retain(km, disk)) - {e.key}
  {
    assert Only(Append(shelf, writer, e), disk) == Only(shelf, disk);
    assert Retain(km[e.key := End(shelf, writer)], disk) == Retain(km, disk) - {e.key};
  }

  lemma FlushableAfterKill(shelf: Shelf, km: Keymap, disk: set<nat>, victim: Loc)
    ensures View(Only(Kill(shelf, victim), disk), Retain(km, disk)) == View(Only(shelf, disk), Retain(km, disk))
  {
    var a, b, m := Only(Kill(shelf, victim), disk), Only(shelf, disk), Retain(km, disk);
    forall k | k in m
      ensures InRange(a, m[k]) <==> InRange(b, m[k])
      ensures InRange(a, m[k]) ==> EntryAt(a, m[k]) == EntryAt(b, m[k])
    {
      KillAt(shelf, victim, m[k]);
    }
  }

  lemma FlushableAfterRemoval(shelf: Shelf, km: Keymap, disk: set<nat>, k: Key)
    ensures View(Only(shelf, disk), Retain(km - {k}, disk)) == View(Only(shelf, disk), Retain(km, disk)) - {k}
  {
    assert Retain(km - {k}, disk) == Retain(km, disk) - {k};
  }

  /** An auto-flush leaves the list of segments alone exactly when it does nothing. */
  lemma AutoFlushOrder(ix: Index)
    requires Structured(ix)
    ensures AutoFlushed(ix) == ix || (AutoFlushed(ix) == Flushed(ix) && ix.shelf[ix.writer].docs != [])
    ensures AutoFlushed(ix).order == ix.order <==> AutoFlushed(ix) == ix
    ensures AutoFlushed(ix) == ix || |ix.shelf[ix.writer].docs| >= ix.policy.flushAfter > 0
  {
    if AutoFlushed(ix) != ix {
      assert |AutoFlushed(ix).order| == |ix.order| + 1;
    }
  }

  lemma LoggedFields(ix: Index, r: WalRecord)
    ensures var jx := Logged(ix, r);
            && jx.order == ix.order && jx.shelf == ix.shelf && jx.keymap == ix.keymap && jx.writer == ix.writer
            && jx.policy == ix.policy && jx.replaying == ix.replaying && jx.truncatePending == ix.truncatePending
  {
  }

  lemma TombstonedFields(ix: Index, loc: Loc)
    ensures var jx := Tombstoned(ix, loc);
            && jx.order == ix.order && jx.keymap == ix.keymap && jx.writer == ix.writer
            && jx.policy == ix.policy && jx.replaying == ix.replaying && jx.truncatePending == ix.truncatePending
            && jx.healthy == ix.healthy && jx.disk.wal == ix.disk.wal
            && (jx.shelf == Kill(ix.shelf, loc) || jx.shelf == ix.shelf)
  {
  }

  /** Without a flush an operation only takes its own key away from the flushed part. */
  lemma StoredFlushable(ix: Index, k: Key, doc: Document)
    requires Structured(ix)
    ensures Flushable(Stored(ix, k, doc)) == Flushable(ix) - {k}
  {
    StoredIs(ix, k, doc);
    FlushableAfterStoring(ix.shelf, ix.keymap, Elements(ix.order), ix.writer, Entry(k, doc));
  }

  lemma AddFlushable(ix: Index, k: Key, doc: Document)
    requires Usable(ix) && ValidKey(k) && doc.terms > 0
    ensures var jx := Add(ix, k, doc);
            Flushable(jx) == if jx.order == ix.order then Flushable(ix) - {k} else Contents(jx)
  {
    var logged := Logged(Stored(ix, k, doc), Added(k, doc));
    StoredIs(ix, k, doc);
    StoredIsStructured(ix, k, doc);
    LoggedKeeps(Stored(ix, k, doc), Added(k, doc));
    LoggedFields(Stored(ix, k, doc), Added(k, doc));
    AutoFlushOrder(logged);
    hide Structured, Mirrored, View, Only, Retain, Append, Logged, Flushed, ValidKey, Sound;
    AppendIsSound(ix.shelf, ix.keymap, ix.writer, Entry(k, doc));
    StoredFlushable(ix, k, doc);
    if AutoFlushed(logged) != logged {
      FlushMakesDurable(logged);
      FlushKeeps(logged);
    }
  }

  lemma SupersedingFlushable(ix: Index, k: Key, doc: Document)
    requires Usable(ix) && ValidKey(k)
    ensures var jx := Superseding(ix, k, doc);
            Flushable(jx) == if jx.order == ix.order then Flushable(ix) - {k} else Contents(jx)
  {
    var stored := Stored(ix, k, doc);
    StoredIs(ix, k, doc);
    StoredIsStructured(ix, k, doc);
    AutoFlushOrder(stored);
    LoggedFields(AutoFlushed(stored), Updated(k, doc));
    hide Structured, Mirrored, View, Only, Retain, Append, Logged, Flushed, ValidKey, Sound;
    AppendIsSound(ix.shelf, ix.keymap, ix.writer, Entry(k, doc));
    StoredFlushable(ix, k, doc);
    if AutoFlushed(stored) != stored {
      FlushMakesDurable(stored);
      FlushKeeps(stored);
    }
  }

  lemma TombstonedFlushable(ix: Index, loc: Loc)
    ensures Flushable(Tombstoned(ix, loc)) == Flushable(ix)
  {
    TombstonedFields(ix, loc);
    FlushableAfterKill(ix.shelf, ix.keymap, Elements(ix.order), loc);
  }

  lemma UpdateFlushable(ix: Index, k: Key, doc: Document)
    requires Usable(ix) && ValidKey(k) && doc.terms > 0
    ensures var jx := Update(ix, k, doc);
            Flushable(jx) == if jx.order == ix.order then Flushable(ix) - {k} else Contents(jx)
  {
    var sx := Superseding(ix, k, doc);
    assert Update(ix, k, doc) == if k in ix.keymap then Tombstoned(sx, ix.keymap[k]) else sx;
    hide Structured, Mirrored, View, Sound, Tombstoned, Superseding, Update, Flushable, Contents;
    SupersedingFlushable(ix, k, doc);
    SupersedingWrites(ix, k, doc);
    if k in ix.keymap {
      TombstonedFields(sx, ix.keymap[k]);
      TombstonedFlushable(sx, ix.keymap[k]);
      SupersededRetires(ix, k, doc);
    }
  }

  lemma DeleteFlushable(ix: Index, k: Key)
    requires Usable(ix)
    ensures Delete(ix, k).order == ix.order
    ensures Flushable(Delete(ix, k)) == Flushable(ix) - {k}
  {
    if Deletable(ix, k) {
      var t := Tombstoned(ix, ix.keymap[k]);
      TombstonedFields(ix, ix.keymap[k]);
      LoggedFields(Forgotten(t, k), Deleted(k));
      TombstonedFlushable(ix, ix.keymap[k]);
      FlushableAfterRemoval(t.shelf, t.keymap, Elements(t.order), k);
    } else {
      DeleteForgets(ix, k);
    }
  }

  lemma AppliedFlushable(ix: Index, r: WalRecord)
    requires Usable(ix) && Loggable(r)
    ensures var jx := Applied(ix, r);
            Flushable(jx) == if jx.order == ix.order then Flushable(ix) - {r.key} else Contents(jx)
  {
    match r {
      case Added(k, doc) => AddFlushable(ix, k, doc);
      case Updated(k, doc) => UpdateFlushable(ix, k, doc);
      case Deleted(k) => DeleteFlushable(ix, k);
    }
  }
}
