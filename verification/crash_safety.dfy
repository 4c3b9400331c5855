/**
 Crash safety of durable mode, over every operation and every reopening.
 */
module CrashSafety {
  import opened Sequences
  import opened SegmentModel
  import opened Operations
  import opened Mutations
  import opened Compaction
  import opened Recovery
  import opened Durability
  import opened Reopening

  /** Flushed segments overlaid with the log give the index; the log can be replayed. */
  ghost predicate Covered(ix: Index) {
    && WellLogged(ix.disk.wal)
    && AddsAreFresh(Flushable(ix), ix.disk.wal)
    && (ix.healthy ==> Overlay(Flushable(ix), ix.disk.wal) == Contents(ix))
  }

  function Puts(wal: seq<WalRecord>): (n: nat)
    ensures n <= |wal|
  {
    if wal == [] then 0
    else Puts(wal[..|wal| - 1]) + (if wal[|wal| - 1].Deleted? then 0 else 1)
  }

  /** With automatic flushing the log never outgrows one writer's worth of documents. */
  ghost predicate Bounded(ix: Index) {
    var n := |VolumeAt(ix.shelf, ix.writer).docs|;
    && Puts(ix.disk.wal) <= n + 1
    && (ix.policy.flushAfter > 0 ==> n < ix.policy.flushAfter && Puts(ix.disk.wal) <= ix.policy.flushAfter)
  }

  /** The invariant of durable mode at every operation boundary. */
  ghost predicate Durable(ix: Index) {
    && Consistent(ix)
    && ix.policy.durable && !ix.replaying && !ix.truncatePending
    && Covered(ix) && Bounded(ix)
  }

  // ------------------------------------------------- how a step changes the log

  /** What a successful operation leaves in the log and in the writer. */
  ghost predicate LogStep(ix: Index, r: WalRecord, jx: Index) {
    var n := |VolumeAt(ix.shelf, ix.writer).docs|;
    var m := |VolumeAt(jx.shelf, jx.writer).docs|;
    && jx.policy == ix.policy && !jx.replaying && !jx.truncatePending
    && (if jx.order == ix.order then
          && m == (if r.Deleted? then n else n + 1)
          && (ix.policy.flushAfter > 0 && !r.Deleted? ==> m < ix.policy.flushAfter)
          && jx.healthy == (ix.healthy && Recordable(r))
          && jx.disk.wal == (if ix.healthy && Recordable(r) then ix.disk.wal + [r] else ix.disk.wal)
        else
          && m == 0 && !r.Deleted?
          && (r.Added? ==> jx.disk.wal == [] && jx.healthy)
          && (r.Updated? ==> jx.healthy == Recordable(r) && jx.disk.wal == if Recordable(r) then [r] else []))
  }

  /**
   In durable mode the log grows by the record of each add, update and delete of a text of at
   most 256 MB, as long as it is healthy; a longer text makes it unhealthy.  A flush empties
   it and heals it: the one an add sets off comes after the record, that of an update before.
   */
  lemma CommandsAreLogged(ix: Index, k: Key, doc: Document)
    requires ix.writer in ix.shelf && ix.policy.durable && !ix.replaying && doc.terms > 0
    ensures var jx, fills := Add(ix, k, doc), 0 < ix.policy.flushAfter <= |ix.shelf[ix.writer].docs| + 1;
            && jx.healthy == (fills || (ix.healthy && |doc.text| <= 268435456))
            && jx.disk.wal == if fills then [] else if jx.healthy then ix.disk.wal + [Added(k, doc)] else ix.disk.wal
    ensures var jx, fills := Update(ix, k, doc), 0 < ix.policy.flushAfter <= |ix.shelf[ix.writer].docs| + 1;
            && jx.healthy == ((fills || ix.healthy) && |doc.text| <= 268435456)
            && jx.disk.wal == (if fills then [] else ix.disk.wal) + if jx.healthy then [Updated(k, doc)] else []
    ensures var jx := Delete(ix, k);
            && jx.healthy == ix.healthy
            && jx.disk.wal == ix.disk.wal + if Deletable(ix, k) && ix.healthy then [Deleted(k)] else []
  {
    var sx := Superseding(ix, k, doc);
    assert Update(ix, k, doc) == if k in ix.keymap then Tombstoned(sx, ix.keymap[k]) else sx;
    if k in ix.keymap {
      TombstonedFields(sx, ix.keymap[k]);
      TombstonedFields(ix, ix.keymap[k]);
    }
    hide Tombstoned;
  }

  lemma AddLogStep(ix: Index, k: Key, doc: Document)
    requires Structured(ix) && doc.terms > 0
    requires ix.policy.durable && !ix.replaying && !ix.truncatePending
    ensures LogStep(ix, Added(k, doc), Add(ix, k, doc))
  {
    var logged := Logged(Stored(ix, k, doc), Added(k, doc));
    if Add(ix, k, doc) != logged {
      assert |Add(ix, k, doc).order| == |ix.order| + 1;
    }
  }

  lemma SupersedingLogStep(ix: Index, k: Key, doc: Document)
    requires Structured(ix)
    requires ix.policy.durable && !ix.replaying && !ix.truncatePending
    ensures LogStep(ix, Updated(k, doc), Superseding(ix, k, doc))
  {
    var stored := Stored(ix, k, doc);
    if AutoFlushed(stored) != stored {
      assert |Superseding(ix, k, doc).order| == |ix.order| + 1;
    }
  }

  lemma TombstonedLogStep(ix: Index, r: WalRecord, sx: Index, loc: Loc)
    requires LogStep(ix, r, sx)
    ensures LogStep(ix, r, Tombstoned(sx, loc))
  {
  }

  lemma UpdateLogStep(ix: Index, k: Key, doc: Document)
    requires Structured(ix) && doc.terms > 0
    requires ix.policy.durable && !ix.replaying && !ix.truncatePending
    ensures LogStep(ix, Updated(k, doc), Update(ix, k, doc))
  {
    var sx := Superseding(ix, k, doc);
    assert Update(ix, k, doc) == if k in ix.keymap then Tombstoned(sx, ix.keymap[k]) else sx;
    hide LogStep, Structured, Superseding, Update, Tombstoned;
    SupersedingLogStep(ix, k, doc);
    if k in ix.keymap {
      TombstonedLogStep(ix, Updated(k, doc), sx, ix.keymap[k]);
    }
  }

  lemma DeleteLogStep(ix: Index, k: Key)
    requires Usable(ix) && k in ix.keymap
    requires ix.policy.durable && !ix.replaying && !ix.truncatePending
    ensures LogStep(ix, Deleted(k), Delete(ix, k))
  {
    DeleteForgets(ix, k);
    var t := Tombstoned(ix, ix.keymap[k]);
    TombstonedFields(ix, ix.keymap[k]);
    hide Structured, Mirrored, Sound, View, Tombstoned;
    assert Delete(ix, k) == Logged(Forgotten(t, k), Deleted(k));
  }

  lemma AppliedLogStep(ix: Index, r: WalRecord)
    requires Usable(ix) && Loggable(r) && (r.Deleted? ==> r.key in ix.keymap)
    requires ix.policy.durable && !ix.replaying && !ix.truncatePending
    ensures LogStep(ix, r, Applied(ix, r))
  {
    match r {
      case Added(k, doc) => AddLogStep(ix, k, doc);
      case Updated(k, doc) => UpdateLogStep(ix, k, doc);
      case Deleted(k) => DeleteLogStep(ix, k);
    }
  }

  // ------------------------------------------------------ the invariant is kept

  lemma {:induction false} OverlayShrinks(a: map<Key, Document>, b: map<Key, Document>, wal: seq<WalRecord>)
    requires a.Keys <= b.Keys
    ensures Overlay(a, wal).Keys <= Overlay(b, wal).Keys
  {
    if wal != [] {
      OverlayShrinks(a, b, wal[..|wal| - 1]);
    }
  }

  lemma FreshnessShrinks(a: map<Key, Document>, b: map<Key, Document>, wal: seq<WalRecord>)
    requires a.Keys <= b.Keys && AddsAreFresh(b, wal)
    ensures AddsAreFresh(a, wal)
  {
    forall i | 0 <= i < |wal| && wal[i].Added? ensures wal[i].key !in Overlay(a, wal[..i]) {
      OverlayShrinks(a, b, wal[..i]);
    }
  }

  /** Appending a record whose key the flushed part loses overlays to the written map. */
  lemma OverlayAppended(view: map<Key, Document>, wal: seq<WalRecord>, r: WalRecord)
    ensures Overlay(view - {r.key}, wal + [r]) == Written(Overlay(view, wal), r)
  {
    assert (wal + [r])[..|wal|] == wal;
    OverlayAbsorbs(view - {r.key}, view, wal, {r.key});
    var a, b := Overlay(view - {r.key}, wal), Overlay(view, wal);
    forall k ensures k in Written(a, r) <==> k in Written(b, r)
      ensures k in Written(a, r) ==> Written(a, r)[k] == Written(b, r)[k]
    {
      assert k != r.key ==> k !in {r.key} - KeysIn(wal);
    }
  }

  lemma PutsAppended(wal: seq<WalRecord>, r: WalRecord)
    ensures Puts(wal + [r]) == Puts(wal) + (if r.Deleted? then 0 else 1)
    ensures Puts([]) == 0
    ensures Puts([r]) <= 1
  {
    assert (wal + [r])[..|wal|] == wal;
    assert [r][..0] == [];
  }

  /** The log still covers the index after one more operation. */
  lemma CoveredStep(ix: Index, r: WalRecord)
    requires Durable(ix) && Loggable(r) && (r.Deleted? ==> r.key in ix.keymap)
    requires r.Added? ==> r.key !in ix.keymap
    ensures Covered(Applied(ix, r))
  {
    hide Covered, Bounded, Applied, Flushable, Contents, LogStep;
    ContentsKeys(ix);
    AppliedWrites(ix, r);
    AppliedFlushable(ix, r);
    AppliedLogStep(ix, r);
    if Applied(ix, r).order == ix.order {
      CoveredByAppending(ix, r, Applied(ix, r));
    } else {
      CoveredAfresh(ix, r, Applied(ix, r));
    }
  }

  lemma CoveredByAppending(ix: Index, r: WalRecord, jx: Index)
    requires Covered(ix) && Loggable(r) && LogStep(ix, r, jx) && jx.order == ix.order
    requires r.Added? ==> r.key !in Contents(ix)
    requires Flushable(jx) == Flushable(ix) - {r.key} && Contents(jx) == Written(Contents(ix), r)
    ensures Covered(jx)
  {
    hide Flushable, Contents, Overlay, Written, AddsAreFresh;
    var f, w := Flushable(ix), ix.disk.wal;
    FreshnessShrinks(f - {r.key}, f, w);
    if ix.healthy && Recordable(r) {
      OverlayAppended(f, w, r);
      FreshAfterAppend(f, w, r);
    }
  }

  lemma CoveredAfresh(ix: Index, r: WalRecord, jx: Index)
    requires Loggable(r) && LogStep(ix, r, jx) && jx.order != ix.order
    requires Flushable(jx) == Contents(jx) == Written(Contents(ix), r)
    ensures Covered(jx)
  {
    hide Flushable, Contents, Written, AddsAreFresh;
    FreshSingle(Contents(jx), r);
    OverlaySingle(Contents(ix), r);
    assert Overlay(Contents(jx), []) == Contents(jx);
  }

  lemma FreshAfterAppend(f: map<Key, Document>, w: seq<WalRecord>, r: WalRecord)
    requires AddsAreFresh(f - {r.key}, w)
    requires r.Added? ==> r.key !in Overlay(f, w)
    ensures AddsAreFresh(f - {r.key}, w + [r])
  {
    assert (w + [r])[..|w|] == w;
    OverlayShrinks(f - {r.key}, f, w);
    FreshnessSplits(f - {r.key}, w + [r]);
  }

  lemma FreshSingle(view: map<Key, Document>, r: WalRecord)
    ensures AddsAreFresh(view, [])
    ensures !r.Added? ==> AddsAreFresh(view, [r])
  {
  }

  lemma OverlaySingle(view: map<Key, Document>, r: WalRecord)
    ensures Overlay(Written(view, r), [r]) == Written(view, r)
  {
    assert [r][..0] == [];
  }

  lemma BoundedStep(ix: Index, r: WalRecord)
    requires ix.writer in ix.shelf && Bounded(ix)
    requires LogStep(ix, r, Applied(ix, r))
    ensures Bounded(Applied(ix, r))
  {
    PutsAppended(ix.disk.wal, r);
  }

  /** Every add of a fresh key, update and delete keeps the durable-mode invariant. */
  lemma DurableStep(ix: Index, r: WalRecord)
    requires Durable(ix) && Loggable(r)
    requires r.Added? ==> r.key !in ix.keymap
    ensures Durable(Applied(ix, r))
    ensures Contents(Applied(ix, r)) == Written(Contents(ix), r)
    ensures ix.healthy && Recordable(r) ==> Applied(ix, r).healthy
  {
    ContentsKeys(ix);
    AppliedWrites(ix, r);
    if r.Deleted? && r.key !in ix.keymap {
      assert Applied(ix, r) == ix;
    } else {
      CoveredStep(ix, r);
      AppliedLogStep(ix, r);
      hide Consistent, Usable, Covered, Bounded, Applied, Contents;
      BoundedStep(ix, r);
    }
  }

  lemma DurableFlush(ix: Index)
    requires Durable(ix)
    ensures Durable(Flushed(ix)) && Contents(Flushed(ix)) == Contents(ix)
    ensures ix.healthy || ix.shelf[ix.writer].docs != [] ==> Flushed(ix).healthy
  {
    FlushPreserves(ix);
    if ix.shelf[ix.writer].docs != [] {
      assert Flushed(ix).disk.wal == [];
    }
  }

  lemma DurableCompact(ix: Index, gens: seq<nat>)
    requires Durable(ix) && Compactable(ix, gens)
    ensures Durable(Compacted(ix, gens)) && Contents(Compacted(ix, gens)) == Contents(ix)
    ensures ix.healthy ==> Compacted(ix, gens).healthy
  {
    CompactPreserves(ix, gens);
    assert ix.next !in ix.shelf;
  }

  // ------------------------------------------------------------------ reopening

  /** open(): recovery, then in durable mode the replay and its deferred truncation. */
  function Reopened(d: Disk, policy: Policy): (ix: Index)
    requires Openable(d)
    ensures ix.writer in ix.shelf
  {
    var recovered := Opened(d, policy);
    if !policy.durable then recovered
    else
      var replayed := Replayed(recovered.(replaying := true), d.wal);
      if replayed.truncatePending then
        replayed.(replaying := false, truncatePending := false, healthy := true,
                  disk := replayed.disk.(wal := []))
      else
        replayed.(replaying := false)
  }

  lemma ReplayingIsInvisible(ix: Index)
    ensures var jx := ix.(replaying := true);
            (Consistent(ix) ==> Consistent(jx)) && Contents(jx) == Contents(ix) && Flushable(jx) == Flushable(ix)
  {
  }

  lemma SettledIsInvisible(ix: Index, wal: seq<WalRecord>, healthy: bool)
    ensures var jx := ix.(replaying := false, truncatePending := false, healthy := healthy, disk := ix.disk.(wal := wal));
            && (Usable(ix) <==> Usable(jx)) && (Consistent(ix) <==> Consistent(jx))
            && Contents(jx) == Contents(ix) && Flushable(jx) == Flushable(ix)
  {
  }

  /**
   What reopening gives back: the recovered map overlaid with the log, one live copy
   per key exactly when no record adds a key that is present.
   */
  lemma ReopenOverlays(d: Disk, shelf: Shelf, km: Keymap, policy: Policy)
    requires Preserves(d, shelf, km) && policy.durable && WellLogged(d.wal)
    ensures Openable(d) && Usable(Reopened(d, policy))
    ensures Contents(Reopened(d, policy)) == Overlay(View(shelf, km), d.wal)
    ensures Consistent(Reopened(d, policy)) <==> AddsAreFresh(View(shelf, km), d.wal)
  {
    OpensTo(d, shelf, km, policy);
    var recovered := Opened(d, policy);
    ReplayingIsInvisible(recovered);
    var start := recovered.(replaying := true);
    ReplayOverlays(start, d.wal);
    var replayed := Replayed(start, d.wal);
    hide Consistent, Usable, Contents, Flushable, Preserves, View, Opened, Replayed;
    SettledIsInvisible(replayed, [], true);
    ReplayKeepsLog(start, d.wal);
    SettledIsInvisible(replayed, d.wal, replayed.healthy);
  }

  /** While replaying, nothing is logged and nothing truncated. */
  lemma {:induction false} ReplayKeepsLog(ix: Index, wal: seq<WalRecord>)
    requires ix.writer in ix.shelf && ix.replaying
    ensures var jx := Replayed(ix, wal);
            jx.replaying && jx.disk.wal == ix.disk.wal && jx.policy == ix.policy && jx.healthy == ix.healthy
  {
    if wal != [] {
      ReplayKeepsLog(ix, wal[..|wal| - 1]);
      AppliedKeepsLog(Replayed(ix, wal[..|wal| - 1]), wal[|wal| - 1]);
    }
  }

  lemma AppliedKeepsLog(ix: Index, r: WalRecord)
    requires ix.writer in ix.shelf && ix.replaying
    ensures var jx := Applied(ix, r);
            jx.replaying && jx.disk.wal == ix.disk.wal && jx.policy == ix.policy && jx.healthy == ix.healthy
  {
    match r {
      case Added(k, doc) =>
      case Updated(k, doc) =>
        if doc.terms != 0 {
          var sx := Superseding(ix, k, doc);
          assert sx.replaying && sx.disk.wal == ix.disk.wal && sx.policy == ix.policy && sx.healthy == ix.healthy;
          if k in ix.keymap { TombstonedFields(sx, ix.keymap[k]); }
        }
      case Deleted(k) =>
        if k in ix.keymap { TombstonedFields(ix, ix.keymap[k]); }
    }
  }

  // -------------------------------------------- the log after it was replayed

  /** Whether an automatic flush happened while the log was replayed. */
  predicate FlushedInReplay(d: Disk, policy: Policy)
    requires Openable(d)
  {
    policy.durable && Replayed(Opened(d, policy).(replaying := true), d.wal).truncatePending
  }

  /** What one replayed record does to the segments, the writer and the deferred truncate. */
  ghost predicate ReplayStep(ix: Index, r: WalRecord, jx: Index) {
    var n := |VolumeAt(ix.shelf, ix.writer).docs|;
    var m := |VolumeAt(jx.shelf, jx.writer).docs|;
    if jx.order == ix.order then
      && jx.truncatePending == ix.truncatePending
      && m == (if r.Deleted? then n else n + 1)
      && (ix.policy.flushAfter > 0 && !r.Deleted? ==> m < ix.policy.flushAfter)
    else
      && jx.truncatePending && !r.Deleted? && m == 0
      && n + 1 >= ix.policy.flushAfter > 0
  }

  lemma AppliedReplayStep(ix: Index, r: WalRecord)
    requires Usable(ix) && Loggable(r) && ix.replaying && ix.policy.durable
    ensures ReplayStep(ix, r, Applied(ix, r))
  {
    match r {
      case Added(k, doc) =>
        AddReplayStep(ix, k, doc);
      case Updated(k, doc) =>
        var sx := Superseding(ix, k, doc);
        assert Update(ix, k, doc) == if k in ix.keymap then Tombstoned(sx, ix.keymap[k]) else sx;
        SupersedingReplayStep(ix, k, doc);
      case Deleted(k) =>
        if k in ix.keymap {
          TombstonedFields(ix, ix.keymap[k]);
        }
    }
  }

  lemma AddReplayStep(ix: Index, k: Key, doc: Document)
    requires Structured(ix) && ix.replaying && ix.policy.durable && doc.terms > 0
    ensures ReplayStep(ix, Added(k, doc), Add(ix, k, doc))
  {
    var stored := Stored(ix, k, doc);
    if AutoFlushed(stored) != stored {
      assert |AutoFlushed(stored).order| == |ix.order| + 1;
    }
  }

  lemma SupersedingReplayStep(ix: Index, k: Key, doc: Document)
    requires Structured(ix) && ix.replaying && ix.policy.durable
    ensures ReplayStep(ix, Updated(k, doc), Superseding(ix, k, doc))
    ensures forall loc: Loc :: ReplayStep(ix, Updated(k, doc), Tombstoned(Superseding(ix, k, doc), loc))
  {
    var stored := Stored(ix, k, doc);
    if AutoFlushed(stored) != stored {
      assert |AutoFlushed(stored).order| == |ix.order| + 1;
    }
  }

  /** A replay that never flushed has only taken logged keys out of the flushed part. */
  lemma {:induction false} ReplayWithoutFlush(ix: Index, wal: seq<WalRecord>)
    requires Usable(ix) && WellLogged(wal) && ix.replaying && ix.policy.durable && !ix.truncatePending
    ensures var jx := Replayed(ix, wal);
            !jx.truncatePending ==>
              && jx.order == ix.order
              && AgreeOff(Flushable(jx), Flushable(ix), KeysIn(wal))
              && Flushable(jx).Keys <= Flushable(ix).Keys
  {
    if wal != [] {
      var n := |wal| - 1;
      var mx, r := Replayed(ix, wal[..n]), wal[n];
      ReplayWithoutFlush(ix, wal[..n]);
      ReplayOverlays(ix, wal[..n]);
      ReplayKeepsLog(ix, wal[..n]);
      AppliedReplayStep(mx, r);
      AppliedFlushable(mx, r);
      KeysInPrefix(wal);
    }
  }

  /** How far a replay of `puts` document records has filled the writer. */
  ghost predicate Filled(ix: Index, puts: nat) {
    var n, limit := |VolumeAt(ix.shelf, ix.writer).docs|, ix.policy.flushAfter;
    if ix.truncatePending then n == 0 && puts == limit > 0
    else n == puts && (limit > 0 ==> n < limit)
  }

  lemma FilledStep(ix: Index, r: WalRecord, jx: Index, puts: nat)
    requires Filled(ix, puts) && ReplayStep(ix, r, jx) && jx.policy == ix.policy
    requires ix.policy.flushAfter > 0 ==> puts + (if r.Deleted? then 0 else 1) <= ix.policy.flushAfter
    ensures Filled(jx, puts + (if r.Deleted? then 0 else 1))
  {
  }

  /** With at most one writer's worth of records, a flush can only come last. */
  lemma {:induction false} ReplayFills(ix: Index, wal: seq<WalRecord>)
    requires Usable(ix) && WellLogged(wal) && ix.replaying && ix.policy.durable
    requires Filled(ix, 0)
    requires ix.policy.flushAfter > 0 ==> Puts(wal) <= ix.policy.flushAfter
    ensures Filled(Replayed(ix, wal), Puts(wal))
  {
    if wal != [] {
      var n := |wal| - 1;
      var mx, r := Replayed(ix, wal[..n]), wal[n];
      hide Consistent, Usable, Applied, Contents, Overlay, AddsAreFresh, Loggable, ReplayStep, Filled;
      ReplayFills(ix, wal[..n]);
      ReplayOverlays(ix, wal[..n]);
      ReplayKeepsLog(ix, wal[..n]);
      AppliedReplayStep(mx, r);
      AppliedKeepsLog(mx, r);
      FilledStep(mx, r, Applied(mx, r), Puts(wal[..n]));
    }
  }

  /** Nothing of the index would be lost in a crash when the writer holds no entry. */
  lemma FlushableIsAll(ix: Index)
    requires Usable(ix)
    ensures Flushable(ix) == Contents(ix) <==> forall k :: k in ix.keymap ==> ix.keymap[k].generation != ix.writer
  {
    hide Usable, Flushable, Contents;
    forall k
      ensures k in Contents(ix) <==> k in ix.keymap
      ensures k in Flushable(ix) <==> k in ix.keymap && ix.keymap[k].generation != ix.writer
      ensures k in Flushable(ix) ==> Flushable(ix)[k] == Contents(ix)[k]
    {
      FlushableAt(ix, k);
    }
  }

  lemma FlushableAt(ix: Index, k: Key)
    requires Usable(ix)
    ensures k in Contents(ix) <==> k in ix.keymap
    ensures k in Flushable(ix) <==> k in ix.keymap && ix.keymap[k].generation != ix.writer
    ensures k in Flushable(ix) ==> Flushable(ix)[k] == Contents(ix)[k]
  {
    if k in ix.keymap {
      EntryIsLive(ix.shelf, ix.keymap, k);
      assert ix.keymap[k].generation in Elements(ix.order) + {ix.writer};
    }
  }

  lemma ReopenedFields(d: Disk, policy: Policy)
    requires Openable(d) && policy.durable
    ensures var start := Opened(d, policy).(replaying := true);
            var replayed, ix := Replayed(start, d.wal), Reopened(d, policy);
            && start.replaying && start.policy == policy && !start.truncatePending && start.healthy && start.disk.wal == d.wal
            && ix.shelf == replayed.shelf && ix.writer == replayed.writer && ix.keymap == replayed.keymap
            && ix.policy == policy && !ix.replaying && !ix.truncatePending && ix.healthy
            && ix.disk.wal == (if FlushedInReplay(d, policy) then [] else d.wal)
            && Flushable(ix) == Flushable(replayed) && Contents(ix) == Contents(replayed)
            && Filled(start, 0)
  {
    ReplayKeepsLog(Opened(d, policy).(replaying := true), d.wal);
  }

  /**
   A crash between operations in durable mode: reopening, even with another flush
   threshold, gives back exactly the completed operations, one live copy each.
   */
  lemma CrashBetweenOperations(ix: Index, policy: Policy)
    requires Durable(ix) && ix.healthy && policy.durable
    ensures Openable(ix.disk) && Consistent(Reopened(ix.disk, policy))
    ensures Contents(Reopened(ix.disk, policy)) == Contents(ix)
  {
    SameSegmentsPreserve(ix.disk, ix);
    ReopenOverlays(ix.disk, DiskPart(ix), DiskKeymap(ix), policy);
  }

  /**
   Whether a reopened index could survive a second crash: always when the replay did
   not flush; otherwise exactly when no entry was left in the writer, because the
   deferred truncation discards the records replayed after the last flush as well.
   */
  lemma CoveredAfterReplay(d: Disk, shelf: Shelf, km: Keymap, policy: Policy)
    requires Preserves(d, shelf, km) && policy.durable
    requires WellLogged(d.wal) && AddsAreFresh(View(shelf, km), d.wal)
    ensures Openable(d)
    ensures var jx := Reopened(d, policy);
            Covered(jx) <==> !FlushedInReplay(d, policy) ||
                             (forall k :: k in jx.keymap ==> jx.keymap[k].generation != jx.writer)
  {
    ReopenOverlays(d, shelf, km, policy);
    OpensTo(d, shelf, km, policy);
    ReopenedFields(d, policy);
    var jx, start := Reopened(d, policy), Opened(d, policy).(replaying := true);
    var f := View(shelf, km);
    FlushableIsAll(jx);
    ReplayingIsInvisible(Opened(d, policy));
    hide Consistent, Usable, Flushable, Contents, Opened, Reopened, Replayed, Preserves, View, Bounded;
    if !FlushedInReplay(d, policy) {
      ReplayWithoutFlush(start, d.wal);
      ReplayIsIdempotent(f, Flushable(jx), d.wal);
      FreshnessShrinks(Flushable(jx), f, d.wal);
    }
  }

  /** With an unchanged threshold, or one the log does not exceed, crashes can repeat. */
  lemma ReopenedIsDurable(d: Disk, shelf: Shelf, km: Keymap, policy: Policy)
    requires Preserves(d, shelf, km) && policy.durable
    requires WellLogged(d.wal) && AddsAreFresh(View(shelf, km), d.wal)
    requires policy.flushAfter > 0 ==> Puts(d.wal) <= policy.flushAfter
    ensures Openable(d) && Durable(Reopened(d, policy)) && Reopened(d, policy).healthy
    ensures Contents(Reopened(d, policy)) == Overlay(View(shelf, km), d.wal)
    ensures Reopened(d, policy).policy == policy
  {
    ReopenOverlays(d, shelf, km, policy);
    CoveredAfterReplay(d, shelf, km, policy);
    OpensTo(d, shelf, km, policy);
    ReopenedFields(d, policy);
    var jx, start := Reopened(d, policy), Opened(d, policy).(replaying := true);
    ReplayingIsInvisible(Opened(d, policy));
    ReplayFills(start, d.wal);
    if FlushedInReplay(d, policy) {
      EmptyWriterHoldsNothing(jx);
    }
  }

  /** Each crash between operations leaves a directory the two lemmas above apply to. */
  lemma DurableDisk(ix: Index)
    requires Durable(ix) && ix.healthy
    ensures Preserves(ix.disk, DiskPart(ix), DiskKeymap(ix))
    ensures WellLogged(ix.disk.wal) && AddsAreFresh(View(DiskPart(ix), DiskKeymap(ix)), ix.disk.wal)
    ensures Overlay(View(DiskPart(ix), DiskKeymap(ix)), ix.disk.wal) == Contents(ix)
  {
    SameSegmentsPreserve(ix.disk, ix);
  }

  lemma EmptyWriterHoldsNothing(ix: Index)
    requires Usable(ix) && VolumeAt(ix.shelf, ix.writer).docs == []
    ensures forall k :: k in ix.keymap ==> ix.keymap[k].generation != ix.writer
  {
    forall k | k in ix.keymap ensures ix.keymap[k].generation != ix.writer {
      EntryIsLive(ix.shelf, ix.keymap, k);
    }
  }
}
