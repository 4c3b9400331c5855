/**
 What replaying a log leaves in the live writer, told from the log and the flush threshold
 alone, and so which reopened indexes survive a second crash.
 */
module ReplayedLog {
  import opened Sequences
  import opened SegmentModel
  import opened Shelves
  import opened Operations
  import opened Mutations
  import opened Compaction
  import opened Recovery
  import opened Durability
  import opened Reopening
  import opened CrashSafety
  import opened Runs

  /** The records behind the last one that fills a writer of `after` documents. */
  function Tail(wal: seq<WalRecord>, after: nat): (r: seq<WalRecord>) {
    if wal == [] then []
    else
      var n := |wal| - 1;
      if after > 0 && !wal[n].Deleted? && Puts(wal) % after == 0 then []
      else Tail(wal[..n], after) + [wal[n]]
  }

  lemma TailNext(wal: seq<WalRecord>, r: WalRecord, after: nat)
    ensures Tail(wal + [r], after)
         == if after > 0 && !r.Deleted? && (Puts(wal) + 1) % after == 0 then [] else Tail(wal, after) + [r]
  {
    PutsAppended(wal, r);
    assert (wal + [r])[..|wal|] == wal;
  }

  predicate InWriter(ix: Index, k: Key) {
    k in ix.keymap && ix.keymap[k].generation == ix.writer
  }

  /** What a record does to the keymap, and which writer goes on after it. */
  lemma AppliedKeymap(ix: Index, r: WalRecord)
    requires Usable(ix) && Loggable(r)
    ensures var jx := Applied(ix, r);
            && jx.keymap == (if r.Deleted? then ix.keymap - {r.key} else ix.keymap[r.key := End(ix.shelf, ix.writer)])
            && jx.writer == (if jx.order == ix.order then ix.writer else ix.next)
  {
    match r {
      case Added(k, doc) =>
        StoredIs(ix, k, doc);
        StoredIsStructured(ix, k, doc);
        LoggedFields(Stored(ix, k, doc), r);
        LoggedKeeps(Stored(ix, k, doc), r);
        AutoFlushOrder(Logged(Stored(ix, k, doc), r));
      case Updated(k, doc) =>
        var sx := Superseding(ix, k, doc);
        assert Update(ix, k, doc) == if k in ix.keymap then Tombstoned(sx, ix.keymap[k]) else sx;
        StoredIs(ix, k, doc);
        StoredIsStructured(ix, k, doc);
        AutoFlushOrder(Stored(ix, k, doc));
        LoggedFields(AutoFlushed(Stored(ix, k, doc)), r);
        if k in ix.keymap {
          TombstonedFields(sx, ix.keymap[k]);
        }
      case Deleted(k) =>
        DeleteForgets(ix, k);
        if k in ix.keymap {
          TombstonedFields(ix, ix.keymap[k]);
          LoggedFields(Forgotten(Tombstoned(ix, ix.keymap[k]), k), r);
        }
    }
  }

  /** Entries name generations handed out already. */
  lemma EntriesAreOld(ix: Index, k: Key)
    requires Usable(ix) && k in ix.keymap
    ensures ix.keymap[k].generation < ix.next && ix.writer < ix.next
  {
    EntryIsLive(ix.shelf, ix.keymap, k);
  }

  lemma Fills(puts: nat, after: nat)
    requires after > 0
    ensures puts % after + 1 <= after
    ensures (puts + 1) % after == if puts % after + 1 == after then 0 else puts % after + 1
    ensures puts < after ==> puts % after == puts
    ensures puts % after == 0 && puts > 0 ==> puts >= after
  {
    var q, m := puts / after, puts % after;
    assert puts == q * after + m;
    if m + 1 == after {
      assert puts + 1 == (q + 1) * after;
      Quotient(q + 1, after, 0);
    } else {
      Quotient(q, after, m + 1);
    }
    if puts < after {
      Quotient(0, after, puts);
    }
  }

  lemma Quotient(q: nat, after: nat, m: nat)
    requires m < after
    ensures (q * after + m) % after == m
  {
    var n := q * after + m;
    var e := n / after;
    assert n == e * after + n % after;
    assert (e - q) * after == e * after - q * after;
    Multiple(e - q, after);
  }

  lemma {:induction false} Multiple(x: int, after: nat)
    requires after > 0
    ensures x > 0 ==> x * after >= after
    ensures x < 0 ==> x * after + after <= 0
    decreases if x > 0 then x else 0 - x
  {
    if x > 1 {
      Multiple(x - 1, after);
    } else if x < -1 {
      Multiple(x + 1, after);
    }
  }

  /** How many documents the writer holds, and whether it was ever flushed. */
  ghost predicate Pending(jx: Index, wal: seq<WalRecord>) {
    var after := jx.policy.flushAfter;
    && |VolumeAt(jx.shelf, jx.writer).docs| == (if after == 0 then Puts(wal) else Puts(wal) % after)
    && (jx.truncatePending <==> 0 < after <= Puts(wal))
  }

  /** What the replay of a log leaves, in terms of the log and the threshold. */
  ghost predicate Leftover(jx: Index, wal: seq<WalRecord>) {
    && Pending(jx, wal)
    && forall k :: InWriter(jx, k) <==> k in Overlay(map[], Tail(wal, jx.policy.flushAfter))
  }

  lemma PendingNext(ix: Index, wal: seq<WalRecord>, r: WalRecord)
    requires Usable(ix) && Loggable(r) && ix.replaying && ix.policy.durable && Pending(ix, wal)
    ensures var jx, after := Applied(ix, r), ix.policy.flushAfter;
            && jx.policy == ix.policy && Pending(jx, wal + [r])
            && (jx.order != ix.order <==> after > 0 && !r.Deleted? && (Puts(wal) + 1) % after == 0)
  {
    UsableIsStructured(ix, r);
    CommandPends(ix, r);
    AppliedReplayStep(ix, r);
    hide Usable, Applied, Loggable, VolumeAt, Puts;
    PutsAppended(wal, r);
    if ix.policy.flushAfter > 0 {
      Fills(Puts(wal), ix.policy.flushAfter);
    }
  }

  lemma LeftoverNext(ix: Index, wal: seq<WalRecord>, r: WalRecord)
    requires Usable(ix) && Loggable(r) && ix.replaying && ix.policy.durable && Leftover(ix, wal)
    ensures Leftover(Applied(ix, r), wal + [r])
  {
    hide Applied, Loggable, Tail, Puts, InWriter, Overlay, Pending;
    assert ix.writer in ix.shelf;
    hide Usable;
    var jx, after := Applied(ix, r), ix.policy.flushAfter;
    PendingNext(ix, wal, r);
    TailNext(wal, r, after);
    var kept := Overlay(map[], Tail(wal, after));
    forall k ensures InWriter(jx, k) <==> if jx.order != ix.order then false else k in Written(kept, r) {
      InWriterNext(ix, r, kept, k);
    }
    OverlayNext(Tail(wal, after), r);
  }

  lemma UsableIsStructured(ix: Index, r: WalRecord)
    requires Usable(ix) && Loggable(r)
    ensures Structured(ix) && !Refused(r)
  {
  }

  lemma OverlayNext(wal: seq<WalRecord>, r: WalRecord)
    ensures Overlay(map[], wal + [r]) == Written(Overlay(map[], wal), r)
    ensures Overlay(map[], []) == map[]
  {
    assert (wal + [r])[..|wal|] == wal;
  }

  /** A flush leaves the writer empty; otherwise one key is put into it, or taken away. */
  lemma InWriterNext(ix: Index, r: WalRecord, kept: map<Key, Document>, k: Key)
    requires Usable(ix) && Loggable(r) && (InWriter(ix, k) <==> k in kept)
    ensures var jx := Applied(ix, r);
            InWriter(jx, k) <==> if jx.order != ix.order then false else k in Written(kept, r)
  {
    AppliedKeymap(ix, r);
    hide Usable, Applied, Loggable;
    if k in ix.keymap {
      EntriesAreOld(ix, k);
    }
    WriterIsOld(ix);
  }

  lemma WriterIsOld(ix: Index)
    requires Usable(ix)
    ensures ix.writer < ix.next
  {
  }

  lemma {:induction false} ReplayLeaves(ix: Index, wal: seq<WalRecord>)
    requires Usable(ix) && WellLogged(wal) && ix.replaying && ix.policy.durable && Leftover(ix, [])
    ensures Leftover(Replayed(ix, wal), wal)
  {
    if wal != [] {
      var n := |wal| - 1;
      ReplayLeaves(ix, wal[..n]);
      ReplayOverlays(ix, wal[..n]);
      ReplayKeepsLog(ix, wal[..n]);
      assert wal == wal[..n] + [wal[n]];
      hide Usable, Applied, Leftover, Loggable, Contents;
      LeftoverNext(Replayed(ix, wal[..n]), wal[..n], wal[n]);
    }
  }

  lemma StartsEmpty(d: Disk, policy: Policy)
    requires Openable(d) && Usable(Opened(d, policy))
    ensures var start := Opened(d, policy).(replaying := true);
            && Usable(start) && Leftover(start, []) && start.policy == policy
            && Contents(start) == Contents(Opened(d, policy)) && Flushable(start) == Flushable(Opened(d, policy))
  {
    OpenedAfresh(d, policy);
    var ix := Opened(d, policy);
    hide Opened, View;
    EmptyWriterHoldsNothing(ix);
    ReplayingIsInvisible(ix);
  }

  lemma OpenedAfresh(d: Disk, policy: Policy)
    requires Openable(d)
    ensures var ix := Opened(d, policy);
            VolumeAt(ix.shelf, ix.writer).docs == [] && !ix.truncatePending && ix.policy == policy
  {
  }

  /** The log holds no more than one writer's worth, or nothing that counts after the last flush. */
  predicate SurvivesReplay(wal: seq<WalRecord>, after: nat) {
    after == 0 || Puts(wal) < after || Overlay(map[], Tail(wal, after)) == map[]
  }

  /**
   Whether a reopened index would survive a second crash: exactly when the replay does not
   flush, or when what the log says after the last flush leaves no document -- because the
   deferred truncation discards the records replayed after that flush as well.
   */
  lemma SecondCrash(d: Disk, shelf: Shelf, km: Keymap, policy: Policy)
    requires Preserves(d, shelf, km) && policy.durable
    requires WellLogged(d.wal) && AddsAreFresh(View(shelf, km), d.wal)
    ensures Openable(d)
    ensures Covered(Reopened(d, policy)) <==> SurvivesReplay(d.wal, policy.flushAfter)
  {
    hide Reopened, Usable, Covered, View, Replayed, Overlay, Tail, WellLogged, Consistent, AddsAreFresh;
    CoveredAfterReplay(d, shelf, km, policy);
    ReopenedFields(d, policy);
    OpensTo(d, shelf, km, policy);
    hide Opened, Preserves;
    ConsistentIsUsable(Opened(d, policy));
    ReplayLeft(d, policy);
    var jx, kept := Reopened(d, policy), Overlay(map[], Tail(d.wal, policy.flushAfter));
    if kept == map[] {
      forall k | k in jx.keymap ensures jx.keymap[k].generation != jx.writer {
        assert !InWriter(jx, k);
      }
    } else {
      var k :| k in kept;
      assert InWriter(jx, k);
    }
  }

  lemma ConsistentIsUsable(ix: Index)
    requires Consistent(ix)
    ensures Usable(ix)
  {
  }

  lemma StartHasWriter(d: Disk, policy: Policy)
    requires Openable(d)
    ensures var start := Opened(d, policy).(replaying := true); start.writer in start.shelf && start.replaying
  {
  }

  lemma ReplayLeft(d: Disk, policy: Policy)
    requires Openable(d) && Usable(Opened(d, policy)) && WellLogged(d.wal) && policy.durable
    ensures FlushedInReplay(d, policy) <==> 0 < policy.flushAfter <= Puts(d.wal)
    ensures forall k :: InWriter(Reopened(d, policy), k) <==> k in Overlay(map[], Tail(d.wal, policy.flushAfter))
  {
    hide Reopened, Usable, Replayed, Overlay, Tail, WellLogged, Opened;
    StartsEmpty(d, policy);
    ReopenedFields(d, policy);
    ReplayLeaves(Opened(d, policy).(replaying := true), d.wal);
    StartHasWriter(d, policy);
    ReplayKeepsLog(Opened(d, policy).(replaying := true), d.wal);
  }

  /** What the tail alone leaves: lost in a second crash, if the replay flushed. */
  function Exposed(wal: seq<WalRecord>, after: nat): set<Key> {
    if 0 < after <= Puts(wal) then Overlay(map[], Tail(wal, after)).Keys else {}
  }

  /** What a second crash leaves of the index: everything but those documents. */
  lemma AfterSecondCrash(d: Disk, shelf: Shelf, km: Keymap, policy: Policy, again: Policy)
    requires Preserves(d, shelf, km) && policy.durable && again.durable
    requires WellLogged(d.wal) && AddsAreFresh(View(shelf, km), d.wal)
    ensures Openable(d) && Openable(Reopened(d, policy).disk)
    ensures Contents(Reopened(d, policy)) == Overlay(View(shelf, km), d.wal)
    ensures Contents(Reopened(Reopened(d, policy).disk, again))
         == Overlay(View(shelf, km), d.wal) - Exposed(d.wal, policy.flushAfter)
  {
    hide Opened, Usable, View, Replayed, Overlay, Tail, AddsAreFresh, Contents, Flushable, Coherent;
    ReopenOverlays(d, shelf, km, policy);
    SecondCrash(d, shelf, km, policy);
    ReopenedFields(d, policy);
    OpensTo(d, shelf, km, policy);
    ConsistentIsUsable(Opened(d, policy));
    ReplayLeft(d, policy);
    var jx := Reopened(d, policy);
    ConsistentIsUsable(jx);
    SameSegmentsPreserve(jx.disk, jx);
    hide Reopened, Structured, Mirrored, Preserves;
    FlushableIsDiskView(jx);
    NothingLogged(Flushable(jx));
    ReopenOverlays(jx.disk, DiskPart(jx), DiskKeymap(jx), again);
    if FlushedInReplay(d, policy) {
      FlushableIsRest(jx, Overlay(map[], Tail(d.wal, policy.flushAfter)));
    }
  }

  lemma NothingLogged(view: map<Key, Document>)
    ensures Overlay(view, []) == view && WellLogged([])
  {
  }

  lemma FlushableIsRest(ix: Index, kept: map<Key, Document>)
    requires Usable(ix) && forall k :: InWriter(ix, k) <==> k in kept
    ensures Flushable(ix) == Contents(ix) - kept.Keys
  {
    hide Usable, Flushable, Contents;
    forall k ensures k in Flushable(ix) <==> k in Contents(ix) - kept.Keys
             ensures k in Flushable(ix) ==> Flushable(ix)[k] == Contents(ix)[k]
    {
      FlushableAt(ix, k);
    }
  }

  const TEXT := Document("text", 1)
  const THREE: seq<WalRecord> := [Added("a", TEXT), Added("b", TEXT), Added("c", TEXT)]
  const TWO_AT_A_TIME := Policy(true, 2)

  /**
   Three documents in the log, reopened with a threshold of two: the third is there after
   the first crash and gone after the second.
   */
  lemma ThirdIsLost()
    ensures var d := NEW_DIRECTORY.(wal := THREE);
            && Openable(d) && Openable(Reopened(d, TWO_AT_A_TIME).disk)
            && Contents(Reopened(d, TWO_AT_A_TIME)).Keys == {"a", "b", "c"}
            && Contents(Reopened(Reopened(d, TWO_AT_A_TIME).disk, TWO_AT_A_TIME)).Keys == {"a", "b"}
  {
    var d := NEW_DIRECTORY.(wal := THREE);
    ThreeOverlaid();
    hide Reopened, Contents, Overlay, Tail;
    assert Preserves(d, map[], map[]) && View(map[], map[]) == map[];
    AfterSecondCrash(d, map[], map[], TWO_AT_A_TIME, TWO_AT_A_TIME);
  }

  lemma ThreeOverlaid()
    ensures Overlay(map[], THREE).Keys == {"a", "b", "c"} && Exposed(THREE, 2) == {"c"}
    ensures WellLogged(THREE) && AddsAreFresh(map[], THREE)
  {
    hide Overlay, Tail, Puts;
    var a, b, c := THREE[0], THREE[1], THREE[2];
    assert [] + [a] == [a] && [a] + [b] == [a, b] && [a, b] + [c] == THREE;
    NothingYet();
    ThreeSteps([], a, map[], 0, []);
    ThreeSteps([a], b, map["a" := TEXT], 1, [a]);
    ThreeSteps([a, b], c, map["a" := TEXT, "b" := TEXT], 2, []);
    OverlayNext([], c);
    assert [] + [c] == [c];
    forall i | 0 <= i < |THREE| ensures THREE[i].key !in Overlay(map[], THREE[..i]) {
      assert THREE[..i] == if i == 0 then [] else if i == 1 then [a] else [a, b];
    }
  }

  lemma NothingYet()
    ensures Overlay(map[], []) == map[] && Puts([]) == 0 && Tail([], 2) == []
  {
  }

  lemma ThreeSteps(wal: seq<WalRecord>, r: WalRecord, view: map<Key, Document>, puts: nat, tail: seq<WalRecord>)
    requires r.Added? && Overlay(map[], wal) == view && Puts(wal) == puts && Tail(wal, 2) == tail
    ensures Overlay(map[], wal + [r]) == view[r.key := r.document] && Puts(wal + [r]) == puts + 1
    ensures Tail(wal + [r], 2) == if (puts + 1) % 2 == 0 then [] else tail + [r]
  {
    OverlayNext(wal, r);
    PutsAppended(wal, r);
    TailNext(wal, r, 2);
  }
}
