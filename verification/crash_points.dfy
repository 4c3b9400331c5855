/** Durable mode: crashes inside flush() and compact(). */
module CrashPoints {
  import opened Sequences
  import opened SegmentModel
  import opened Operations
  import opened Mutations
  import opened Compaction
  import opened Recovery
  import opened Durability
  import opened CrashSafety

  /** A crash anywhere inside compact() loses no completed operation. */
  lemma DurableCompactionCrash(d: Disk, ix: Index, gens: seq<nat>, policy: Policy)
    requires Durable(ix) && ix.healthy && policy.durable && Compactable(ix, gens)
    requires SameSegments(d, ix) || SameSegments(d, Compacted(ix, gens))
    requires d.wal == ix.disk.wal
    ensures Openable(d) && Consistent(Reopened(d, policy))
    ensures Contents(Reopened(d, policy)) == Contents(ix)
  {
    CompactPreserves(ix, gens);
    var jx := if SameSegments(d, ix) then ix else Compacted(ix, gens);
    SameSegmentsPreserve(d, jx);
    ReopenOverlays(d, DiskPart(jx), DiskKeymap(jx), policy);
  }

  /**
   A crash anywhere inside flush() loses no completed operation: before the manifest
   names the new segment the log is replayed over the old segments, afterwards over
   all of them, to the same map.
   */
  lemma DurableFlushCrash(d: Disk, ix: Index, policy: Policy)
    requires Durable(ix) && ix.healthy && policy.durable && ix.shelf[ix.writer].docs != []
    requires SameSegments(d, ix) || SameSegments(d, Flushed(ix))
    requires d.wal == ix.disk.wal || (SameSegments(d, Flushed(ix)) && d.wal == [])
    ensures Openable(d) && Usable(Reopened(d, policy))
    ensures Contents(Reopened(d, policy)) == Contents(ix)
    ensures SameSegments(d, ix) || d.wal == [] ==> Consistent(Reopened(d, policy))
    ensures !SameSegments(d, ix) && d.wal == ix.disk.wal ==>
              (Consistent(Reopened(d, policy)) <==> AddsAreFresh(Contents(ix), d.wal))
  {
    FlushPreserves(ix);
    var jx := if SameSegments(d, ix) then ix else Flushed(ix);
    SameSegmentsPreserve(d, jx);
    ReopenOverlays(d, DiskPart(jx), DiskKeymap(jx), policy);
    ReplayOverFinishedState(Flushable(ix), ix.disk.wal);
  }

  /** The log first mentions k in an added record. */
  ghost predicate FirstAdded(wal: seq<WalRecord>, k: Key) {
    exists i :: 0 <= i < |wal| && wal[i].Added? && wal[i].key == k && k !in KeysIn(wal[..i])
  }

  /**
   Where part of a log's effect is there already, the log adds no key that is present exactly
   when no present key is first mentioned in an added record.
   */
  lemma FreshExactly(m: map<Key, Document>, f: map<Key, Document>, wal: seq<WalRecord>)
    requires AgreeOff(m, f, KeysIn(wal)) && AddsAreFresh(f, wal)
    ensures AddsAreFresh(m, wal) <==> forall k :: k in m ==> !FirstAdded(wal, k)
  {
    if AddsAreFresh(m, wal) {
      forall k | k in m ensures !FirstAdded(wal, k) {
        if FirstAdded(wal, k) {
          var i :| 0 <= i < |wal| && wal[i].Added? && wal[i].key == k && k !in KeysIn(wal[..i]);
          OverlayTouchesOnlyItsKeys(m, wal[..i]);
        }
      }
    }
    if forall k :: k in m ==> !FirstAdded(wal, k) {
      forall i | 0 <= i < |wal| && wal[i].Added? ensures wal[i].key !in Overlay(m, wal[..i]) {
        FreshWhereTouched(m, f, wal, i);
      }
    }
  }

  /**
   The exact condition for the window between the manifest save and the truncation: the
   replay leaves a second live copy of precisely those keys that the log first mentions
   in an added record and that are still present.
   */
  lemma ReplayDuplicates(ix: Index)
    requires Durable(ix) && ix.healthy
    ensures AddsAreFresh(Contents(ix), ix.disk.wal) <==>
              forall k :: k in Contents(ix) ==> !FirstAdded(ix.disk.wal, k)
  {
    hide Consistent, Contents, Flushable, Bounded;
    OverlayTouchesOnlyItsKeys(Flushable(ix), ix.disk.wal);
    FreshExactly(Contents(ix), Flushable(ix), ix.disk.wal);
  }

  lemma FreshWhereTouched(m: map<Key, Document>, f: map<Key, Document>, wal: seq<WalRecord>, i: nat)
    requires i < |wal| && wal[i].Added?
    requires AgreeOff(m, f, KeysIn(wal)) && AddsAreFresh(f, wal)
    requires wal[i].key in m ==> !FirstAdded(wal, wal[i].key)
    ensures wal[i].key !in Overlay(m, wal[..i])
  {
    var k := wal[i].key;
    if k in KeysIn(wal[..i]) {
      OverlayAbsorbs(m, f, wal[..i], KeysIn(wal));
      assert k !in KeysIn(wal) - KeysIn(wal[..i]);
    } else {
      OverlayTouchesOnlyItsKeys(m, wal[..i]);
    }
  }
}
