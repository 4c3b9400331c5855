/**
 The steps of durable mode when stray copies may arise: what the index holds is still what
 the commands say, whichever window of flush() a crash strikes.
 */
module LooseRuns {
  import opened Sequences
  import opened SegmentModel
  import opened Shelves
  import opened Rebuild
  import opened Operations
  import opened Mutations
  import opened Compaction
  import opened Recovery
  import opened Durability
  import opened Reopening
  import opened CrashSafety
  import opened Runs
  import opened ReplayedLog
  import opened StaleCopy

  /** The invariant of durable mode when strays are allowed; an unhealthy log covers nothing. */
  ghost predicate Lasting(ix: Index) {
    && Usable(ix)
    && ix.policy.durable && !ix.replaying && !ix.truncatePending
    && WellLogged(ix.disk.wal) && (ix.healthy ==> Overlay(Flushable(ix), ix.disk.wal) == Contents(ix))
    && Bounded(ix)
  }

  lemma DurableIsLasting(ix: Index)
    requires Durable(ix)
    ensures Lasting(ix)
  {
  }

  // ------------------------------------------------------------------- commands

  lemma LastingCommand(ix: Index, r: WalRecord)
    requires Lasting(ix) && ix.healthy && ValidKey(r.key) && Recordable(r)
    ensures Lasting(Applied(ix, r)) && Applied(ix, r).healthy
    ensures Contents(Applied(ix, r)) == Effect(Contents(ix), Command(r))
  {
    if Refused(r) {
      assert Applied(ix, r) == ix;
    } else if r.Deleted? && r.key !in ix.keymap {
      UnknownIsKept(ix, r.key);
    } else {
      hide Lasting, Applied, Contents;
      LastingWrite(ix, r);
    }
  }

  lemma UnknownIsKept(ix: Index, k: Key)
    requires Usable(ix) && k !in ix.keymap
    ensures ix.writer in ix.shelf && Delete(ix, k) == ix && Contents(ix) - {k} == Contents(ix)
  {
    ContentsKeys(ix);
  }

  lemma LastingWrite(ix: Index, r: WalRecord)
    requires Lasting(ix) && ix.healthy && Loggable(r) && Recordable(r) && (r.Deleted? ==> r.key in ix.keymap)
    ensures Lasting(Applied(ix, r)) && Applied(ix, r).healthy
    ensures Contents(Applied(ix, r)) == Written(Contents(ix), r)
  {
    var jx := Applied(ix, r);
    AppliedWrites(ix, r);
    AppliedLogStep(ix, r);
    AppliedFlushable(ix, r);
    BoundedStep(ix, r);
    hide Applied, Usable, Contents, Flushable, Bounded, Overlay, VolumeAt, Written;
    StillCovers(ix, r, jx);
  }

  lemma StillCovers(ix: Index, r: WalRecord, jx: Index)
    requires Loggable(r) && Recordable(r) && ix.healthy && LogStep(ix, r, jx)
    requires WellLogged(ix.disk.wal) && Overlay(Flushable(ix), ix.disk.wal) == Contents(ix)
    requires Contents(jx) == Written(Contents(ix), r)
    requires Flushable(jx) == if jx.order == ix.order then Flushable(ix) - {r.key} else Contents(jx)
    ensures jx.healthy && WellLogged(jx.disk.wal) && Overlay(Flushable(jx), jx.disk.wal) == Contents(jx)
  {
    hide Contents, Flushable, Overlay, VolumeAt, Loggable;
    if jx.order == ix.order {
      OverlayAppended(Flushable(ix), ix.disk.wal, r);
    } else {
      OverlaySingle(Contents(ix), r);
      NothingLogged(Contents(jx));
    }
  }

  /** A flush heals: whatever was not logged survives from then on. */
  lemma LastingFlush(ix: Index)
    requires Lasting(ix)
    ensures Lasting(Flushed(ix)) && Contents(Flushed(ix)) == Contents(ix)
    ensures ix.healthy || ix.shelf[ix.writer].docs != [] ==> Flushed(ix).healthy
  {
    FlushPreserves(ix);
    if ix.shelf[ix.writer].docs != [] {
      NothingLogged(Contents(ix));
    }
  }

  // ----------------------------------------------------------------- compactions

  lemma CompactedIsUsable(ix: Index, gens: seq<nat>)
    requires Usable(ix) && Compactable(ix, gens)
    ensures Usable(Compacted(ix, gens))
  {
    assert ix.next !in ix.shelf && forall g :: g in gens ==> g in ix.shelf;
    CompactedIsStructured(ix, gens);
    CompactedIsMirrored(ix, gens);
    CompactionIsSound(ix.shelf, ix.keymap, gens, ix.next);
  }

  /** An entry that does not name the writer still does not. */
  lemma StaysFlushed(ix: Index, gens: seq<nat>, k: Key)
    requires Usable(ix) && Compactable(ix, gens)
    requires k in ix.keymap ==> ix.keymap[k].generation != ix.writer
    ensures k in Compacted(ix, gens).keymap ==> Compacted(ix, gens).keymap[k].generation != ix.writer
  {
    assert ix.next !in ix.shelf && (forall g :: g in gens ==> g in ix.shelf) && ix.writer in ix.shelf;
    CompactedShows(ix.shelf, ix.keymap, gens, ix.next, k);
  }

  /** What is not in the log is on disk. */
  lemma OffTheLog(ix: Index, k: Key)
    requires Lasting(ix) && ix.healthy && k !in KeysIn(ix.disk.wal)
    ensures k in Flushable(ix) <==> k in Contents(ix)
    ensures k in Contents(ix) ==> Flushable(ix)[k] == Contents(ix)[k]
  {
    OverlayTouchesOnlyItsKeys(Flushable(ix), ix.disk.wal);
  }

  lemma CompactionCovers(ix: Index, gens: seq<nat>)
    requires Lasting(ix) && ix.healthy && Compactable(ix, gens) && MergesCurrentCopies(ix, gens)
    ensures AgreeOff(Flushable(Compacted(ix, gens)), Flushable(ix), KeysIn(ix.disk.wal))
    ensures Contents(Compacted(ix, gens)) == Contents(ix) && Usable(Compacted(ix, gens))
  {
    var jx := Compacted(ix, gens);
    CompactionShowsSame(ix, gens);
    CompactedIsUsable(ix, gens);
    hide Usable, Flushable, Contents, Compactable, Bounded, MergesCurrentCopies, Overlay;
    hide Lasting, Compacted;
    forall k | k !in KeysIn(ix.disk.wal)
      ensures k in Flushable(jx) <==> k in Flushable(ix)
      ensures k in Flushable(ix) ==> Flushable(jx)[k] == Flushable(ix)[k]
    {
      CompactionCoversAt(ix, gens, k);
    }
  }

  lemma CompactionCoversAt(ix: Index, gens: seq<nat>, k: Key)
    requires Lasting(ix) && ix.healthy && Compactable(ix, gens) && k !in KeysIn(ix.disk.wal)
    requires Contents(Compacted(ix, gens)) == Contents(ix) && Usable(Compacted(ix, gens))
    ensures var jx := Compacted(ix, gens);
            (k in Flushable(jx) <==> k in Flushable(ix)) && (k in Flushable(ix) ==> Flushable(jx)[k] == Flushable(ix)[k])
  {
    OffTheLog(ix, k);
    FlushableAt(ix, k);
    FlushableAt(Compacted(ix, gens), k);
    hide Usable, Flushable, Contents, Compactable, Bounded, Overlay;
    StaysFlushed(ix, gens, k);
  }

  lemma LastingCompact(ix: Index, gens: seq<nat>)
    requires Lasting(ix) && ix.healthy && Compactable(ix, gens) && MergesCurrentCopies(ix, gens)
    ensures Lasting(Compacted(ix, gens)) && Compacted(ix, gens).healthy
    ensures Contents(Compacted(ix, gens)) == Contents(ix)
  {
    CompactionCovers(ix, gens);
    ReplayIsIdempotent(Flushable(ix), Flushable(Compacted(ix, gens)), ix.disk.wal);
    CompactionKeepsWriter(ix, gens);
  }

  lemma CompactionKeepsWriter(ix: Index, gens: seq<nat>)
    requires Usable(ix) && Compactable(ix, gens)
    ensures VolumeAt(Compacted(ix, gens).shelf, ix.writer) == VolumeAt(ix.shelf, ix.writer)
  {
    assert ix.next !in ix.shelf && ix.writer !in gens;
  }

  // -------------------------------------------------------------------- reopening

  /** An index that was just opened has nothing in its writer. */
  lemma OpenedIsFlushed(d: Disk, policy: Policy)
    requires Openable(d) && Usable(Opened(d, policy))
    ensures Flushable(Opened(d, policy)) == Contents(Opened(d, policy))
  {
    var ix := Opened(d, policy);
    OpenedAfresh(d, policy);
    hide Opened, Usable, Flushable, Contents;
    EmptyWriterHoldsNothing(ix);
    FlushableIsAll(ix);
  }

  /** How open() ends once the log was replayed. */
  function Ended(jx: Index): Index {
    if jx.truncatePending then
      jx.(replaying := false, truncatePending := false, healthy := true, disk := jx.disk.(wal := []))
    else jx.(replaying := false)
  }

  /** An index whose log is about to be replayed, with nothing in its writer. */
  ghost predicate Starts(start: Index, wal: seq<WalRecord>) {
    && start.writer in start.shelf
    && Usable(start) && start.replaying && start.policy.durable && !start.truncatePending && start.healthy
    && start.disk.wal == wal && WellLogged(wal) && Leftover(start, []) && Flushable(start) == Contents(start)
  }

  lemma EndedIs(start: Index, wal: seq<WalRecord>)
    requires Starts(start, wal)
    ensures var r, jx := Replayed(start, wal), Ended(Replayed(start, wal));
            && Usable(jx) && Contents(jx) == Overlay(Contents(start), wal) && Flushable(jx) == Flushable(r)
            && (Consistent(jx) <==> Consistent(start) && AddsAreFresh(Contents(start), wal))
            && jx.policy == start.policy && !jx.replaying && !jx.truncatePending && jx.healthy
            && jx.disk.wal == (if r.truncatePending then [] else wal)
            && jx.keymap == r.keymap && jx.writer == r.writer && jx.shelf == r.shelf && r.policy == start.policy
  {
    hide Replayed, Overlay, Contents, Flushable, AddsAreFresh, Leftover, Consistent;
    assert start.writer in start.shelf;
    hide Usable;
    ReplayOverlays(start, wal);
    ReplayKeepsLog(start, wal);
    SettledIsInvisible(Replayed(start, wal), [], true);
    SettledIsInvisible(Replayed(start, wal), wal, Replayed(start, wal).healthy);
  }

  lemma EndedIsBounded(start: Index, wal: seq<WalRecord>)
    requires Starts(start, wal)
    ensures Bounded(Ended(Replayed(start, wal))) && Leftover(Replayed(start, wal), wal)
  {
    EndedIs(start, wal);
    hide Replayed, Overlay, Tail, Usable, WellLogged, Contents, Flushable;
    ReplayLeaves(start, wal);
    if start.policy.flushAfter > 0 {
      Fills(Puts(wal), start.policy.flushAfter);
    }
    NoPuts();
  }

  /** The replay overlays the log on what was recovered; it lasts unless it flushed too soon. */
  lemma EndedLasts(start: Index, wal: seq<WalRecord>)
    requires Starts(start, wal) && SurvivesReplay(wal, start.policy.flushAfter)
    ensures Lasting(Ended(Replayed(start, wal))) && Ended(Replayed(start, wal)).healthy
  {
    hide Replayed, Overlay, Tail, Usable, Contents, Flushable, Bounded, AddsAreFresh, Consistent;
    EndedIs(start, wal);
    EndedIsBounded(start, wal);
    if Replayed(start, wal).truncatePending {
      WriterIsFlushed(start, wal);
    } else {
      WriterIsLogged(start, wal);
    }
  }

  lemma WriterIsFlushed(start: Index, wal: seq<WalRecord>)
    requires Starts(start, wal) && SurvivesReplay(wal, start.policy.flushAfter) && Replayed(start, wal).truncatePending
    ensures var jx := Ended(Replayed(start, wal)); WellLogged(jx.disk.wal) && Overlay(Flushable(jx), jx.disk.wal) == Contents(jx)
  {
    hide Replayed, Overlay, Tail, Usable, Contents, Flushable, Bounded, AddsAreFresh, Consistent, InWriter;
    EndedIs(start, wal);
    EndedIsBounded(start, wal);
    var jx, kept := Ended(Replayed(start, wal)), Overlay(map[], Tail(wal, start.policy.flushAfter));
    forall k ensures InWriter(jx, k) <==> k in kept {
      SameWriter(Replayed(start, wal), jx, k);
    }
    FlushableIsRest(jx, kept);
    assert kept.Keys == {} && Contents(jx) - {} == Contents(jx);
    NothingLogged(Contents(jx));
  }

  lemma SameWriter(a: Index, b: Index, k: Key)
    requires a.keymap == b.keymap && a.writer == b.writer
    ensures InWriter(a, k) <==> InWriter(b, k)
  {
  }

  lemma WriterIsLogged(start: Index, wal: seq<WalRecord>)
    requires Starts(start, wal) && !Replayed(start, wal).truncatePending
    ensures var jx := Ended(Replayed(start, wal)); WellLogged(jx.disk.wal) && Overlay(Flushable(jx), jx.disk.wal) == Contents(jx)
  {
    hide Replayed, Overlay, Usable, Contents, Flushable, AddsAreFresh, Consistent, Leftover, AgreeOff, KeysIn;
    EndedIs(start, wal);
    ReplayWithoutFlush(start, wal);
    ReplayIsIdempotent(Contents(start), Flushable(Ended(Replayed(start, wal))), wal);
  }

  lemma OpenedStarts(d: Disk, policy: Policy)
    requires Openable(d) && Usable(Opened(d, policy)) && policy.durable && WellLogged(d.wal)
    ensures var ix, start := Opened(d, policy), Opened(d, policy).(replaying := true);
            && Starts(start, d.wal) && start.policy == policy && Contents(start) == Contents(ix)
            && (Consistent(start) <==> Consistent(ix))
            && start.writer in start.shelf && Reopened(d, policy) == Ended(Replayed(start, d.wal))
  {
    StartsEmpty(d, policy);
    OpenedIsFlushed(d, policy);
    StartHasWriter(d, policy);
    hide Replayed, Contents, Flushable, Usable, View;
    assert Opened(d, policy).healthy && !Opened(d, policy).truncatePending && Opened(d, policy).disk.wal == d.wal;
  }

  lemma ReopenedLasts(d: Disk, policy: Policy)
    requires Openable(d) && Usable(Opened(d, policy)) && policy.durable && WellLogged(d.wal)
    ensures Usable(Reopened(d, policy))
    ensures Contents(Reopened(d, policy)) == Overlay(Contents(Opened(d, policy)), d.wal)
    ensures Consistent(Reopened(d, policy)) <==>
            Consistent(Opened(d, policy)) && AddsAreFresh(Contents(Opened(d, policy)), d.wal)
    ensures SurvivesReplay(d.wal, policy.flushAfter) ==> Lasting(Reopened(d, policy)) && Reopened(d, policy).healthy
  {
    OpenedStarts(d, policy);
    hide Opened, Reopened, Replayed, Overlay, Contents, Usable, Consistent, AddsAreFresh, Starts, Lasting, Ended;
    EndedIs(Opened(d, policy).(replaying := true), d.wal);
    if SurvivesReplay(d.wal, policy.flushAfter) {
      EndedLasts(Opened(d, policy).(replaying := true), d.wal);
    }
  }

  lemma NoPuts()
    ensures Puts([]) == 0
  {
  }

  // ---------------------------------------------------------------------- crashes

  lemma AtIsUsable(ix: Index, m: Moment)
    requires Lasting(ix) && ix.healthy && Reaches(ix, m)
    requires m.Compacting? && m.swapped ==> MergesCurrentCopies(ix, m.generations)
    ensures Usable(At(ix, m)) && Contents(At(ix, m)) == Contents(ix)
    ensures Overlay(Flushable(At(ix, m)), ix.disk.wal) == Contents(ix)
    ensures m == Flushing(true) ==> Flushable(At(ix, m)) == Contents(ix)
  {
    hide Contents, Flushable, Overlay, Bounded;
    match m {
      case Idle =>
      case Flushing(named) =>
        if named {
          FlushPreserves(ix);
          ReplayOverFinishedState(Flushable(ix), ix.disk.wal);
        }
      case Compacting(gens, swapped) =>
        if swapped {
          hide Lasting;
          LastingCompact(ix, gens);
          hide Compacted;
          SameLog(ix, gens);
          LastingCovers(Compacted(ix, gens));
        }
    }
  }

  lemma SameLog(ix: Index, gens: seq<nat>)
    ensures Compacted(ix, gens).disk.wal == ix.disk.wal && Compacted(ix, gens).healthy == ix.healthy
  {
  }

  lemma LastingCovers(ix: Index)
    requires Lasting(ix) && ix.healthy
    ensures Usable(ix) && Overlay(Flushable(ix), ix.disk.wal) == Contents(ix)
  {
  }

  /** A trusted log: the directory opens to the flushed part, strays and all. */
  lemma CarriesFlushed(d: Disk, jx: Index)
    requires Usable(jx) && SameSegments(d, jx) && !d.marker
    ensures Carries(d, DiskPart(jx), DiskKeymap(jx)) && View(DiskPart(jx), DiskKeymap(jx)) == Flushable(jx)
    ensures Complete(jx.shelf, jx.keymap) ==> Complete(DiskPart(jx), DiskKeymap(jx))
  {
    assert DiskPart(jx).Keys == Elements(jx.order);
    forall g | g in d.order ensures Stores(d, DiskPart(jx), g) {
      assert Stores(d, jx.shelf, g);
    }
    if Complete(jx.shelf, jx.keymap) {
      RetainIsCoherent(jx.shelf, jx.keymap, Elements(jx.order));
    }
  }

  /**
   Under the marker the keymap is rebuilt, which maps each key to its newest live copy on
   disk; that of a key the log does not mention has to be the one callers see.
   */
  ghost predicate RebuildsCurrentCopies(d: Disk, view: map<Key, Document>)
    requires Openable(d) && Stocked(d.order, DiskShelf(d))
  {
    forall k :: ValidKey(k) && k !in KeysIn(d.wal) && Newest(d.order, DiskShelf(d), k).Some? ==>
      k in view && view[k] == EntryAt(DiskShelf(d), LocAt(d.order, Newest(d.order, DiskShelf(d), k).value)).document
  }

  /** What the rebuild shows for a key. */
  lemma RebuiltShows(d: Disk, policy: Policy, k: Key)
    requires Openable(d) && NeedsRebuild(d) && WellStored(DiskShelf(d)) && Stocked(d.order, DiskShelf(d))
    ensures var view, newest := Contents(Opened(d, policy)), Newest(d.order, DiskShelf(d), k);
            && (k in view <==> ValidKey(k) && newest.Some?)
            && (k in view ==> view[k] == EntryAt(DiskShelf(d), LocAt(d.order, newest.value)).document)
  {
    var s, km := DiskShelf(d), RebuiltKeymap(d.order, DiskShelf(d));
    DiskShelfIsStocked(d);
    OpenedShape(d, policy);
    RebuiltIsCoherent(d.order, s);
    EmptyKeeps(RecoveredShelf(d), km, Opened(d, policy).writer);
    hide DiskShelf, Opened, WellStored, Stocked, Newest;
    RebuiltEntry(d.order, s, k);
  }

  lemma RebuiltEntry(order: seq<nat>, s: Shelf, k: Key)
    requires Stocked(order, s) && WellStored(s)
    ensures var km, newest := RebuiltKeymap(order, s), Newest(order, s, k);
            && (k in km <==> ValidKey(k) && newest.Some?)
            && (k in km ==> km[k] == LocAt(order, newest.value) && InRange(s, km[k])
                            && km[k].generation in RebuiltShelf(order, s)
                            && RebuiltShelf(order, s)[km[k].generation].docs == s[km[k].generation].docs)
  {
    var newest := Newest(order, s, k);
    if newest.Some? {
      assert Holds(order, s, newest.value, k);
    }
  }

  /** The disk holds a live copy of every document that is flushed. */
  lemma FlushedIsHeld(d: Disk, jx: Index, k: Key)
    requires Usable(jx) && SameSegments(d, jx) && k in Flushable(jx)
    ensures Openable(d) && Stocked(d.order, DiskShelf(d)) && ValidKey(k) && Newest(d.order, DiskShelf(d), k).Some?
  {
    SameShelf(d, jx);
    var loc := jx.keymap[k];
    FlushableAt(jx, k);
    EntryIsLive(jx.shelf, jx.keymap, k);
    assert loc.generation in jx.order;
    var i :| 0 <= i < |jx.order| && jx.order[i] == loc.generation;
    assert Holds(d.order, DiskShelf(d), Place(i, loc.docid), k);
    assert Before(Place(i, loc.docid), Place(|d.order|, 0));
    assert ValidKey(jx.shelf[loc.generation].docs[loc.docid].key);
  }

  lemma SameShelf(d: Disk, jx: Index)
    requires Usable(jx) && SameSegments(d, jx)
    ensures Openable(d) && DiskShelf(d) == DiskPart(jx) && Stocked(d.order, DiskShelf(d)) && WellStored(DiskShelf(d))
  {
    forall g | g in d.order ensures g in d.files && DiskPart(jx)[g] == Volume(d.files[g], DelOf(d, g)) {
      assert Stores(d, jx.shelf, g);
    }
    DiskShelfIsStocked(d);
  }

  /** Rebuilding under the marker gives back the map exactly when it finds the current copies. */
  lemma RebuildCovers(d: Disk, jx: Index, view: map<Key, Document>, policy: Policy)
    requires Usable(jx) && SameSegments(d, jx) && d.marker && Overlay(Flushable(jx), d.wal) == view
    ensures Openable(d) && Stocked(d.order, DiskShelf(d)) && Consistent(Opened(d, policy))
    ensures Overlay(Contents(Opened(d, policy)), d.wal) == view <==> RebuildsCurrentCopies(d, view)
  {
    SameShelf(d, jx);
    RebuildAlwaysOpens(d, policy);
    var rebuilt := Contents(Opened(d, policy));
    hide Contents, Flushable, Opened, Overlay, DiskShelf, Usable, Newest, Consistent;
    forall k
      ensures k in rebuilt <==> ValidKey(k) && Newest(d.order, DiskShelf(d), k).Some?
      ensures k in rebuilt ==>
                rebuilt[k] == EntryAt(DiskShelf(d), LocAt(d.order, Newest(d.order, DiskShelf(d), k).value)).document
    {
      RebuiltShows(d, policy, k);
    }
    OverlayTouchesOnlyItsKeys(rebuilt, d.wal);
    OverlayTouchesOnlyItsKeys(Flushable(jx), d.wal);
    if RebuildsCurrentCopies(d, view) {
      forall k | k !in KeysIn(d.wal)
        ensures k in rebuilt <==> k in Flushable(jx)
        ensures k in rebuilt ==> rebuilt[k] == Flushable(jx)[k]
      {
        if k in Flushable(jx) {
          FlushedIsHeld(d, jx, k);
        }
      }
      ReplayIsIdempotent(Flushable(jx), rebuilt, d.wal);
    }
  }

  // ------------------------------------------------------------------- single steps

  /**
   Records fit the log; a compaction merges current copies; a crash leaves what it can
   leave, under a marker with the current copies newest, and what was half compacted
   merges current copies; and the replay does not flush too soon for another crash.
   */
  ghost predicate LooselyLogs(ix: Index, step: Step)
    requires ix.writer in ix.shelf
  {
    match step
    case Command(r) => ValidKey(r.key) && Recordable(r)
    case Flush => true
    case Compact(gens) => Compactable(ix, gens) ==> MergesCurrentCopies(ix, gens)
    case Crash(m, d, policy) =>
      && Leaves(ix, m, d) && policy.durable && SurvivesReplay(d.wal, policy.flushAfter)
      && (m.Compacting? && m.swapped ==> MergesCurrentCopies(ix, m.generations))
      && (d.marker ==> Openable(d) && Stocked(d.order, DiskShelf(d)) && RebuildsCurrentCopies(d, Contents(ix)))
  }

  /** Whatever the crash left opens, before the replay, to what the log completes. */
  lemma LeftOpens(ix: Index, m: Moment, d: Disk, policy: Policy, any: Policy)
    requires Lasting(ix) && ix.healthy && LooselyLogs(ix, Crash(m, d, policy))
    ensures Openable(d) && WellLogged(d.wal) && Usable(Opened(d, any))
    ensures Overlay(Contents(Opened(d, any)), d.wal) == Contents(ix)
  {
    var jx := At(ix, m);
    LeftLog(ix, m, d);
    AtIsUsable(ix, m);
    hide Lasting, At, SameSegments, Contents, Flushable, Overlay, RebuildsCurrentCopies, Reaches;
    LogCovers(Flushable(jx), Contents(ix), ix.disk.wal, d.wal, m == Flushing(true));
    if d.marker {
      RebuildCovers(d, jx, Contents(ix), any);
    } else {
      CarriesFlushed(d, jx);
      OpensToCarried(d, DiskPart(jx), DiskKeymap(jx), any);
    }
  }

  lemma LastingReopen(ix: Index, m: Moment, d: Disk, policy: Policy)
    requires Lasting(ix) && ix.healthy && LooselyLogs(ix, Crash(m, d, policy))
    ensures Openable(d) && Lasting(Reopened(d, policy)) && Reopened(d, policy).healthy
    ensures Contents(Reopened(d, policy)) == Contents(ix)
  {
    LeftOpens(ix, m, d, policy, policy);
    hide Opened, Reopened, Lasting, Contents, Leaves;
    ReopenedLasts(d, policy);
  }

  lemma LeftLog(ix: Index, m: Moment, d: Disk)
    requires Lasting(ix) && Leaves(ix, m, d)
    ensures SameSegments(d, At(ix, m)) && WellLogged(d.wal) && WellLogged(ix.disk.wal) && Reaches(ix, m)
    ensures d.wal == ix.disk.wal || (d.wal == [] && m == Flushing(true))
  {
  }

  lemma LogCovers(flushable: map<Key, Document>, view: map<Key, Document>, wal: seq<WalRecord>, left: seq<WalRecord>, all: bool)
    requires Overlay(flushable, wal) == view && (all ==> flushable == view)
    requires left == wal || (left == [] && all)
    ensures Overlay(flushable, left) == view
  {
  }

  lemma LastingNext(ix: Index, step: Step)
    requires Lasting(ix) && ix.healthy && LooselyLogs(ix, step)
    ensures Lasting(Next(ix, step)) && Next(ix, step).healthy
    ensures Contents(Next(ix, step)) == Effect(Contents(ix), step)
  {
    match step {
      case Command(r) =>
        hide Lasting, Applied, Contents;
        LastingCommand(ix, r);
      case Flush =>
        hide Lasting, Flushed, Contents;
        LastingFlush(ix);
      case Compact(gens) =>
        hide Lasting, Compacted, Contents;
        if Structured(ix) && Compactable(ix, gens) { LastingCompact(ix, gens); }
      case Crash(m, d, policy) =>
        hide Lasting, Reopened, Contents;
        LastingReopen(ix, m, d, policy);
    }
  }
}
