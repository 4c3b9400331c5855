/**
 Whole runs of durable mode, with crashes everywhere: between operations, anywhere inside
 flush() and compact(), and inside the open() that follows -- before the replay of the log or
 in it -- any number of times.
 */
module Restarts {
  import opened Sequences
  import opened SegmentModel
  import opened Shelves
  import opened Operations
  import opened Mutations
  import opened Compaction
  import opened Recovery
  import opened RecoverySteps
  import opened Durability
  import opened CrashSafety
  import opened Runs
  import opened ReplayedLog
  import StaleCopy
  import opened LooseRuns
  import opened ReplayCrash
  import opened CommandSteps

  /**
   An open() that a crash ended, and what it left: while it swept, rebuilt, saved and began,
   or while it replayed record `at`.
   */
  datatype Opening =
    | Recovering(left: Disk)
    | Replaying(policy: Policy, at: nat, left: Disk)

  /**
   A step of the run; or a crash, between operations or inside one, then some openings that
   crash in turn, and one that does not.
   */
  datatype Event =
    | Done(step: Step)
    | Restarted(moment: Moment, left: Disk, openings: seq<Opening>, policy: Policy)
    | Broken(record: WalRecord, left: Disk, openings: seq<Opening>, policy: Policy)

  function Last(left: Disk, openings: seq<Opening>): Disk {
    if openings == [] then left else openings[|openings| - 1].left
  }

  /** What that opening can leave of directory d. */
  ghost predicate Ends(d: Disk, o: Opening) {
    Openable(d) &&
    match o
    case Recovering(e) => RecoversAlike(d, e)
    case Replaying(policy, at, e) => at < |d.wal| && LeftInReplay(d, policy, at, e)
  }

  /** Each opening leaves what it can leave, for the next one to open. */
  ghost predicate Chained(left: Disk, openings: seq<Opening>) {
    openings != [] ==>
      var n := |openings| - 1;
      Chained(left, openings[..n]) && Ends(Last(left, openings[..n]), openings[n])
  }

  // ------------------------------------------------------------------- restarting

  /** Whatever a crashed recovery leaves, the next one ends in the same state. */
  lemma StandingAlike(d: Disk, e: Disk, view: map<Key, Document>, wal: seq<WalRecord>)
    requires Standing(d, view, wal) && RecoversAlike(d, e)
    ensures Standing(e, view, wal)
  {
    hide RecoveredKeymap, RecoveredShelf, Openable;
  }

  /**
   A crash at any write of recovery is invisible: the next open() gives the same map, with one
   live copy per key exactly when there would have been.
   */
  lemma AlikeReopens(d: Disk, e: Disk, policy: Policy)
    requires RecoversAlike(d, e) && Usable(Opened(d, policy)) && WellLogged(d.wal)
    ensures Usable(Reopened(e, policy)) && Contents(Reopened(e, policy)) == Contents(Reopened(d, policy))
    ensures Consistent(Reopened(e, policy)) <==> Consistent(Reopened(d, policy))
  {
    AlikeOpens(d, e, policy);
    hide RecoversAlike, Opened, Usable, Consistent, Contents, AddsAreFresh;
    if policy.durable {
      ReopenedLasts(d, policy);
      ReopenedLasts(e, policy);
    }
  }

  lemma AlikeOpens(d: Disk, e: Disk, policy: Policy)
    requires RecoversAlike(d, e) && Usable(Opened(d, policy))
    ensures Usable(Opened(e, policy)) && Contents(Opened(e, policy)) == Contents(Opened(d, policy))
    ensures (Consistent(Opened(e, policy)) <==> Consistent(Opened(d, policy))) && e.wal == d.wal
    ensures !policy.durable ==> Reopened(e, policy) == Opened(e, policy) && Reopened(d, policy) == Opened(d, policy)
  {
    var s, km := RecoveredShelf(d), RecoveredKeymap(d);
    OpenedShape(d, policy);
    OpenedShape(e, policy);
    OpenedIsMirrored(d, policy);
    OpenedIsMirrored(e, policy);
    EmptyHasNothing(d, policy);
    SoundBelow(s, km, Opened(d, policy).writer);
    EmptyKeeps(s, km, Opened(d, policy).writer);
    EmptyKeeps(s, km, Opened(e, policy).writer);
    if Complete(Opened(d, policy).shelf, km) {
      EmptyHidesNoStray(s, km, Opened(d, policy).writer);
    }
    if Complete(Opened(e, policy).shelf, km) {
      EmptyHidesNoStray(s, km, Opened(e, policy).writer);
    }
  }

  /** An entry does not name an empty volume. */
  lemma SoundBelow(s: Shelf, km: Keymap, g: nat)
    requires g !in s && Sound(WithEmpty(s, g), km)
    ensures Sound(s, km)
  {
    forall k | k in km ensures Alive(s, km[k]) && EntryAt(s, km[k]).key == k {
      EmptyAt(s, g, km[k]);
    }
  }

  lemma {:induction false} ChainStands(left: Disk, openings: seq<Opening>, view: map<Key, Document>, wal: seq<WalRecord>)
    requires Standing(left, view, wal) && Chained(left, openings)
    ensures Standing(Last(left, openings), view, wal)
  {
    if openings != [] {
      var n := |openings| - 1;
      var d := Last(left, openings[..n]);
      hide Standing, LeftInReplay, RecoversAlike, Openable;
      ChainStands(left, openings[..n], view, wal);
      StandingLog(d, view, wal);
      match openings[n] {
        case Recovering(e) => StandingAlike(d, e, view, wal);
        case Replaying(policy, at, e) => InterruptedReplay(d, view, policy, at, e);
      }
    }
  }

  /** There is always a keymap log or a marker, so that recovery loses nothing. */
  lemma ChainIsTrusted(left: Disk, openings: seq<Opening>)
    requires (left.marker || left.log.Some?) && Chained(left, openings)
    ensures Last(left, openings).marker || Last(left, openings).log.Some?
  {
    hide RecoveredKeymap, RecoveredShelf, Openable, Midway, Stage;
  }

  lemma StandingLog(e: Disk, view: map<Key, Document>, wal: seq<WalRecord>)
    requires Standing(e, view, wal)
    ensures e.wal == wal && WellLogged(wal) && Openable(e)
  {
  }

  /** Once a directory that stands for a map is opened to the end, it lasts again. */
  lemma StandingLasts(e: Disk, view: map<Key, Document>, wal: seq<WalRecord>, policy: Policy)
    requires Standing(e, view, wal) && policy.durable && SurvivesReplay(wal, policy.flushAfter)
    ensures Openable(e) && Lasting(Reopened(e, policy)) && Reopened(e, policy).healthy
    ensures Contents(Reopened(e, policy)) == Overlay(view, wal)
  {
    StandingReopens(e, view, wal, policy);
    StandingOpens(e, view, wal, policy);
    StandingLog(e, view, wal);
    OpenedAfresh(e, policy);
    var start := Opened(e, policy).(replaying := true);
    StartIsAlike(Opened(e, policy), view, wal);
    ReopenedIsEnded(e, policy);
    hide Opened, Reopened, Standing, SettledOff, Contents, Overlay, Replayed;
    CleanStarts(start, wal);
    ReplayedClean(start, wal);
    CleanIsUsable(Replayed(start, wal));
    NoGhosts(Ghosts(start), wal);
    hide Clean, Starts, Rooted, Ghosts, Lasting;
    EndedLasts(Clean(start), wal);
  }

  lemma NoGhosts(ghosts: set<Key>, wal: seq<WalRecord>)
    requires ghosts <= KeysIn(wal)
    ensures ghosts - KeysIn(wal) == {}
  {
  }

  lemma ReopenedIsEnded(e: Disk, policy: Policy)
    requires Openable(e) && policy.durable
    ensures var start := Opened(e, policy).(replaying := true);
            && start.writer in start.shelf && Reopened(e, policy) == Ended(Replayed(start, e.wal))
            && start.policy == policy && start.healthy && !start.truncatePending && start.disk.wal == e.wal
            && VolumeAt(start.shelf, start.writer).docs == []
  {
  }

  lemma CleanStarts(start: Index, wal: seq<WalRecord>)
    requires Rooted(start) && start.replaying && start.policy.durable && !start.truncatePending && start.healthy
    requires start.disk.wal == wal && WellLogged(wal) && VolumeAt(start.shelf, start.writer).docs == []
    ensures Starts(Clean(start), wal) && Clean(start).policy == start.policy
  {
    var jx := Clean(start);
    CleanIsUsable(start);
    EmptyWriterHoldsNothing(jx);
    FlushableIsAll(jx);
    assert forall k :: !InWriter(jx, k);
  }

  /** The crash, the openings that crashed, and the one that did not: the map is as it was. */
  lemma RestartLasts(ix: Index, m: Moment, left: Disk, openings: seq<Opening>, policy: Policy)
    requires Lasting(ix) && ix.healthy && LooselyLogs(ix, Crash(m, left, policy)) && Chained(left, openings)
    ensures Openable(Last(left, openings)) && Lasting(Reopened(Last(left, openings), policy))
    ensures Reopened(Last(left, openings), policy).healthy
    ensures Contents(Reopened(Last(left, openings), policy)) == Contents(ix)
  {
    LeftOpens(ix, m, left, policy, policy);
    hide Opened, Reopened, Lasting, Contents, Leaves, Usable, Overlay, Standing;
    var view := Contents(Opened(left, policy));
    RecoveredStands(left, policy);
    ChainStands(left, openings, view, left.wal);
    StandingLasts(Last(left, openings), view, left.wal, policy);
  }

  // ---------------------------------------------------------------------- whole runs

  ghost function After(ix: Index, ev: Event): (jx: Index)
    requires ix.writer in ix.shelf
    ensures jx.writer in jx.shelf
  {
    match ev
    case Done(step) => Next(ix, step)
    case _ =>
      if Openable(Last(ev.left, ev.openings)) then Reopened(Last(ev.left, ev.openings), ev.policy) else ix
  }

  ghost function Standpoint(ix: Index, run: seq<Event>, n: nat): (jx: Index)
    requires ix.writer in ix.shelf && n <= |run|
    ensures jx.writer in jx.shelf
  {
    if n == 0 then ix else After(Standpoint(ix, run, n - 1), run[n - 1])
  }

  /** Commands change the map, nothing else does. */
  function Commands(view: map<Key, Document>, run: seq<Event>, n: nat): map<Key, Document>
    requires n <= |run|
  {
    if n == 0 then view
    else if run[n - 1].Done? then Effect(Commands(view, run, n - 1), run[n - 1].step)
    else Commands(view, run, n - 1)
  }

  /** What can happen to an index: crashes leave what they can leave, wherever they strike. */
  ghost predicate Occurs(ix: Index, ev: Event)
    requires ix.writer in ix.shelf
  {
    match ev
    case Done(Command(r)) => ValidKey(r.key)
    case Done(Crash(m, left, _)) => Leaves(ix, m, left)
    case Done(_) => true
    case Restarted(m, left, openings, _) => Leaves(ix, m, left) && Chained(left, openings)
    case Broken(r, left, openings, _) => ValidKey(r.key) && PassesThrough(ix, r, left) && Chained(left, openings)
  }

  /** What durable mode gets over: all of that, but for crashes inside a single command. */
  ghost predicate Happens(ix: Index, ev: Event)
    requires ix.writer in ix.shelf
  {
    && Occurs(ix, ev)
    && match ev
       case Done(step) => LooselyLogs(ix, step)
       case Restarted(m, left, openings, policy) => LooselyLogs(ix, Crash(m, left, policy))
       case Broken(_, _, _, _) => false
  }

  /**
   What that asks for: of a command a usable key and a text of at most 256 MB, of a flush
   nothing, and while there are no stray copies, of a compaction nothing either; and a crash
   between operations is got over if the log is short for the threshold.
   */
  lemma PlainEventsHappen(ix: Index, ev: Event)
    requires Lasting(ix) && ix.writer in ix.shelf && ev.Done?
    ensures ev.step.Command? ==>
              (Happens(ix, ev) <==>
                 ValidKey(ev.step.record.key) && (ev.step.record.Deleted? || |ev.step.record.document.text| <= 268435456))
    ensures ev.step.Flush? ==> Happens(ix, ev)
    ensures ev.step.Compact? && Complete(ix.shelf, ix.keymap) ==> Happens(ix, ev)
    ensures ev.step.Crash? && ev.step.moment == Idle && ev.step.left == ix.disk && ev.step.policy.durable &&
            (ev.step.policy.flushAfter == 0 || Puts(ix.disk.wal) < ev.step.policy.flushAfter) ==>
              Happens(ix, ev)
  {
    if ev.step.Compact? && Complete(ix.shelf, ix.keymap) && Compactable(ix, ev.step.generations) {
      CompactPreserves(ix, ev.step.generations);
      StaleCopy.CompactionShowsSame(ix, ev.step.generations);
    }
  }

  ghost predicate Unfolds(ix: Index, run: seq<Event>, n: nat)
    requires ix.writer in ix.shelf && n <= |run|
  {
    n > 0 ==> Unfolds(ix, run, n - 1) && Happens(Standpoint(ix, run, n - 1), run[n - 1])
  }

  /**
   Durable mode is a plain map even where it is no bijection.  Over any run, crashes inside
   flush() -- between the manifest save and the truncation of the log, too -- inside compact()
   and inside open()'s recovery and replay included, the index holds what the commands alone
   say, as long as compactions and marked rebuilds find current copies and no replay flushes
   too soon.
   */
  lemma {:induction false} LastingRun(ix: Index, run: seq<Event>, n: nat)
    requires Lasting(ix) && ix.healthy && n <= |run| && ix.writer in ix.shelf && Unfolds(ix, run, n)
    ensures Lasting(Standpoint(ix, run, n)) && Standpoint(ix, run, n).healthy
    ensures Contents(Standpoint(ix, run, n)) == Commands(Contents(ix), run, n)
  {
    if n > 0 {
      hide Lasting, Contents, LooselyLogs, Next, Effect, Reopened;
      LastingRun(ix, run, n - 1);
      var jx := Standpoint(ix, run, n - 1);
      match run[n - 1] {
        case Done(step) => LastingNext(jx, step);
        case Restarted(m, left, openings, policy) => RestartLasts(jx, m, left, openings, policy);
      }
    }
  }
}
