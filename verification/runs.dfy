/**
 Whole runs of the index: any sequence of commands, flushes, compactions and crashes,
 the crashes between operations or at any moment inside flush() or compact().
 */
module Runs {
  import opened Sequences
  import opened SegmentModel
  import opened Shelves
  import opened Operations
  import opened Mutations
  import opened Compaction
  import opened Recovery
  import opened Durability
  import opened Reopening
  import opened CrashSafety
  import opened CrashPoints

  /** Where a crash strikes; the flags say whether the manifest was already replaced. */
  datatype Moment = Idle | Flushing(named: bool) | Compacting(generations: seq<nat>, swapped: bool)

  datatype Step =
    | Command(record: WalRecord)
    | Flush
    | Compact(generations: seq<nat>)
    | Crash(moment: Moment, left: Disk, policy: Policy)

  // ------------------------------------------------------------------ crashes

  ghost predicate Reaches(ix: Index, m: Moment) {
    match m
    case Idle => true
    case Flushing(_) => VolumeAt(ix.shelf, ix.writer).docs != []
    case Compacting(gens, _) => Compactable(ix, gens)
  }

  /** The index whose segments the manifest names at that moment. */
  function At(ix: Index, m: Moment): Index
    requires ix.writer in ix.shelf
  {
    match m
    case Idle => ix
    case Flushing(named) => if named then Flushed(ix) else ix
    case Compacting(gens, swapped) => if swapped then Compacted(ix, gens) else ix
  }

  /** The directories a crash at that moment can leave. */
  ghost predicate Leaves(ix: Index, m: Moment, d: Disk)
    requires ix.writer in ix.shelf
  {
    && Reaches(ix, m) && SameSegments(d, At(ix, m)) && d.next >= ix.next
    && (d.wal == ix.disk.wal || (m == Flushing(true) && d.wal == []))
  }

  lemma LeftDirectory(ix: Index, m: Moment, d: Disk)
    requires Consistent(ix) && Leaves(ix, m, d)
    ensures var jx := At(ix, m);
            && Structured(jx) && Preserves(d, DiskPart(jx), DiskKeymap(jx))
            && View(DiskPart(jx), DiskKeymap(jx)) == if m == Flushing(true) then Contents(ix) else Flushable(ix)
  {
    assert ix.writer in ix.shelf;
    hide Structured, Mirrored, Sound, Complete, Flushed, Compacted, SameSegments, Compactable, Contents, Flushable;
    match m {
      case Idle =>
      case Flushing(_) => FlushPreserves(ix);
      case Compacting(gens, _) => CompactPreserves(ix, gens);
    }
    FlushableIsDiskView(At(ix, m));
    SameSegmentsPreserve(d, At(ix, m));
  }

  lemma FlushableIsDiskView(ix: Index)
    ensures View(DiskPart(ix), DiskKeymap(ix)) == Flushable(ix)
  {
  }

  // --------------------------------------------------------------------- runs

  /** compact() with unusable arguments returns an error and changes nothing. */
  ghost function Next(ix: Index, step: Step): (jx: Index)
    requires ix.writer in ix.shelf
    ensures jx.writer in jx.shelf
  {
    match step
    case Command(r) => Applied(ix, r)
    case Flush => Flushed(ix)
    case Compact(gens) => if Structured(ix) && Compactable(ix, gens) then Compacted(ix, gens) else ix
    case Crash(_, d, policy) => if Openable(d) then Reopened(d, policy) else ix
  }

  ghost function State(ix: Index, run: seq<Step>, n: nat): (jx: Index)
    requires ix.writer in ix.shelf && n <= |run|
    ensures jx.writer in jx.shelf
  {
    if n == 0 then ix else Next(State(ix, run, n - 1), run[n - 1])
  }

  /** Only unmapped keys are added, and crashes leave what they can leave. */
  ghost predicate Allowed(ix: Index, step: Step)
    requires ix.writer in ix.shelf
  {
    match step
    case Command(r) => ValidKey(r.key) && (r.Added? ==> r.key !in ix.keymap)
    case Crash(m, d, _) => Leaves(ix, m, d)
    case _ => true
  }

  /** A document without terms is refused. */
  predicate Refused(r: WalRecord) {
    !r.Deleted? && r.document.terms == 0
  }

  /** What a step does to the plain map a caller thinks of. */
  function Effect(view: map<Key, Document>, step: Step): map<Key, Document> {
    if step.Command? && !Refused(step.record) then Written(view, step.record) else view
  }

  function Effects(view: map<Key, Document>, run: seq<Step>, n: nat): map<Key, Document>
    requires n <= |run|
  {
    if n == 0 then view else Effect(Effects(view, run, n - 1), run[n - 1])
  }

  // ------------------------------------------------------------- durable runs

  /**
   Records fit the log; reopening keeps durable mode with a threshold the log does not
   exceed; and no crash falls between flush()'s manifest save and its truncation of the
   log while a key first added since the last flush is still present.
   */
  ghost predicate Logs(ix: Index, step: Step) {
    match step
    case Command(r) => Recordable(r)
    case Crash(m, d, policy) =>
      && policy.durable && (policy.flushAfter > 0 ==> Puts(d.wal) <= policy.flushAfter)
      && (m == Flushing(true) && d.wal != [] ==> forall k :: k in Contents(ix) ==> !FirstAdded(d.wal, k))
    case _ => true
  }

  lemma DurableCommand(ix: Index, r: WalRecord)
    requires Durable(ix) && ix.healthy && Allowed(ix, Command(r)) && Recordable(r)
    ensures Durable(Applied(ix, r)) && Applied(ix, r).healthy
    ensures Contents(Applied(ix, r)) == Effect(Contents(ix), Command(r))
  {
    if Refused(r) {
      assert Applied(ix, r) == ix;
    } else {
      hide Durable, Applied;
      DurableStep(ix, r);
    }
  }

  lemma DurableReopen(ix: Index, m: Moment, d: Disk, policy: Policy)
    requires Durable(ix) && ix.healthy && Leaves(ix, m, d) && Logs(ix, Crash(m, d, policy))
    ensures Openable(d) && Durable(Reopened(d, policy)) && Reopened(d, policy).healthy
    ensures Contents(Reopened(d, policy)) == Contents(ix)
  {
    var jx := At(ix, m);
    LeftDirectory(ix, m, d);
    LoggedIsFresh(ix, m, d, policy);
    ReopenedIsDurable(d, DiskPart(jx), DiskKeymap(jx), policy);
    if m == Flushing(true) {
      ReplayOverFinishedState(Flushable(ix), ix.disk.wal);
    }
  }

  lemma LoggedIsFresh(ix: Index, m: Moment, d: Disk, policy: Policy)
    requires Durable(ix) && ix.healthy && Leaves(ix, m, d) && Logs(ix, Crash(m, d, policy))
    ensures WellLogged(d.wal)
    ensures AddsAreFresh(if m == Flushing(true) then Contents(ix) else Flushable(ix), d.wal)
  {
    if m == Flushing(true) && d.wal != [] {
      ReplayDuplicates(ix);
    }
  }

  lemma DurableNext(ix: Index, step: Step)
    requires Durable(ix) && ix.healthy && Allowed(ix, step) && Logs(ix, step)
    ensures Durable(Next(ix, step)) && Next(ix, step).healthy
    ensures Contents(Next(ix, step)) == Effect(Contents(ix), step)
  {
    hide Contents, Applied, Flushed, Compacted, Reopened, Leaves;
    match step {
      case Command(r) => DurableCommand(ix, r);
      case Flush => DurableFlush(ix);
      case Compact(gens) =>
        if Compactable(ix, gens) { DurableCompact(ix, gens); }
      case Crash(m, d, policy) => DurableReopen(ix, m, d, policy);
    }
  }

  /**
   What durable runs ask for: of a command a usable key, a text of at most 256 MB and that only
   unmapped keys are added, of flushes and compactions nothing, and of a crash between operations
   that the log is no longer than the threshold.
   */
  lemma PlainSteps(ix: Index, step: Step)
    requires Durable(ix) && ix.writer in ix.shelf
    ensures step.Command? ==>
              (Allowed(ix, step) && Logs(ix, step) <==>
                 && ValidKey(step.record.key) && (step.record.Added? ==> step.record.key !in ix.keymap)
                 && (step.record.Deleted? || |step.record.document.text| <= 268435456))
    ensures step.Flush? || step.Compact? ==> Allowed(ix, step) && Logs(ix, step)
    ensures step.Crash? && step.moment == Idle && step.left == ix.disk && step.policy.durable &&
            (step.policy.flushAfter == 0 || Puts(ix.disk.wal) <= step.policy.flushAfter) ==>
              Allowed(ix, step) && Logs(ix, step)
  {
  }

  ghost predicate DurablyRuns(ix: Index, run: seq<Step>, n: nat)
    requires ix.writer in ix.shelf && n <= |run|
  {
    n > 0 ==>
      && DurablyRuns(ix, run, n - 1)
      && Allowed(State(ix, run, n - 1), run[n - 1]) && Logs(State(ix, run, n - 1), run[n - 1])
  }

  /**
   Durable mode is a plain map with one live copy per key: after any run in which no crash
   leaves a log that adds a flushed key again, the index holds exactly what the commands
   alone say.  Restarts.LastingRun is the theorem for all crashes, without the bijection.
   */
  lemma {:induction false} DurableRun(ix: Index, run: seq<Step>, n: nat)
    requires Durable(ix) && ix.healthy && n <= |run| && DurablyRuns(ix, run, n)
    ensures Durable(State(ix, run, n)) && State(ix, run, n).healthy
    ensures Contents(State(ix, run, n)) == Effects(Contents(ix), run, n)
  {
    if n > 0 {
      hide Durable, Contents, Allowed, Logs, Next, Effect;
      DurableRun(ix, run, n - 1);
      DurableNext(State(ix, run, n - 1), run[n - 1]);
    }
  }

  // --------------------------------------------------------- runs without a log

  /**
   What the index promises without a log: `kept` is what a crash now would leave.  A
   write takes its key out of `kept` until the next flush, because the old copy is
   retired on disk at once while the new one is still in memory.
   */
  datatype Promise = Promise(view: map<Key, Document>, kept: map<Key, Document>, pending: nat, flushAfter: nat)

  function Promised(ix: Index): Promise {
    Promise(Contents(ix), Flushable(ix), |VolumeAt(ix.shelf, ix.writer).docs|, ix.policy.flushAfter)
  }

  function Kept(p: Promise, step: Step): Promise {
    match step
    case Command(r) =>
      var view := Effect(p.view, step);
      if Refused(r) then p
      else if r.Deleted? then Promise(view, p.kept - {r.key}, p.pending, p.flushAfter)
      else if 0 < p.flushAfter <= p.pending + 1 then Promise(view, view, 0, p.flushAfter)
      else Promise(view, p.kept - {r.key}, p.pending + 1, p.flushAfter)
    case Flush => Promise(p.view, p.view, 0, p.flushAfter)
    case Compact(_) => p
    case Crash(m, _, policy) =>
      var left := if m == Flushing(true) then p.view else p.kept;
      Promise(left, left, 0, policy.flushAfter)
  }

  /** How many documents the writer holds after a command, and whether it was flushed. */
  ghost predicate Pends(ix: Index, r: WalRecord, jx: Index) {
    var n, m := |VolumeAt(ix.shelf, ix.writer).docs|, |VolumeAt(jx.shelf, jx.writer).docs|;
    && jx.policy == ix.policy
    && if r.Deleted? then jx.order == ix.order && m == n
       else if 0 < ix.policy.flushAfter <= n + 1 then jx.order != ix.order && m == 0
       else jx.order == ix.order && m == n + 1
  }

  lemma StoringPends(ix: Index, k: Key, doc: Document)
    requires Structured(ix) && doc.terms > 0
    ensures Pends(ix, Added(k, doc), Add(ix, k, doc))
    ensures Pends(ix, Updated(k, doc), Superseding(ix, k, doc))
  {
    if 0 < ix.policy.flushAfter <= |ix.shelf[ix.writer].docs| + 1 {
      assert |Add(ix, k, doc).order| == |Superseding(ix, k, doc).order| == |ix.order| + 1;
    }
  }

  lemma TombstoningPends(ix: Index, r: WalRecord, sx: Index, loc: Loc)
    requires Pends(ix, r, sx)
    ensures Pends(ix, r, Tombstoned(sx, loc))
  {
  }

  lemma CommandPends(ix: Index, r: WalRecord)
    requires Structured(ix) && !Refused(r)
    ensures Pends(ix, r, Applied(ix, r))
  {
    match r {
      case Added(k, doc) =>
        StoringPends(ix, k, doc);
      case Updated(k, doc) =>
        var sx := Superseding(ix, k, doc);
        assert Update(ix, k, doc) == if k in ix.keymap then Tombstoned(sx, ix.keymap[k]) else sx;
        hide Structured, Pends, Superseding, Update, Tombstoned;
        StoringPends(ix, k, doc);
        if k in ix.keymap { TombstoningPends(ix, r, sx, ix.keymap[k]); }
      case Deleted(k) =>
        if Deletable(ix, k) {
          TombstoningPends(ix, r, ix, ix.keymap[k]);
        }
    }
  }

  lemma VolatileCommand(ix: Index, r: WalRecord)
    requires Consistent(ix) && Allowed(ix, Command(r))
    ensures Consistent(Applied(ix, r))
    ensures Promised(Applied(ix, r)) == Kept(Promised(ix), Command(r))
  {
    if Refused(r) {
      assert Applied(ix, r) == ix;
    } else {
      CommandPends(ix, r);
      ContentsKeys(ix);
      hide Applied, Flushable, Contents;
      AppliedWrites(ix, r);
      AppliedFlushable(ix, r);
    }
  }

  lemma VolatileFlush(ix: Index)
    requires Consistent(ix)
    ensures Consistent(Flushed(ix))
    ensures Promised(Flushed(ix)) == Kept(Promised(ix), Flush)
  {
    FlushPreserves(ix);
    if ix.shelf[ix.writer].docs == [] {
      EmptyWriterHoldsNothing(ix);
      FlushableIsAll(ix);
    }
  }

  lemma VolatileCompact(ix: Index, gens: seq<nat>)
    requires Consistent(ix) && Compactable(ix, gens)
    ensures Consistent(Compacted(ix, gens))
    ensures Promised(Compacted(ix, gens)) == Promised(ix)
  {
    CompactPreserves(ix, gens);
    assert ix.next !in ix.shelf;
  }

  lemma VolatileReopen(ix: Index, m: Moment, d: Disk, policy: Policy)
    requires Consistent(ix) && Leaves(ix, m, d) && !policy.durable
    ensures Openable(d) && Consistent(Reopened(d, policy))
    ensures Promised(Reopened(d, policy)) == Kept(Promised(ix), Crash(m, d, policy))
  {
    var jx := At(ix, m);
    LeftDirectory(ix, m, d);
    OpensTo(d, DiskPart(jx), DiskKeymap(jx), policy);
  }

  lemma VolatileNext(ix: Index, step: Step)
    requires Consistent(ix) && Allowed(ix, step)
    requires step.Crash? ==> !step.policy.durable
    ensures Consistent(Next(ix, step))
    ensures Promised(Next(ix, step)) == Kept(Promised(ix), step)
  {
    assert step.Compact? ==> Kept(Promised(ix), step) == Promised(ix);
    hide Promised, Applied, Flushed, Compacted, Reopened, Leaves, Structured, Mirrored, Coherent, Kept;
    match step {
      case Command(r) => VolatileCommand(ix, r);
      case Flush => VolatileFlush(ix);
      case Compact(gens) =>
        if Compactable(ix, gens) { VolatileCompact(ix, gens); }
      case Crash(m, d, policy) => VolatileReopen(ix, m, d, policy);
    }
  }

  function Promises(p: Promise, run: seq<Step>, n: nat): Promise
    requires n <= |run|
  {
    if n == 0 then p else Kept(Promises(p, run, n - 1), run[n - 1])
  }

  ghost predicate VolatilelyRuns(ix: Index, run: seq<Step>, n: nat)
    requires ix.writer in ix.shelf && n <= |run|
  {
    n > 0 ==>
      && VolatilelyRuns(ix, run, n - 1) && Allowed(State(ix, run, n - 1), run[n - 1])
      && (run[n - 1].Crash? ==> !run[n - 1].policy.durable)
  }

  /** Without a log the promise is exact: over any run, this is what callers see and crashes leave. */
  lemma {:induction false} VolatileRun(ix: Index, run: seq<Step>, n: nat)
    requires Consistent(ix) && n <= |run| && VolatilelyRuns(ix, run, n)
    ensures Consistent(State(ix, run, n))
    ensures Promised(State(ix, run, n)) == Promises(Promised(ix), run, n)
  {
    if n > 0 {
      hide Consistent, Promised, Allowed, Next, Kept;
      VolatileRun(ix, run, n - 1);
      VolatileNext(State(ix, run, n - 1), run[n - 1]);
    }
  }

  // -------------------------------------------------------------- where runs start

  const NEW_DIRECTORY := Disk(1, [], map[], map[], None, [], false)

  /** Opening an empty directory gives an empty, durable index. */
  lemma FirstOpen(policy: Policy)
    ensures Openable(NEW_DIRECTORY)
    ensures Contents(Reopened(NEW_DIRECTORY, policy)) == map[]
    ensures Consistent(Reopened(NEW_DIRECTORY, policy)) && Reopened(NEW_DIRECTORY, policy).healthy
    ensures policy.durable ==> Durable(Reopened(NEW_DIRECTORY, policy))
  {
    assert Preserves(NEW_DIRECTORY, map[], map[]);
    OpensTo(NEW_DIRECTORY, map[], map[], policy);
    if policy.durable {
      ReopenedIsDurable(NEW_DIRECTORY, map[], map[], policy);
    }
  }
}
