/**
 The directories that add, update and delete pass through, write by write, and what those
 of a replayed record stand for.
 */
module CommandSteps {
  import opened Sequences
  import opened SegmentModel
  import opened Shelves
  import opened Operations
  import opened Mutations
  import opened Recovery
  import opened Durability
  import opened Reopening
  import opened CrashSafety
  import opened Runs
  import opened CrashSteps
  import opened ReplayCrash

  /**
   The directory holds what s has flushed, and no generation is handed out twice; while the log
   is replayed, the log is left alone.
   */
  ghost predicate Shows(e: Disk, s: Index, ix: Index) {
    && SameSegments(e, s) && e.marker == ix.disk.marker && e.next >= ix.next
    && (ix.replaying ==> e.wal == ix.disk.wal) && (WellLogged(ix.disk.wal) ==> WellLogged(e.wal))
  }

  /** The directories add_document() passes through, before a log record of an update. */
  ghost predicate StoringPasses(ix: Index, k: Key, doc: Document, passed: seq<Disk>)
    requires ix.writer in ix.shelf
  {
    forall i :: 0 <= i < |passed| ==>
      Shows(passed[i], Stored(ix, k, doc), ix) || Shows(passed[i], AutoFlushed(Stored(ix, k, doc)), ix)
  }

  ghost predicate PassesThrough(ix: Index, r: WalRecord, e: Disk)
    requires ix.writer in ix.shelf
  {
    exists s :: Stage(ix, r, s) && Shows(e, s, ix)
  }

  /** The directories a command passes through. */
  ghost predicate CommandPasses(ix: Index, r: WalRecord, passed: seq<Disk>)
    requires ix.writer in ix.shelf
  {
    forall i :: 0 <= i < |passed| ==> PassesThrough(ix, r, passed[i])
  }

  lemma MirroredShows(s: Index, ix: Index)
    requires Mirrored(s) && !ix.disk.marker && s.next >= ix.next
    requires (ix.replaying ==> s.disk.wal == ix.disk.wal) && (WellLogged(ix.disk.wal) ==> WellLogged(s.disk.wal))
    ensures Shows(s.disk, s, ix)
  {
  }

  lemma StoredPasses(ix: Index, k: Key, doc: Document)
    requires Structured(ix) && Mirrored(ix) && ValidKey(k)
    ensures ix.writer in ix.shelf
    ensures var s := Stored(ix, k, doc);
            Shows(s.disk, s, ix) && (doc.terms > 0 ==> Shows(Logged(s, Added(k, doc)).disk, s, ix))
  {
    assert ix.writer in ix.shelf;
    assert Stored(ix, k, doc).disk.wal == ix.disk.wal && Stored(ix, k, doc).next == ix.next;
    StoredIsStructured(ix, k, doc);
    MirroredShows(Stored(ix, k, doc), ix);
  }

  /** What an automatic flush passes through: nothing, unless the writer is full. */
  ghost predicate AutoFlushSteps(ix: Index, passed: seq<Disk>)
    requires ix.writer in ix.shelf
  {
    if 0 < ix.policy.flushAfter <= |ix.shelf[ix.writer].docs| then FlushSteps(ix, passed) else passed == []
  }

  /** A flush sees the same segments whether or not the document was logged. */
  lemma FlushPasses(ix: Index, k: Key, doc: Document, s: Index, passed: seq<Disk>)
    requires ix.writer in ix.shelf && !ix.disk.marker && ValidKey(k) && doc.terms > 0
    requires s == Stored(ix, k, doc) || s == Logged(Stored(ix, k, doc), Added(k, doc))
    requires AutoFlushSteps(s, passed)
    ensures StoringPasses(ix, k, doc, passed)
  {
    var stored := Stored(ix, k, doc);
    hide SameSegments, Stored;
    StoredFields(ix, k, doc);
    forall i | 0 <= i < |passed|
      ensures Shows(passed[i], stored, ix) || Shows(passed[i], AutoFlushed(stored), ix)
    {
      if Leaves(s, Flushing(false), passed[i]) {
        SameToo(passed[i], s, stored);
      } else {
        assert Leaves(s, Flushing(true), passed[i]);
        SameToo(passed[i], Flushed(s), AutoFlushed(stored));
      }
    }
  }

  lemma StoredFields(ix: Index, k: Key, doc: Document)
    requires ix.writer in ix.shelf
    ensures var s := Stored(ix, k, doc);
            && s.policy == ix.policy && s.replaying == ix.replaying && s.healthy == ix.healthy
            && s.disk.marker == ix.disk.marker && s.disk.wal == ix.disk.wal && s.next == ix.next
  {
  }

  lemma SameToo(e: Disk, s: Index, t: Index)
    requires SameSegments(e, s) && s.order == t.order && s.shelf == t.shelf && s.keymap == t.keymap
    ensures SameSegments(e, t)
  {
  }

  lemma PassesJoin(ix: Index, k: Key, doc: Document, a: seq<Disk>, b: seq<Disk>)
    requires ix.writer in ix.shelf && StoringPasses(ix, k, doc, a) && StoringPasses(ix, k, doc, b)
    ensures StoringPasses(ix, k, doc, a + b)
  {
  }

  /** What storing passes through is part of what the whole command does. */
  lemma StoringIsPart(ix: Index, r: WalRecord, passed: seq<Disk>)
    requires ix.writer in ix.shelf && !r.Deleted? && StoringPasses(ix, r.key, r.document, passed)
    ensures CommandPasses(ix, r, passed)
  {
    forall i | 0 <= i < |passed| ensures PassesThrough(ix, r, passed[i]) {
      var s := Stored(ix, r.key, r.document);
      assert Stage(ix, r, s) && Stage(ix, r, AutoFlushed(s));
    }
  }

  lemma CommandsJoin(ix: Index, r: WalRecord, a: seq<Disk>, b: seq<Disk>)
    requires ix.writer in ix.shelf && CommandPasses(ix, r, a) && CommandPasses(ix, r, b)
    ensures CommandPasses(ix, r, a + b)
  {
  }

  lemma OnePasses(ix: Index, r: WalRecord, s: Index, e: Disk)
    requires ix.writer in ix.shelf && Stage(ix, r, s) && Shows(e, s, ix)
    ensures CommandPasses(ix, r, [e])
  {
    assert PassesThrough(ix, r, e);
  }

  lemma NothingPassed(ix: Index, r: WalRecord)
    requires ix.writer in ix.shelf
    ensures CommandPasses(ix, r, [])
  {
  }

  /** The update's log record changes no segment. */
  lemma LoggedShows(ix: Index, k: Key, doc: Document)
    requires Structured(ix) && Mirrored(ix) && ValidKey(k)
    ensures ix.writer in ix.shelf
    ensures var s := AutoFlushed(Stored(ix, k, doc)); doc.terms > 0 ==> Shows(Logged(s, Updated(k, doc)).disk, s, ix)
  {
    hide Structured, Stored, AutoFlushed, Logged, SameSegments, Shows;
    StoredIsReady(ix, k, doc);
    var s := AutoFlushed(Stored(ix, k, doc));
    FlushedLog(ix, k, doc);
    MirroredShows(s, ix);
    if doc.terms > 0 {
      SameLogged(s, Updated(k, doc), ix);
    }
  }

  lemma StoredIsReady(ix: Index, k: Key, doc: Document)
    requires Structured(ix) && Mirrored(ix) && ValidKey(k)
    ensures ix.writer in ix.shelf && Mirrored(AutoFlushed(Stored(ix, k, doc)))
  {
    assert ix.writer in ix.shelf;
    StoredIsStructured(ix, k, doc);
    hide Structured, Mirrored, Stored;
    AutoFlushKeeps(Stored(ix, k, doc));
  }

  lemma FlushedLog(ix: Index, k: Key, doc: Document)
    requires ix.writer in ix.shelf
    ensures var s := AutoFlushed(Stored(ix, k, doc));
            && s.disk.marker == ix.disk.marker && s.replaying == ix.replaying && s.next >= ix.next
            && (s.disk.wal == ix.disk.wal || (!ix.replaying && s.disk.wal == []))
  {
  }

  lemma AppliedShows(ix: Index, r: WalRecord)
    requires Rooted(ix) && ValidKey(r.key) && (!r.Deleted? ==> r.document.terms > 0)
    ensures ix.writer in ix.shelf && Shows(Applied(ix, r).disk, Applied(ix, r), ix)
  {
    assert ix.writer in ix.shelf && !ix.disk.marker;
    AppliedIsMirrored(ix, r);
    hide Mirrored, Structured, SameSegments, Applied, Shows;
    AppliedOnwards(ix, r);
    MirroredShows(Applied(ix, r), ix);
  }

  /** Generations are only handed out, and only what can be replayed is logged. */
  ghost predicate Onwards(ix: Index, jx: Index) {
    && jx.next >= ix.next && jx.replaying == ix.replaying
    && (ix.replaying ==> jx.disk.wal == ix.disk.wal)
    && (WellLogged(ix.disk.wal) ==> WellLogged(jx.disk.wal))
  }

  lemma FlushOnwards(ix: Index)
    requires ix.writer in ix.shelf
    ensures Onwards(ix, AutoFlushed(ix))
  {
  }

  lemma RestOnwards(ix: Index, r: WalRecord, loc: Loc, k: Key)
    requires Loggable(r)
    ensures Onwards(ix, Logged(ix, r)) && Onwards(ix, Tombstoned(ix, loc)) && Onwards(ix, Forgotten(ix, k))
  {
  }

  lemma AppliedOnwards(ix: Index, r: WalRecord)
    requires ix.writer in ix.shelf && Loggable(r)
    ensures Onwards(ix, Applied(ix, r))
  {
    match r {
      case Added(k, doc) =>
        var s := Stored(ix, k, doc);
        assert Onwards(ix, s);
        hide Stored, AutoFlushed, Logged, WellLogged;
        RestOnwards(s, r, Loc(0, 0), k);
        LoggedFields(s, r);
        FlushOnwards(Logged(s, r));
      case Updated(k, doc) =>
        var s := Stored(ix, k, doc);
        assert Onwards(ix, s);
        hide Stored, AutoFlushed, Logged, Tombstoned, WellLogged;
        FlushOnwards(s);
        RestOnwards(AutoFlushed(s), r, Loc(0, 0), k);
        if k in ix.keymap {
          RestOnwards(Logged(AutoFlushed(s), r), r, ix.keymap[k], k);
        }
      case Deleted(k) =>
        if Deletable(ix, k) {
          hide Logged, Tombstoned, WellLogged;
          var t := Tombstoned(ix, ix.keymap[k]);
          RestOnwards(ix, r, ix.keymap[k], k);
          RestOnwards(t, r, Loc(0, 0), k);
          RestOnwards(Forgotten(t, k), r, Loc(0, 0), k);
        }
    }
  }

  lemma AppliedIsMirrored(ix: Index, r: WalRecord)
    requires Rooted(ix) && ValidKey(r.key)
    ensures ix.writer in ix.shelf && Mirrored(Applied(ix, r))
  {
    assert ix.writer in ix.shelf;
    match r {
      case Added(k, doc) =>
        StoredIsStructured(ix, k, doc);
        hide Structured, Mirrored, Stored, Logged, AutoFlushed;
        LoggedKeeps(Stored(ix, k, doc), r);
        AutoFlushKeeps(Logged(Stored(ix, k, doc), r));
      case Updated(k, doc) =>
        UpdatedIsMirrored(ix, k, doc);
      case Deleted(k) =>
        if Deletable(ix, k) {
          TombstonedIsStructured(ix, ix.keymap[k]);
          TombstonedIsMirrored(ix, ix.keymap[k]);
          hide Structured, Mirrored, Tombstoned, Logged;
          ForgottenKeeps(Tombstoned(ix, ix.keymap[k]), k);
          LoggedKeeps(Forgotten(Tombstoned(ix, ix.keymap[k]), k), r);
        }
    }
  }

  lemma UpdatedIsMirrored(ix: Index, k: Key, doc: Document)
    requires Rooted(ix) && ValidKey(k)
    ensures ix.writer in ix.shelf && Mirrored(Update(ix, k, doc))
  {
    assert ix.writer in ix.shelf;
    var s, r := AutoFlushed(Stored(ix, k, doc)), Updated(k, doc);
    if k in ix.keymap {
      StillStored(ix, k, doc, ix.keymap[k]);
    }
    StoredIsStructured(ix, k, doc);
    hide Structured, Mirrored, Stored, Logged, AutoFlushed, Tombstoned;
    AutoFlushKeeps(Stored(ix, k, doc));
    LoggedKeeps(s, r);
    LoggedFields(s, r);
    if k in ix.keymap {
      TombstonedIsMirrored(Logged(s, r), ix.keymap[k]);
    }
  }

  /** What tombstoning leaves before the entry goes. */
  lemma TombstonedShows(ix: Index, k: Key)
    requires Rooted(ix) && k in ix.keymap
    ensures var t := Tombstoned(ix, ix.keymap[k]);
            && Shows(t.disk, t, ix) && Stage(ix, Deleted(k), t)
            && Shows(Forgotten(t, k).disk, Forgotten(t, k), ix)
  {
    var t := Tombstoned(ix, ix.keymap[k]);
    TombstonedIsMirrored(ix, ix.keymap[k]);
    TombstonedFields(ix, ix.keymap[k]);
    ForgottenKeeps(t, k);
    MirroredShows(t, ix);
    MirroredShows(Forgotten(t, k), ix);
  }

  lemma FinishedStages(ix: Index, r: WalRecord)
    requires ix.writer in ix.shelf && !r.Deleted?
    ensures Stage(ix, r, Applied(ix, r)) && Stage(ix, r, AutoFlushed(Stored(ix, r.key, r.document)))
  {
  }

  /** The entry is gone; the log record of the deletion changes no segment. */
  lemma ForgottenShows(ix: Index, k: Key)
    requires Rooted(ix) && k in ix.keymap
    ensures ix.writer in ix.shelf
    ensures var t, r := Tombstoned(ix, ix.keymap[k]), Deleted(k);
            && Stage(ix, r, Applied(ix, r)) && Shows(Applied(ix, r).disk, Applied(ix, r), ix)
            && Shows(Forgotten(t, k).disk, Applied(ix, r), ix)
  {
    var t, r := Tombstoned(ix, ix.keymap[k]), Deleted(k);
    TombstonedShows(ix, k);
    assert ix.keymap[k].generation in Elements(ix.order) + {ix.writer};
    LoggedFields(Forgotten(t, k), r);
    LoggedKeeps(Forgotten(t, k), r);
    hide SameSegments, Tombstoned;
    SameToo(Forgotten(t, k).disk, Forgotten(t, k), Applied(ix, r));
    SameLogged(Forgotten(t, k), r, ix);
  }

  lemma SameLogged(f: Index, r: WalRecord, ix: Index)
    requires Shows(f.disk, f, ix) && f.replaying == ix.replaying && Loggable(r)
    ensures Shows(Logged(f, r).disk, Logged(f, r), ix) && Shows(Logged(f, r).disk, f, ix)
  {
  }

  // ------------------------------------------------------- what the methods rely on

  lemma StoringIsReady(ix: Index, k: Key, doc: Document)
    requires Structured(ix) && Mirrored(ix) && ValidKey(k)
    ensures ix.writer in ix.shelf && !ix.disk.marker
    ensures var s, l := Stored(ix, k, doc), Logged(Stored(ix, k, doc), Added(k, doc));
            && Structured(s) && Mirrored(s) && Structured(l) && Mirrored(l)
            && StoringPasses(ix, k, doc, [s.disk]) && StoringPasses(ix, k, doc, [])
            && (doc.terms > 0 ==> StoringPasses(ix, k, doc, [l.disk]))
  {
    StoredPasses(ix, k, doc);
    StoredIsStructured(ix, k, doc);
    LoggedKeeps(Stored(ix, k, doc), Added(k, doc));
  }

  lemma UpdateIsReady(ix: Index, k: Key, doc: Document)
    requires Rooted(ix) && ValidKey(k)
    ensures Structured(ix) && Mirrored(ix) && ix.writer in ix.shelf
    ensures var r := Updated(k, doc);
            var s := Logged(AutoFlushed(Stored(ix, k, doc)), r);
            && Structured(s) && (doc.terms > 0 ==> CommandPasses(ix, r, [s.disk])) && CommandPasses(ix, r, [])
            && Update(ix, k, doc) == (if doc.terms == 0 then ix else if k in ix.keymap then Tombstoned(s, ix.keymap[k]) else s)
            && (doc.terms > 0 ==> CommandPasses(ix, r, [Applied(ix, r).disk]))
  {
    assert ix.writer in ix.shelf;
    var r, s := Updated(k, doc), AutoFlushed(Stored(ix, k, doc));
    RootedStored(ix, k, doc);
    RootedFlushed(Stored(ix, k, doc));
    LoggedKeeps(s, r);
    LoggedShows(ix, k, doc);
    hide Stored, AutoFlushed, Logged, Shows, CommandPasses;
    FinishedStages(ix, r);
    NothingPassed(ix, r);
    if doc.terms > 0 {
      OnePasses(ix, r, s, Logged(s, r).disk);
      AppliedShows(ix, r);
      OnePasses(ix, r, Applied(ix, r), Applied(ix, r).disk);
    }
  }

  lemma DeleteIsReady(ix: Index, k: Key)
    requires Rooted(ix)
    ensures Structured(ix) && ix.writer in ix.shelf
    ensures var r := Deleted(k);
            CommandPasses(ix, r, []) &&
            (k in ix.keymap ==>
               var t := Tombstoned(ix, ix.keymap[k]);
               && ix.keymap[k].generation in ix.shelf && Deletable(ix, k)
               && CommandPasses(ix, r, [t.disk]) && CommandPasses(ix, r, [Forgotten(t, k).disk])
               && CommandPasses(ix, r, [Applied(ix, r).disk]))
  {
    if k in ix.keymap {
      var r, t := Deleted(k), Tombstoned(ix, ix.keymap[k]);
      assert ix.keymap[k].generation in Elements(ix.order) + {ix.writer};
      TombstonedShows(ix, k);
      ForgottenShows(ix, k);
      hide Shows, CommandPasses, Stage, Tombstoned;
      OnePasses(ix, r, t, t.disk);
      OnePasses(ix, r, Applied(ix, r), Forgotten(t, k).disk);
      OnePasses(ix, r, Applied(ix, r), Applied(ix, r).disk);
    }
  }

  // ------------------------------------------------------------------- while replaying

  /** Each directory stands for the map. */
  ghost predicate AllStanding(passed: seq<Disk>, view: map<Key, Document>, wal: seq<WalRecord>) {
    forall i :: 0 <= i < |passed| ==> Standing(passed[i], view, wal)
  }

  lemma PassedStands(ix: Index, r: WalRecord, passed: seq<Disk>, view: map<Key, Document>, wal: seq<WalRecord>)
    requires Rooted(ix) && ix.replaying && SettledOff(ix, view, wal) && WellLogged(wal) && r in wal && ix.disk.wal == wal
    requires CommandPasses(ix, r, passed)
    ensures AllStanding(passed, view, wal)
  {
    assert !ix.disk.marker;
    hide Rooted, SettledOff, Standing, Stage, SameSegments;
    forall i | 0 <= i < |passed| ensures Standing(passed[i], view, wal) {
      assert PassesThrough(ix, r, passed[i]);
      var s :| Stage(ix, r, s) && Shows(passed[i], s, ix);
      ReplayedStageStands(passed[i], ix, r, s, view, wal);
    }
  }

  lemma {:induction false} ReplayIsRooted(ix: Index, wal: seq<WalRecord>, n: nat)
    requires Rooted(ix) && ix.replaying && WellLogged(wal) && n <= |wal|
    ensures ix.writer in ix.shelf && Rooted(Replayed(ix, wal[..n])) && Replayed(ix, wal[..n]).replaying
  {
    hide Rooted, Applied, Loggable;
    RootedHasWriter(ix);
    if n > 0 {
      ReplayIsRooted(ix, wal, n - 1);
      assert wal[..n][..n - 1] == wal[..n - 1];
      RootedApplied(Replayed(ix, wal[..n - 1]), wal[n - 1]);
    }
  }

  /** What a replay of the log passes through, record by record. */
  ghost predicate PassesInReplay(ix: Index, wal: seq<WalRecord>, e: Disk)
    requires ix.writer in ix.shelf
  {
    exists i: nat :: i < |wal| && PassesThrough(Replayed(ix, wal[..i]), wal[i], e)
  }

  ghost predicate ReplayPasses(ix: Index, wal: seq<WalRecord>, passed: seq<Disk>)
    requires ix.writer in ix.shelf
  {
    forall e :: e in passed ==> PassesInReplay(ix, wal, e)
  }

  lemma RecordPassed(ix: Index, wal: seq<WalRecord>, sofar: seq<Disk>, n: nat, passed: seq<Disk>)
    requires ix.writer in ix.shelf && ReplayPasses(ix, wal, sofar)
    requires n < |wal| && CommandPasses(Replayed(ix, wal[..n]), wal[n], passed)
    ensures ReplayPasses(ix, wal, sofar + passed)
  {
    hide PassesThrough, Replayed;
  }

  /** All of it stands for the map. */
  lemma ReplayPassedStands(ix: Index, view: map<Key, Document>, wal: seq<WalRecord>, passed: seq<Disk>)
    requires Rooted(ix) && ix.replaying && SettledOff(ix, view, wal) && WellLogged(wal) && ix.disk.wal == wal
    requires ix.writer in ix.shelf && ReplayPasses(ix, wal, passed)
    ensures AllStanding(passed, view, wal)
  {
    hide Rooted, SettledOff, Standing, PassesThrough, Replayed;
    forall n | 0 <= n < |passed| ensures Standing(passed[n], view, wal) {
      var e := passed[n];
      assert PassesInReplay(ix, wal, e);
      var i: nat :| i < |wal| && PassesThrough(Replayed(ix, wal[..i]), wal[i], e);
      ReplayStands(ix, view, wal, i);
      assert wal[i] in wal;
      PassedStands(Replayed(ix, wal[..i]), wal[i], [e], view, wal);
      assert [e][0] == e;
    }
  }

  /** And it is what LeftInReplay allows a crash to leave. */
  lemma PassedIsLeft(d: Disk, policy: Policy, e: Disk)
    requires Openable(d) && Rooted(Opened(d, policy)) && WellLogged(d.wal)
    requires var start := Opened(d, policy).(replaying := true);
             start.writer in start.shelf && PassesInReplay(start, d.wal, e)
    ensures exists i: nat :: i < |d.wal| && LeftInReplay(d, policy, i, e)
  {
    var start := Opened(d, policy).(replaying := true);
    assert start.disk.wal == d.wal;
    RootedStart(Opened(d, policy));
    hide Opened, Stage, SameSegments, Loggable, Rooted, Replayed;
    var i: nat :| i < |d.wal| && PassesThrough(Replayed(start, d.wal[..i]), d.wal[i], e);
    ReplayIsRooted(start, d.wal, i);
    RootedStart(Replayed(start, d.wal[..i]));
    ReplayKeepsLog(start, d.wal[..i]);
    assert LeftInReplay(d, policy, i, e);
  }

  lemma RootedStart(ix: Index)
    requires Rooted(ix)
    ensures Rooted(ix.(replaying := true)) && !ix.disk.marker
  {
  }
}
