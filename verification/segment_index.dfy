/**
 The index as a program: one object whose methods change its fields and its directory
 a step at a time.  `history` records the directory after every single write, so that
 a method's contract can also speak of the directories a crash inside it leaves.
 */
module LiveIndex {
  import opened Sequences
  import opened SegmentModel
  import opened Shelves
  import opened Renumbering
  import opened Rebuild
  import opened RebuildScan
  import opened Operations
  import opened Mutations
  import opened Compaction
  import opened Recovery
  import opened Durability
  import opened Reopening
  import opened CrashSafety
  import opened Runs
  import opened CrashSteps
  import opened ReplayCrash
  import opened CommandSteps
  import opened RecoverySteps
  import opened Restarts
  import opened Handles
  import opened DocumentCount
  import opened Maintenance
  import opened Resting

  lemma WriterIsShelved(ix: Index)
    requires Structured(ix)
    ensures ix.writer in ix.shelf && ix.next !in ix.order
    ensures Mirrored(ix) ==> ix.disk.log == Some(ix.keymap) && ix.disk.next == ix.next
  {
    assert ix.next !in Elements(ix.order);
  }

  /** What flush() relies on, and what its last write leaves. */
  lemma FlushIsReady(ix: Index)
    requires Structured(ix) && Mirrored(ix)
    ensures ix.writer in ix.shelf
    ensures ix.shelf[ix.writer].docs == [] ==> Flushed(ix) == ix && FlushSteps(ix, [])
    ensures ix.shelf[ix.writer].docs != [] ==>
              && Flushed(ix) == LogEmptied(Registered(ix))
              && (ix.policy.durable && !ix.replaying ==> FlushSteps(ix, [LogEmptied(Registered(ix)).disk]))
  {
    assert ix.writer in ix.shelf;
    if ix.shelf[ix.writer].docs != [] {
      FlushedInParts(ix);
      FlushNamed(ix, ix.next + 1, []);
    }
  }

  lemma FlushStepsJoin(ix: Index, a: seq<Disk>, b: seq<Disk>)
    requires ix.writer in ix.shelf && FlushSteps(ix, a) && FlushSteps(ix, b)
    ensures FlushSteps(ix, a + b)
  {
  }

  lemma RootedIsStructured(ix: Index)
    requires Rooted(ix)
    ensures Structured(ix) && Mirrored(ix) && ix.writer in ix.shelf
  {
  }

  /** What CommandsAreLogged says, for the methods. */
  lemma AddIsLogged(ix: Index, k: Key, doc: Document)
    requires ix.writer in ix.shelf
    ensures ix.policy.durable && !ix.replaying && ix.healthy && doc.terms > 0 && |doc.text| <= 268435456 ==>
              var fills := 0 < ix.policy.flushAfter <= |ix.shelf[ix.writer].docs| + 1;
              && Add(ix, k, doc).healthy && Update(ix, k, doc).healthy
              && Add(ix, k, doc).disk.wal == (if fills then [] else ix.disk.wal + [Added(k, doc)])
              && Update(ix, k, doc).disk.wal == (if fills then [] else ix.disk.wal) + [Updated(k, doc)]
              && Add(ix, k, doc).policy == ix.policy && Update(ix, k, doc).policy == ix.policy
  {
    if ix.policy.durable && !ix.replaying && doc.terms > 0 {
      CommandsAreLogged(ix, k, doc);
      PolicyStays(ix, k, doc);
    }
  }

  lemma PolicyStays(ix: Index, k: Key, doc: Document)
    requires ix.writer in ix.shelf && doc.terms > 0
    ensures Add(ix, k, doc).policy == ix.policy && Update(ix, k, doc).policy == ix.policy
  {
    var sx := Superseding(ix, k, doc);
    assert Update(ix, k, doc) == if k in ix.keymap then Tombstoned(sx, ix.keymap[k]) else sx;
    if k in ix.keymap {
      TombstonedFields(sx, ix.keymap[k]);
    }
    hide Tombstoned;
  }

  lemma DeleteIsLogged(ix: Index, k: Key)
    requires Rooted(ix)
    ensures ix.writer in ix.shelf
    ensures ix.policy.durable && !ix.replaying && ix.healthy && k in ix.keymap ==>
              Delete(ix, k).healthy && Delete(ix, k).disk.wal == ix.disk.wal + [Deleted(k)]
  {
    assert ix.writer in ix.shelf;
    if k in ix.keymap {
      assert ix.keymap[k].generation in Elements(ix.order) + {ix.writer};
      if ix.policy.durable && !ix.replaying {
        CommandsAreLogged(ix, k, Document("", 1));
      }
    }
  }

  lemma NonePass(ix: Index, wal: seq<WalRecord>)
    requires ix.writer in ix.shelf
    ensures ReplayPasses(ix, wal, [])
  {
  }

  /** Each directory is one that a crash inside the replay can leave. */
  ghost predicate AllEnd(d: Disk, policy: Policy, passed: seq<Disk>) {
    forall e :: e in passed ==> exists i: nat :: Ends(d, Opening.Replaying(policy, i, e))
  }

  lemma ReplayEnds(d: Disk, policy: Policy, passed: seq<Disk>)
    requires Openable(d) && Rooted(Opened(d, policy)) && WellLogged(d.wal)
    requires var start := Opened(d, policy).(replaying := true);
             start.writer in start.shelf && ReplayPasses(start, d.wal, passed)
    ensures AllEnd(d, policy, passed)
  {
    hide Openable, Opened, Rooted, WellLogged, PassesInReplay, LeftInReplay;
    forall e | e in passed ensures exists i: nat :: Ends(d, Opening.Replaying(policy, i, e)) {
      PassedIsLeft(d, policy, e);
      var i: nat :| i < |d.wal| && LeftInReplay(d, policy, i, e);
      assert Ends(d, Opening.Replaying(policy, i, e));
    }
  }

  /** What the methods that replay a record require of the index and the record. */
  lemma ReplayedIsReady(ix: Index, wal: seq<WalRecord>, n: nat)
    requires Rooted(ix) && ix.replaying && WellLogged(wal) && n < |wal|
    ensures ix.writer in ix.shelf
    ensures var jx := Replayed(ix, wal[..n]);
            Rooted(jx) && jx.writer in jx.shelf && Replayed(ix, wal[..n + 1]) == Applied(jx, wal[n])
    ensures Loggable(wal[n])
  {
    ReplayIsRooted(ix, wal, n);
    assert wal[..n + 1][..n] == wal[..n];
  }

  /** Recovery's last state, about to replay. */
  lemma ReplayingIsAlike(ix: Index, view: map<Key, Document>, wal: seq<WalRecord>)
    requires Rooted(ix)
    ensures Rooted(ix.(replaying := true))
    ensures SettledOff(ix, view, wal) <==> SettledOff(ix.(replaying := true), view, wal)
  {
    assert forall k :: ReplayCrash.Settled(ix, view, k) <==> ReplayCrash.Settled(ix.(replaying := true), view, k);
  }

  /** What one iteration of maintain() relies on. */
  lemma MaintainStep(ix: Index, mergeFactor: int, ratio: real)
    requires Consistent(ix)
    ensures Structured(ix) && Mirrored(ix) && Stocked(ix.order, ix.shelf)
    ensures var gens := Candidates(ix.order, ix.shelf, mergeFactor, ratio);
            if gens == [] then Quiescent(ix.order, ix.shelf, mergeFactor, ratio)
            else
              && Compactable(ix, gens) && Consistent(Compacted(ix, gens))
              && Contents(Compacted(ix, gens)) == Contents(ix) && Flushable(Compacted(ix, gens)) == Flushable(ix)
              && (mergeFactor >= 2 && ratio >= 0.0 ==> Unrest(Compacted(ix, gens)) < Unrest(ix))
  {
    hide Coherent, Contents, Flushable, Quiescent, Unrest, Compacted, Candidates;
    forall i | 0 <= i < |ix.order| ensures ix.order[i] in ix.shelf {
      assert ix.order[i] in Elements(ix.order);
    }
    var gens := Candidates(ix.order, ix.shelf, mergeFactor, ratio);
    CandidatesArePicked(ix.order, ix.shelf, mergeFactor, ratio);
    if gens != [] {
      CompactPreserves(ix, gens);
      if mergeFactor >= 2 && ratio >= 0.0 {
        CompactionCalms(ix, mergeFactor, ratio);
      }
    }
  }

  lemma ConsistentIsShelved(ix: Index)
    requires Consistent(ix)
    ensures ix.writer in ix.shelf
  {
  }

  lemma OpenedWal(d: Disk, policy: Policy)
    requires Openable(d)
    ensures Opened(d, policy).disk.wal == d.wal && Opened(d, policy).policy == policy && !Opened(d, policy).truncatePending
  {
  }

  class SegmentIndex {
    var order: seq<nat>
    var shelf: Shelf
    var keymap: Keymap
    var next: nat
    var writer: nat
    var policy: Policy
    var healthy: bool
    var replaying: bool
    var truncatePending: bool
    var suppressAdd: bool
    var disk: Disk
    ghost var history: seq<Disk>

    function Snapshot(): Index
      reads this
    {
      Index(order, shelf, keymap, next, writer, policy, healthy, replaying, truncatePending, disk)
    }

    /** One atomic change of the directory. */
    method Write(d: Disk)
      modifies `disk, `history
      ensures disk == d && history == old(history) + [d]
    {
      disk := d;
      history := history + [d];
    }

    /** A segment file, which a crash may cut short. */
    method WriteSegment(g: nat, documents: seq<Entry>) returns (ghost torn: seq<Entry>)
      modifies `disk, `history
      ensures disk == old(disk).(files := old(disk).files[g := documents])
      ensures history == old(history) + [old(disk).(files := old(disk).files[g := torn])] + [disk]
    {
      var part: seq<Entry> := *;
      torn := part;
      var whole := disk.(files := disk.files[g := documents]);
      Write(disk.(files := disk.files[g := part]));
      Write(whole);
    }

    /** The manifest is saved before any file of the new generation exists. */
    method StartNewWriter()
      modifies `shelf, `next, `writer, `disk, `history
      ensures writer == old(next) && next == old(next) + 1
      ensures shelf == WithEmpty(old(shelf), writer)
      ensures disk == old(disk).(next := next)
      ensures history == old(history) + [disk]
    {
      writer := next;
      next := next + 1;
      Write(disk.(next := next));
      shelf := shelf[writer := EMPTY_VOLUME];
    }

    /** finish() and the tombstones: the writer's files, which nothing names yet. */
    method SerialiseWriter() returns (ghost passed: seq<Disk>)
      requires Structured(Snapshot()) && Mirrored(Snapshot()) && shelf[writer].docs != []
      modifies `disk, `history
      ensures disk == FlushFiles(old(Snapshot()))
      ensures history == old(history) + passed && FlushSteps(old(Snapshot()), passed)
    {
      hide Structured, Mirrored, FlushSteps;
      ghost var ix := Snapshot();
      WriterIsShelved(ix);
      var v := shelf[writer];
      ghost var torn := WriteSegment(writer, v.docs);
      SerialisingSteps(ix, torn);
      passed := [ix.disk.(files := ix.disk.files[writer := torn])] + [disk];
      if v.dead != {} {
        Write(disk.(dels := disk.dels[writer := v.dead]));
        passed := passed + [disk];
      }
    }

    /** The manifest names the segment; then the next writer starts. */
    method RegisterWriter(ghost ix: Index) returns (ghost passed: seq<Disk>)
      requires Structured(ix) && Mirrored(ix) && ix.shelf[ix.writer].docs != []
      requires Snapshot() == ix.(disk := FlushFiles(ix))
      modifies `order, `shelf, `next, `writer, `disk, `history
      ensures Snapshot() == Registered(ix)
      ensures history == old(history) + passed && FlushSteps(ix, passed)
    {
      hide Structured, Mirrored, FlushFiles, FlushSteps;
      RegisteringSteps(ix);
      order := order + [writer];
      Write(disk.(order := order));
      passed := [disk];
      StartNewWriter();
      passed := passed + [disk];
    }

    /** The log is only emptied once nothing reads it any more. */
    method EmptyLog()
      modifies `healthy, `truncatePending, `disk, `history
      ensures Snapshot() == LogEmptied(old(Snapshot()))
      ensures history == if policy.durable && !replaying then old(history) + [disk] else old(history)
      ensures disk == old(disk) || disk == old(disk).(wal := [])
    {
      if policy.durable {
        if replaying {
          truncatePending := true;
        } else {
          Write(disk.(wal := []));
          healthy := true;
        }
      }
    }

    /**
     The files first, then the manifest, then the next writer, then the log; a crash
     after any of these writes leaves a directory that recovery understands.
     */
    method Flush()
      requires Structured(Snapshot()) && Mirrored(Snapshot())
      modifies `order, `shelf, `next, `writer, `healthy, `truncatePending, `disk, `history
      ensures Snapshot() == Flushed(old(Snapshot()))
      ensures old(history) <= history && FlushSteps(old(Snapshot()), history[|old(history)|..])
    {
      hide Structured, Mirrored, Leaves, FlushFiles, Flushed, Registered, FlushSteps;
      FlushIsReady(Snapshot());
      if |shelf[writer].docs| == 0 {
        assert history[|history|..] == [];
        return;
      }
      ghost var ix, before := Snapshot(), history;
      ghost var files := SerialiseWriter();
      ghost var names := RegisterWriter(ix);
      EmptyLog();
      FlushStepsJoin(ix, files, names);
      if history == before + files + names + [disk] {
        FlushStepsJoin(ix, files + names, [disk]);
        assert history == before + (files + names + [disk]);
      } else {
        assert history == before + (files + names);
      }
    }

    // ------------------------------------------------------- documents in and out

    method KeymapAdd(k: Key, loc: Loc)
      modifies `keymap, `disk, `history
      ensures keymap == old(keymap)[k := loc] && disk == old(disk).(log := LogPut(old(disk).log, k, loc))
      ensures history == old(history) + [disk]
    {
      keymap := keymap[k := loc];
      Write(disk.(log := LogPut(disk.log, k, loc)));
    }

    method KeymapRemove(k: Key)
      modifies `keymap, `disk, `history
      ensures keymap == old(keymap) - {k} && disk == old(disk).(log := LogDrop(old(disk).log, k))
      ensures history == old(history) + [disk]
    {
      keymap := keymap - {k};
      Write(disk.(log := LogDrop(disk.log, k)));
    }

    method AppendRecord(r: WalRecord) returns (ghost passed: seq<Disk>)
      modifies `healthy, `disk, `history
      ensures Snapshot() == Logged(old(Snapshot()), r)
      ensures history == old(history) + passed && (passed == [] || passed == [disk])
    {
      passed := [];
      if policy.durable && !replaying && healthy {
        if !Recordable(r) {
          healthy := false;
        } else {
          Write(disk.(wal := disk.wal + [r]));
          passed := [disk];
        }
      }
    }

    /** index_document() and the keymap entry. */
    method StoreDocument(k: Key, doc: Document) returns (loc: Loc)
      requires writer in shelf
      modifies `shelf, `keymap, `disk, `history
      ensures Snapshot() == Stored(old(Snapshot()), k, doc)
      ensures loc == Mark(old(Snapshot()))
      ensures history == old(history) + [disk]
    {
      var v := shelf[writer];
      loc := Loc(writer, |v.docs|);
      shelf := shelf[writer := v.(docs := v.docs + [Entry(k, doc)])];
      KeymapAdd(k, loc);
    }

    /** A full writer is flushed. */
    method AutoFlush() returns (ghost passed: seq<Disk>)
      requires Structured(Snapshot()) && Mirrored(Snapshot())
      modifies `order, `shelf, `next, `writer, `healthy, `truncatePending, `disk, `history
      ensures Snapshot() == AutoFlushed(old(Snapshot()))
      ensures history == old(history) + passed && AutoFlushSteps(old(Snapshot()), passed)
    {
      passed := [];
      if policy.flushAfter > 0 && |shelf[writer].docs| >= policy.flushAfter {
        ghost var before := history;
        Flush();
        passed := history[|before|..];
      }
    }

    /** -1 when the document has no terms, else the handle of the place it was given. */
    method AddDocument(k: Key, doc: Document) returns (handle: int, ghost passed: seq<Disk>)
      requires Structured(Snapshot()) && Mirrored(Snapshot()) && ValidKey(k)
      modifies `order, `shelf, `keymap, `next, `writer, `healthy, `truncatePending, `disk, `history
      ensures handle == if doc.terms == 0 then -1 else Handle(Mark(old(Snapshot())))
      ensures doc.terms == 0 ==> Snapshot() == old(Snapshot()) && passed == []
      ensures doc.terms > 0 && suppressAdd ==> Snapshot() == AutoFlushed(Stored(old(Snapshot()), k, doc))
      ensures doc.terms > 0 && !suppressAdd ==> Snapshot() == Add(old(Snapshot()), k, doc)
      ensures old(policy.durable && healthy && !replaying && !suppressAdd && writer in shelf) && doc.terms > 0 && |doc.text| <= 268435456 ==>
                && healthy
                && disk.wal == if 0 < policy.flushAfter <= |old(shelf[writer].docs)| + 1 then [] else old(disk.wal) + [Added(k, doc)]
      ensures history == old(history) + passed && StoringPasses(old(Snapshot()), k, doc, passed)
    {
      hide Structured, Mirrored, Stored, Logged, Mark, AutoFlushed, StoringPasses, Add, Update;
      StoringIsReady(Snapshot(), k, doc);
      AddIsLogged(Snapshot(), k, doc);
      if doc.terms == 0 {
        return -1, [];
      }
      handle, passed := IndexDocument(k, doc);
    }

    /** The document, its log record unless an update writes it, and a flush if that fills the writer. */
    method IndexDocument(k: Key, doc: Document) returns (handle: int, ghost passed: seq<Disk>)
      requires Structured(Snapshot()) && Mirrored(Snapshot()) && ValidKey(k) && doc.terms > 0
      modifies `order, `shelf, `keymap, `next, `writer, `healthy, `truncatePending, `disk, `history
      ensures handle == Handle(Mark(old(Snapshot()))) && old(writer in shelf)
      ensures Snapshot() == if suppressAdd then AutoFlushed(Stored(old(Snapshot()), k, doc)) else Add(old(Snapshot()), k, doc)
      ensures history == old(history) + passed && StoringPasses(old(Snapshot()), k, doc, passed)
    {
      hide Structured, Mirrored, Stored, Logged, Mark, AutoFlushed, StoringPasses, AutoFlushSteps;
      StoringIsReady(Snapshot(), k, doc);
      ghost var ix := Snapshot();
      var loc := StoreDocument(k, doc);
      passed := [disk];
      if !suppressAdd {
        ghost var logged := AppendRecord(Added(k, doc));
        PassesJoin(ix, k, doc, passed, logged);
        passed := passed + logged;
      }
      handle := Handle(loc);
      ghost var s := Snapshot();
      ghost var flushing := AutoFlush();
      FlushPasses(ix, k, doc, s, flushing);
      PassesJoin(ix, k, doc, passed, flushing);
      passed := passed + flushing;
    }

    /** Whether no open segment has that generation. */
    method Tombstone(loc: Loc) returns (unknown: bool, ghost passed: seq<Disk>)
      requires Structured(Snapshot())
      modifies `shelf, `disk, `history
      ensures Snapshot() == Tombstoned(old(Snapshot()), loc)
      ensures unknown <==> loc.generation !in old(shelf)
      ensures history == old(history) + passed && (passed == [] || passed == [disk])
    {
      passed := [];
      if loc.generation == writer {
        shelf := Kill(shelf, loc);
        return false, [];
      }
      for which := 0 to |order|
        invariant Snapshot() == old(Snapshot()) && history == old(history)
        invariant loc.generation !in order[..which]
      {
        if order[which] == loc.generation {
          shelf := Kill(shelf, loc);
          Write(disk.(dels := disk.dels[loc.generation := shelf[loc.generation].dead]));
          return false, [disk];
        }
      }
      assert order[..|order|] == order;
      return true, [];
    }

    method UpdateDocument(k: Key, doc: Document) returns (handle: int, ghost passed: seq<Disk>)
      requires Rooted(Snapshot()) && ValidKey(k) && !suppressAdd
      modifies this
      ensures Snapshot() == Update(old(Snapshot()), k, doc) && !suppressAdd
      ensures old(policy.durable && healthy && !replaying && writer in shelf) && doc.terms > 0 && |doc.text| <= 268435456 ==>
                && healthy
                && disk.wal == (if 0 < policy.flushAfter <= |old(shelf[writer].docs)| + 1 then [] else old(disk.wal)) + [Updated(k, doc)]
      ensures handle == if doc.terms == 0 then -1 else Handle(Mark(old(Snapshot())))
      ensures history == old(history) + passed && CommandPasses(old(Snapshot()), Updated(k, doc), passed)
    {
      hide Rooted, Structured, Mirrored, Stored, AutoFlushed, Tombstoned, Logged, CommandPasses, StoringPasses, Update, Mark;
      ghost var ix := Snapshot();
      UpdateIsReady(ix, k, doc);
      AddIsLogged(ix, k, doc);
      var r := Updated(k, doc);
      var mapped := k in keymap;
      var prior := if mapped then keymap[k] else Loc(0, 0);
      suppressAdd := true;
      handle, passed := AddDocument(k, doc);
      suppressAdd := false;
      StoringIsPart(ix, r, passed);
      if handle < 0 {
        return -1, [];
      }
      passed := RecordUpdate(ix, r, mapped, prior, passed);
    }

    /** The update's log record, then the old copy's tombstone. */
    method RecordUpdate(ghost ix: Index, r: WalRecord, mapped: bool, prior: Loc, ghost sofar: seq<Disk>)
      returns (ghost passed: seq<Disk>)
      requires Rooted(ix) && r.Updated? && ValidKey(r.key) && r.document.terms > 0
      requires ix.writer in ix.shelf && Snapshot() == AutoFlushed(Stored(ix, r.key, r.document))
      requires (mapped <==> r.key in ix.keymap) && (mapped ==> prior == ix.keymap[r.key])
      requires CommandPasses(ix, r, sofar) && |sofar| <= |history| && history[|history| - |sofar|..] == sofar
      modifies `shelf, `healthy, `disk, `history
      ensures Snapshot() == Update(ix, r.key, r.document)
      ensures history == old(history[..|history| - |sofar|]) + passed && CommandPasses(ix, r, passed)
    {
      hide Rooted, Structured, Mirrored, Stored, AutoFlushed, Tombstoned, Logged, CommandPasses, Update;
      UpdateIsReady(ix, r.key, r.document);
      passed := sofar;
      assert history == history[..|history| - |sofar|] + sofar;
      ghost var logged := AppendRecord(r);
      CommandsJoin(ix, r, passed, logged);
      passed := passed + logged;
      if mapped {
        ghost var retired;
        var unknown;
        unknown, retired := Tombstone(prior);
        CommandsJoin(ix, r, passed, retired);
        passed := passed + retired;
      }
    }

    method DeleteDocument(k: Key) returns (ok: bool, ghost passed: seq<Disk>)
      requires Rooted(Snapshot())
      modifies `shelf, `keymap, `healthy, `disk, `history
      ensures Snapshot() == Delete(old(Snapshot()), k)
      ensures ok <==> k in old(keymap)
      ensures old(policy.durable && healthy && !replaying) && ok ==> healthy && disk.wal == old(disk.wal) + [Deleted(k)]
      ensures history == old(history) + passed && CommandPasses(old(Snapshot()), Deleted(k), passed)
    {
      hide Rooted, Structured, Mirrored, Tombstoned, Logged, CommandPasses;
      ghost var ix := Snapshot();
      DeleteIsReady(ix, k);
      DeleteIsLogged(ix, k);
      var r := Deleted(k);
      passed := [];
      if k !in keymap {
        return false, [];
      }
      var unknown;
      unknown, passed := Tombstone(keymap[k]);
      if unknown {
        return false, passed;
      }
      KeymapRemove(k);
      CommandsJoin(ix, r, passed, [disk]);
      passed := passed + [disk];
      ghost var logged := AppendRecord(r);
      CommandsJoin(ix, r, passed, logged);
      passed := passed + logged;
      return true, passed;
    }

    /** The number of live documents, which is the number of keys. */
    method GetDocumentCount() returns (total: int)
      requires Consistent(Snapshot())
      ensures total == |keymap|
    {
      total := |shelf[writer].docs| - |shelf[writer].dead|;
      hide Coherent, Mirrored;
      for which := 0 to |order|
        invariant total == VolumeCount(shelf[writer]) + SummedCount(shelf, order[..which])
      {
        assert order[..which + 1][..which] == order[..which];
        total := total + |shelf[order[which]].docs| - |shelf[order[which]].dead|;
      }
      assert order[..|order|] == order == (order + [writer])[..|order|];
      DocumentCountIsKeymapSize(shelf, keymap, order + [writer]);
    }

    // ------------------------------------------------------------------ compact()

    /** Every input named once, and open. */
    method Resolve(generations: seq<nat>) returns (ok: bool)
      ensures ok <==> Compactable(Snapshot(), generations)
    {
      if |generations| < 1 {
        return false;
      }
      for input := 0 to |generations|
        invariant forall i, j :: 0 <= i < j < input ==> generations[i] != generations[j]
        invariant forall i :: 0 <= i < input ==> generations[i] in order
      {
        for which := 0 to input
          invariant forall i :: 0 <= i < which ==> generations[i] != generations[input]
        {
          if generations[which] == generations[input] {
            return false;
          }
        }
        var found := false;
        for which := 0 to |order|
          invariant found <==> generations[input] in order[..which]
        {
          if order[which] == generations[input] {
            found := true;
          }
        }
        assert order[..|order|] == order;
        if !found {
          return false;
        }
      }
      return true;
    }

    /** The elements after `which` move down one place. */
    static method ShiftDown(list: seq<nat>, which: nat) returns (rest: seq<nat>)
      requires which < |list|
      ensures rest == list[..which] + list[which + 1..]
    {
      rest := list;
      for shuffle := which to |list| - 1
        invariant |rest| == |list|
        invariant forall i :: 0 <= i < which ==> rest[i] == list[i]
        invariant forall i :: which < i <= shuffle ==> rest[i - 1] == list[i]
        invariant forall i :: shuffle <= i < |list| ==> rest[i] == list[i]
      {
        rest := rest[shuffle := rest[shuffle + 1]];
      }
      rest := rest[..|list| - 1];
    }

    static method Remove(list: seq<nat>, g: nat) returns (rest: seq<nat>)
      requires Distinct(list)
      ensures rest == Without(list, {g})
    {
      for which := 0 to |list|
        invariant g !in list[..which]
      {
        if list[which] == g {
          WithoutOne(list, which);
          rest := ShiftDown(list, which);
          return;
        }
      }
      assert list[..|list|] == list;
      WithoutAbsent(list, {g});
      return list;
    }

    static method RemoveAll(list: seq<nat>, gens: seq<nat>) returns (rest: seq<nat>)
      requires Distinct(list)
      ensures rest == Without(list, Elements(gens))
    {
      rest := list;
      WithoutAbsent(list, {});
      assert Elements(gens[..0]) == {};
      for input := 0 to |gens|
        invariant rest == Without(list, Elements(gens[..input]))
      {
        WithoutKeepsDistinct(list, Elements(gens[..input]));
        WithoutNext(list, gens, input);
        rest := Remove(rest, gens[input]);
      }
      assert gens[..|gens|] == gens;
    }

    /** Steps 1 to 3: burn the output's generation, write its file, mark the swap. */
    method WriteOutput(generations: seq<nat>) returns (output: nat, documents: seq<Entry>, ghost passed: seq<Disk>)
      requires Structured(Snapshot()) && Mirrored(Snapshot()) && Compactable(Snapshot(), generations)
      modifies `next, `disk, `history
      ensures output == old(next) && next == old(next) + 1
      ensures documents == MergedDocs(shelf, generations)
      ensures disk == Unswapped(old(Snapshot()), documents, true, old(disk).log)
      ensures history == old(history) + passed && CompactionSteps(old(Snapshot()), generations, passed)
    {
      ghost var ix := Snapshot();
      hide Structured, Mirrored, Compactable, CompactionSteps, MergedDocs;
      output := next;
      next := next + 1;
      Write(disk.(next := next));
      documents := MergeInputs(generations);
      ghost var torn := WriteSegment(output, documents);
      Write(disk.(marker := true));
      passed := [ix.disk.(next := next)] + [Unswapped(ix, torn, ix.disk.marker, ix.disk.log)]
              + [Unswapped(ix, documents, ix.disk.marker, ix.disk.log)] + [disk];
      WritingSteps(ix, generations, torn, documents);
    }

    /** The merge proper, through the renumbering table. */
    method MergeInputs(generations: seq<nat>) returns (documents: seq<Entry>)
      ensures documents == MergedDocs(shelf, generations)
    {
      var inputs := Inputs(shelf, generations);
      var renumberer := new DocidRenumberer(inputs);
      documents := renumberer.Rewrite(inputs);
    }

    /** Step 4: open the output and point every merged key at it. */
    method Repoint(output: nat, documents: seq<Entry>) returns (ghost passed: seq<Disk>)
      requires disk.log == Some(keymap)
      modifies `order, `shelf, `keymap, `disk, `history
      ensures order == old(order) + [output] && shelf == old(shelf)[output := Volume(documents, {})]
      ensures keymap == Remapped(old(keymap), output, documents, |documents|)
      ensures disk == old(disk).(log := Some(keymap))
      ensures history == old(history) + passed && Logging(old(disk), passed)
    {
      order := order + [output];
      shelf := shelf[output := Volume(documents, {})];
      passed := [];
      for docid := 0 to |documents|
        modifies `keymap, `disk, `history
        invariant keymap == Remapped(old(keymap), output, documents, docid)
        invariant disk == old(disk).(log := Some(keymap))
        invariant history == old(history) + passed && Logging(old(disk), passed)
      {
        KeymapAdd(documents[docid].key, Loc(output, docid));
        passed := passed + [disk];
      }
    }

    /** Step 6: the inputs leave segments[]. */
    method DropInputs(generations: seq<nat>)
      requires Distinct(order)
      modifies `order, `shelf
      ensures order == Without(old(order), Elements(generations))
      ensures shelf == old(shelf) - Elements(generations)
    {
      order := RemoveAll(order, generations);
      for input := 0 to |generations|
        modifies `shelf
        invariant shelf == old(shelf) - Elements(generations[..input])
      {
        assert Elements(generations[..input + 1]) == Elements(generations[..input]) + {generations[input]};
        shelf := shelf - {generations[input]};
      }
      assert generations[..|generations|] == generations;
    }

    /** Last of all the inputs' files go. */
    method DeleteInputs(generations: seq<nat>) returns (ghost passed: seq<Disk>)
      modifies `disk, `history
      ensures disk == old(disk).(files := old(disk).files - Elements(generations), dels := old(disk).dels - Elements(generations))
      ensures history == old(history) + passed
      ensures Deleting(old(disk), generations, passed)
    {
      passed := [];
      for input := 0 to |generations|
        invariant disk == FilesGone(old(disk), Elements(generations[..input]), Elements(generations[..input]))
        invariant history == old(history) + passed
        invariant Deleting(old(disk), generations, passed)
      {
        var g := generations[input];
        assert Elements(generations[..input + 1]) == Elements(generations[..input]) + {g};
        Write(disk.(files := disk.files - {g}));
        assert disk == FilesGone(old(disk), Elements(generations[..input + 1]), Elements(generations[..input]));
        passed := passed + [disk];
        Write(disk.(dels := disk.dels - {g}));
        passed := passed + [disk];
      }
      assert generations[..|generations|] == generations;
    }

    /** Step 5: one saved manifest puts the output in the inputs' place. */
    method SaveSwap(ghost ix: Index, generations: seq<nat>, output: nat)
      requires Structured(ix) && Mirrored(ix) && output == ix.next
      requires disk == Unswapped(ix, MergedDocs(ix.shelf, generations), true,
                                 Some(CompactedKeymap(ix.shelf, ix.keymap, generations, ix.next)))
      modifies `disk, `history
      ensures disk == Swapped(ix, generations, {}, {}, true) && history == old(history) + [disk]
    {
      assert Distinct(disk.order) && disk.order == ix.order;
      SwappedShape(ix, generations, {}, {});
      hide Structured, Mirrored, MergedDocs, CompactedKeymap, Swapped, Unswapped;
      var names := RemoveAll(disk.order, generations);
      Write(disk.(order := names + [output]));
    }

    /** The end of step 6: the inputs' files, then the marker. */
    method RemoveInputFiles(ghost ix: Index, generations: seq<nat>) returns (ghost passed: seq<Disk>)
      requires Mirrored(ix) && disk == Swapped(ix, generations, {}, {}, true)
      modifies `disk, `history
      ensures disk == Swapped(ix, generations, Elements(generations), Elements(generations), false)
      ensures history == old(history) + passed + [disk] && Deleting(old(disk), generations, passed)
    {
      SwappedShape(ix, generations, Elements(generations), Elements(generations));
      hide Mirrored, Deleting, Swapped;
      passed := DeleteInputs(generations);
      Write(disk.(marker := false));
    }

    /** Steps 1 to 4. */
    method MergeAndRepoint(generations: seq<nat>) returns (ghost passed: seq<Disk>)
      requires Structured(Snapshot()) && Mirrored(Snapshot()) && Compactable(Snapshot(), generations)
      modifies `order, `shelf, `keymap, `next, `disk, `history
      ensures Snapshot() == Repointed(old(Snapshot()), generations)
      ensures history == old(history) + passed && CompactionSteps(old(Snapshot()), generations, passed)
    {
      hide Structured, Mirrored, Compactable, CompactionSteps, Logging, MergedDocs, Remapped;
      ghost var ix := Snapshot();
      WriterIsShelved(ix);
      var output, documents;
      ghost var written, repointed;
      output, documents, written := WriteOutput(generations);
      repointed := Repoint(output, documents);
      RepointingSteps(ix, generations, documents, repointed);
      CompactionStepsJoin(ix, generations, written, repointed);
      passed := written + repointed;
    }

    /** Step 6 without step 5: memory moves on, the directory does not. */
    method DropOnly(ghost ix: Index, generations: seq<nat>)
      requires Structured(ix) && Mirrored(ix) && Compactable(ix, generations)
      requires Snapshot() == Repointed(ix, generations).(disk := disk)
      modifies `order, `shelf
      ensures Snapshot() == Compacted(ix, generations).(disk := disk)
    {
      SwappedMemory(ix, generations, disk);
      hide Structured, Mirrored, Compactable, Compacted, MergedDocs, CompactedKeymap, Unswapped;
      DropInputs(generations);
    }

    /** Steps 5 and 6 once the manifest has been saved. */
    method Swap(ghost ix: Index, generations: seq<nat>, output: nat) returns (ghost passed: seq<Disk>)
      requires Structured(ix) && Mirrored(ix) && Compactable(ix, generations)
      requires Snapshot() == Repointed(ix, generations) && output == ix.next
      modifies `order, `shelf, `disk, `history
      ensures Snapshot() == Compacted(ix, generations)
      ensures history == old(history) + passed && CompactionSteps(ix, generations, passed)
    {
      hide Structured, Mirrored, Compactable, Leaves, CompactionSteps, Compacted, MergedDocs, CompactedKeymap, Unswapped, Swapped, Repointed, Deleting;
      RepointedIsLeft(ix, generations, disk);
      CompactedDisk(ix, generations);
      SaveSwap(ix, generations, output);
      DropOnly(ix, generations);
      ghost var deleting := RemoveInputFiles(ix, generations);
      SwappingSteps(ix, generations, deleting);
      passed := [Swapped(ix, generations, {}, {}, true)] + deleting + [disk];
    }

    /**
     Merge the named segments into a new one.  False when the names are unusable, which
     changes nothing; or when the manifest cannot be saved at the swap, after which this
     object shows the merged index while the directory still recovers the old one.
     */
    method Compact(generations: seq<nat>, manifestSaves: bool) returns (ok: bool)
      requires Structured(Snapshot()) && Mirrored(Snapshot())
      modifies `order, `shelf, `keymap, `next, `disk, `history
      ensures ok <==> Compactable(old(Snapshot()), generations) && manifestSaves
      ensures ok ==> Snapshot() == Compacted(old(Snapshot()), generations)
      ensures !Compactable(old(Snapshot()), generations) ==> Snapshot() == old(Snapshot())
      ensures Compactable(old(Snapshot()), generations) && !manifestSaves ==>
                && Snapshot() == Compacted(old(Snapshot()), generations).(disk := disk)
                && Leaves(old(Snapshot()), Compacting(generations, false), disk)
      ensures old(history) <= history
      ensures Compactable(old(Snapshot()), generations) ==>
                CompactionSteps(old(Snapshot()), generations, history[|old(history)|..])
    {
      hide Structured, Mirrored, Compactable, Leaves, CompactionSteps, Compacted, MergedDocs, CompactedKeymap, Repointed;
      var usable := Resolve(generations);
      if !usable {
        return false;
      }
      ghost var ix, before := Snapshot(), history;
      var output := next;
      WriterIsShelved(ix);
      ghost var merged := MergeAndRepoint(generations);
      if !manifestSaves {
        DropOnly(ix, generations);
        RepointedIsLeft(ix, generations, disk);
        assert history == before + merged;
        return false;
      }
      ghost var swapping := Swap(ix, generations, output);
      CompactionStepsJoin(ix, generations, merged, swapping);
      assert history == before + (merged + swapping);
      return true;
    }

    // ------------------------------------------------------------ rebuild_keymap()

    /** Tombstone a superseded copy in memory only; its segment is saved after the scan. */
    method MarkSuperseded(loc: Loc, dirty: set<nat>) returns (dirtied: set<nat>)
      modifies `shelf
      ensures shelf == if loc.generation in order then Kill(old(shelf), loc) else old(shelf)
      ensures dirtied == if loc.generation in order then dirty + {loc.generation} else dirty
    {
      dirtied := dirty;
      for victim := 0 to |order|
        invariant shelf == old(shelf) && dirtied == dirty
        invariant loc.generation !in order[..victim]
      {
        if order[victim] == loc.generation {
          shelf := Kill(shelf, loc);
          dirtied := dirty + {order[victim]};
          return;
        }
      }
      assert order[..|order|] == order;
    }

    /** One document of the scan: the newer copy of a key wins. */
    method ScanDocument(ghost before: Shelf, which: nat, docid: nat, dirty: set<nat>) returns (dirtied: set<nat>)
      requires Distinct(order) && Stocked(order, before) && which < |order| && docid < |before[order[which]].docs|
      requires Scanned(order, before, Place(which, docid), shelf, keymap)
      requires dirty == Changed(order, before, shelf) && disk.log == Some(keymap)
      modifies `shelf, `keymap, `disk, `history
      ensures Scanned(order, before, Place(which, docid + 1), shelf, keymap)
      ensures dirtied == Changed(order, before, shelf)
      ensures disk == old(disk).(log := Some(keymap))
      ensures history == old(history) || history == old(history) + [disk]
    {
      hide ScannedKeymap, ScannedVolume, Changed, ValidKey;
      AheadIsUntouched(order, before, which, docid, shelf, keymap);
      ScannedDocs(order, before, Place(which, docid), shelf, keymap, which);
      assert order[which] in shelf;
      hide Scanned, Stocked, Distinct, Kill, Reached;
      dirtied := dirty;
      var volume := shelf[order[which]];
      if docid in volume.dead {
        ScanSkips(order, before, which, docid, shelf, keymap);
        return;
      }
      var k := volume.docs[docid].key;
      if !ValidKey(k) {
        ScanSkips(order, before, which, docid, shelf, keymap);
        return;
      }
      ScanRecords(order, before, which, docid, shelf, keymap);
      if k in keymap {
        ScanChanges(order, before, which, docid, shelf, keymap);
        dirtied := MarkSuperseded(keymap[k], dirty);
      }
      KeymapAdd(k, Loc(order[which], docid));
    }

    /** The scan: segments oldest first, docids upwards. */
    method ScanSegments() returns (dirty: set<nat>, ghost passed: seq<Disk>)
      requires Distinct(order) && Stocked(order, shelf)
      requires keymap == map[] && disk.log == Some(map[])
      modifies `shelf, `keymap, `disk, `history
      ensures Scanned(order, old(shelf), Place(|order|, 0), shelf, keymap)
      ensures dirty == Changed(order, old(shelf), shelf)
      ensures disk == old(disk).(log := Some(keymap))
      ensures history == old(history) + passed && Logging(old(disk), passed)
    {
      hide ScannedKeymap, ScannedVolume, ValidKey;
      ghost var before := shelf;
      dirty, passed := {}, [];
      ScanStarts(order, before);
      for which := 0 to |order|
        invariant Scanned(order, before, Place(which, 0), shelf, keymap)
        invariant dirty == Changed(order, before, shelf)
        invariant disk == old(disk).(log := Some(keymap))
        invariant history == old(history) + passed && Logging(old(disk), passed)
      {
        ScannedDocs(order, before, Place(which, 0), shelf, keymap, which);
        var count := |shelf[order[which]].docs|;
        for docid := 0 to count
          invariant Scanned(order, before, Place(which, docid), shelf, keymap)
          invariant dirty == Changed(order, before, shelf)
          invariant disk == old(disk).(log := Some(keymap))
          invariant history == old(history) + passed && Logging(old(disk), passed)
        {
          dirty := ScanDocument(before, which, docid, dirty);
          passed := history[|old(history)|..];
        }
        ScanPassesSegment(order, before, which, shelf, keymap);
      }
    }

    /** Each changed segment's tombstones are saved, once. */
    method SaveChanged(dirty: set<nat>) returns (ghost passed: seq<Disk>)
      requires Distinct(order) && Stocked(order, shelf) && dirty <= Elements(order)
      modifies `disk, `history
      ensures disk == old(disk).(dels := SavedDels(old(disk).dels, shelf, dirty))
      ensures history == old(history) + passed && |passed| == |dirty|
      ensures Saving(old(disk), shelf, dirty, passed)
    {
      hide SavedDels, Saving, Elements, Distinct;
      ghost var saved: set<nat> := {};
      passed := [];
      ElementsAll(order);
      SavingStarts(disk, shelf, dirty);
      for which := 0 to |order|
        invariant saved == dirty * Elements(order[..which]) && |passed| == |saved|
        invariant disk == old(disk).(dels := SavedDels(old(disk).dels, shelf, saved))
        invariant history == old(history) + passed
        invariant Saving(old(disk), shelf, dirty, passed)
      {
        var g := order[which];
        ElementsNext(order, which);
        if g in dirty {
          SavedNext(old(disk).dels, shelf, saved, g);
          SavingGrows(old(disk), shelf, dirty, passed, saved + {g});
          Write(disk.(dels := disk.dels[g := shelf[g].dead]));
          saved := saved + {g};
          passed := passed + [disk];
        }
      }
      assert saved == dirty;
    }

    /** The whole rebuild: the newest copy of each key stays, every other one is tombstoned. */
    method RebuildKeymap() returns (ghost passed: seq<Disk>)
      requires Distinct(order) && Stocked(order, shelf) && shelf.Keys == Elements(order)
      requires keymap == map[] && disk.log == Some(map[])
      modifies `shelf, `keymap, `disk, `history
      ensures keymap == RebuiltKeymap(order, old(shelf)) && shelf == RebuiltShelf(order, old(shelf))
      ensures Stocked(order, shelf)
      ensures disk == old(disk).(log := Some(keymap),
                                 dels := SavedDels(old(disk).dels, shelf, Changed(order, old(shelf), shelf)))
      ensures history == old(history) + passed
      ensures RebuildSteps(old(disk), shelf, Changed(order, old(shelf), shelf), passed)
    {
      hide Scanned, RebuiltKeymap, RebuiltShelf, Changed, SavedDels, Saving, Logging, RebuildSteps;
      ghost var before, first := shelf, disk;
      var dirty;
      ghost var scan, save;
      dirty, scan := ScanSegments();
      ScanEnds(order, before, shelf, keymap);
      RebuiltIsStocked(order, before);
      ChangedAreListed(order, before, shelf);
      save := SaveChanged(dirty);
      ScanThenSave(first, shelf, dirty, scan, Some(keymap), save);
      passed := scan + save;
    }

    // ---------------------------------------------------------------------- open()

    /** Nothing is open yet. */
    constructor ()
      ensures order == [] && history == []
    {
      order, shelf, keymap, next, writer := [], map[], map[], 1, 0;
      policy := Policy(false, 0);
      healthy, replaying, truncatePending, suppressAdd := true, false, false, false;
      disk := NEW_DIRECTORY;
      history := [];
    }

    /** A segment opens when its file is there. */
    method AppendSegment(g: nat) returns (ok: bool)
      modifies `order, `shelf
      ensures ok <==> g in disk.files
      ensures ok ==> order == old(order) + [g] && shelf == old(shelf)[g := Volume(disk.files[g], DelOf(disk, g))]
    {
      if g !in disk.files {
        return false;
      }
      order := order + [g];
      shelf := shelf[g := Volume(disk.files[g], DelOf(disk, g))];
      return true;
    }

    method OpenSegments() returns (ok: bool)
      requires Distinct(disk.order)
      modifies `order, `shelf
      ensures ok <==> Openable(disk)
      ensures ok ==> order == disk.order && shelf == DiskShelf(disk)
    {
      order, shelf := [], map[];
      for which := 0 to |disk.order|
        modifies `order, `shelf
        invariant order == disk.order[..which]
        invariant forall i :: 0 <= i < which ==> disk.order[i] in disk.files
        invariant shelf == map g | g in disk.order[..which] && g in disk.files :: Volume(disk.files[g], DelOf(disk, g))
      {
        var g := disk.order[which];
        assert disk.order[..which + 1] == disk.order[..which] + [g];
        var opens := AppendSegment(g);
        if !opens {
          return false;
        }
      }
      assert disk.order[..|disk.order|] == disk.order;
      return true;
    }

    /** Files whose generation the manifest does not name are removed, in any order. */
    method SweepOrphans() returns (ghost passed: seq<Disk>)
      modifies `disk, `history
      ensures disk == Swept(old(disk))
      ensures history == old(history) + passed
      ensures forall i :: 0 <= i < |passed| ==> Sweeping(old(disk), passed[i])
    {
      hide Orphans, FilesGone, Swept, Sweeping;
      passed := [];
      var orphans := Orphans(disk);
      ghost var swept: set<nat> := {};
      GoneIsSwept(disk);
      while orphans != {}
        invariant swept + orphans == Orphans(old(disk))
        invariant disk == FilesGone(old(disk), swept, swept)
        invariant history == old(history) + passed
        invariant forall i :: 0 <= i < |passed| ==> Sweeping(old(disk), passed[i])
        decreases |orphans|
      {
        var g :| g in orphans;
        orphans := orphans - {g};
        GoneNext(old(disk), swept, swept, g);
        GoneNext(old(disk), swept + {g}, swept, g);
        GoneIsSweeping(old(disk), swept + {g}, swept);
        GoneIsSweeping(old(disk), swept + {g}, swept + {g});
        Write(disk.(files := disk.files - {g}));
        passed := passed + [disk];
        Write(disk.(dels := disk.dels - {g}));
        passed := passed + [disk];
        swept := swept + {g};
      }
    }

    /** load() creates a missing log; a log the marker distrusts is removed and begun afresh. */
    method LoadKeymap(distrust: bool) returns (ghost passed: seq<Disk>)
      modifies `keymap, `disk, `history
      ensures keymap == if distrust || old(disk).log.None? then map[] else old(disk).log.value
      ensures disk == old(disk).(log := Some(keymap))
      ensures history == old(history) + passed && Logging(old(disk), passed)
      ensures !distrust && old(disk).log.Some? ==> passed == []
    {
      passed := [];
      match disk.log {
        case Some(entries) =>
          keymap := entries;
        case None =>
          keymap := map[];
          Write(disk.(log := Some(map[])));
          passed := passed + [disk];
      }
      if distrust {
        Write(disk.(log := None));
        passed := passed + [disk];
        keymap := map[];
        Write(disk.(log := Some(map[])));
        passed := passed + [disk];
      }
    }

    /** Entries whose generation is not open are dropped, and the log told so. */
    method RetainGenerations() returns (ghost passed: seq<Disk>)
      requires Openable(disk) && order == disk.order && !disk.marker && disk.log == Some(keymap)
      modifies `keymap, `disk, `history
      ensures keymap == Retain(old(keymap), Elements(order))
      ensures disk == old(disk).(log := Some(keymap))
      ensures history == old(history) + passed && AllAlike(old(disk), passed)
    {
      hide RecoversAlike, AllAlike, Openable, Stale, Retain;
      NothingIsAlike(disk);
      DropsAdd(keymap, order, {}, "");
      passed := [];
      var stale := Stale(keymap, order);
      ghost var dropped: set<Key> := {};
      while stale != {}
        invariant dropped + stale == Stale(old(keymap), order)
        invariant keymap == old(keymap) - dropped && disk == old(disk).(log := Some(keymap))
        invariant history == old(history) + passed && AllAlike(old(disk), passed)
        decreases |stale|
      {
        var k :| k in stale;
        stale := stale - {k};
        DropsAdd(old(keymap), order, dropped, k);
        dropped := dropped + {k};
        KeymapRemove(k);
        DroppedIsAlike(old(disk), old(keymap), dropped);
        AlikeGrows(old(disk), passed, disk);
        passed := passed + [disk];
      }
    }

    /** Rebuild from the segments, then consume the marker. */
    method RebuildAll(ghost d: Disk) returns (ghost passed: seq<Disk>)
      requires Openable(d) && NeedsRebuild(d)
      requires order == d.order && shelf == DiskShelf(d) && keymap == map[] && disk == Loaded(d)
      modifies `shelf, `keymap, `disk, `history
      ensures shelf == RecoveredShelf(d) && keymap == RecoveredKeymap(d) && disk == Reconciled(d)
      ensures history == old(history) + passed && AllAlike(d, passed) && RecoversAlike(d, disk)
    {
      hide Openable, DiskShelf, RecoveredShelf, RecoveredKeymap, RebuiltShelf, RebuiltKeymap, Loaded, Reconciled, Changed,
           SavedDels, RebuildSteps, AllAlike, RecoversAlike, Stocked;
      RecoveredIsStocked(d);
      RebuiltDirectory(d);
      ReconciledIsAlike(d);
      NothingIsAlike(d);
      LoadedIs(d);
      passed := [];
      if |order| > 0 {
        passed := RebuildKeymap();
        MarkedRebuildIsAlike(d, passed);
      } else {
        EmptyRebuild(d);
      }
      Write(disk.(marker := false));
      AlikeGrows(d, passed, disk);
      passed := passed + [disk];
    }

    /** Rebuild where the log cannot be trusted; otherwise drop the entries that lie. */
    method ReconcileKeymap(ghost d: Disk, died: bool, hadLog: bool) returns (ghost passed: seq<Disk>)
      requires Openable(d) && died == d.marker && hadLog == d.log.Some?
      requires order == d.order && shelf == DiskShelf(d) && disk == Loaded(d) && disk.log == Some(keymap)
      modifies `shelf, `keymap, `disk, `history
      ensures shelf == RecoveredShelf(d) && keymap == RecoveredKeymap(d) && disk == Reconciled(d)
      ensures history == old(history) + passed && AllAlike(d, passed)
      ensures d.marker || d.log.Some? ==> RecoversAlike(d, disk)
    {
      hide Openable, DiskShelf, RecoveredShelf, Retain, Loaded, Reconciled, AllAlike, RecoversAlike, Stocked;
      LoadedIs(d);
      if died || (!hadLog && |order| > 0) {
        passed := RebuildAll(d);
      } else {
        LoadedIsAlike(d);
        RetainedDirectory(d, keymap);
        passed := RetainGenerations();
        AllAlikeThen(d, Loaded(d), passed);
      }
    }

    /** The keymap as its log has it, and every segment the manifest names. */
    method LoadAll(died: bool) returns (ok: bool, ghost passed: seq<Disk>)
      requires Distinct(disk.order) && died == disk.marker
      modifies `order, `shelf, `keymap, `disk, `history
      ensures ok <==> Openable(old(disk))
      ensures disk == old(disk).(log := Loaded(old(disk)).log) && disk.log == Some(keymap)
      ensures ok ==> order == disk.order && shelf == DiskShelf(old(disk))
      ensures ok ==> history == old(history) + passed && AllAlike(old(disk), passed)
    {
      hide Openable, DiskShelf, Loaded, AllAlike;
      ghost var d := disk;
      LoadedIs(d);
      passed := LoadKeymap(died);
      ok := OpenSegments();
      LoggedOpens(d, disk);
      if ok {
        LoadingIsAlike(d, passed);
      }
    }

    /** The sweep, then the keymap: what open() does before it starts a writer. */
    method Tidy(ghost d: Disk, died: bool, hadLog: bool) returns (ghost passed: seq<Disk>)
      requires Openable(d) && died == d.marker && hadLog == d.log.Some?
      requires order == d.order && shelf == DiskShelf(d)
      requires disk == d.(log := Loaded(d).log) && disk.log == Some(keymap)
      modifies `shelf, `keymap, `disk, `history
      ensures shelf == RecoveredShelf(d) && keymap == RecoveredKeymap(d) && disk == Reconciled(d)
      ensures history == old(history) + passed && AllAlike(d, passed)
      ensures d.marker || d.log.Some? ==> RecoversAlike(d, disk)
    {
      hide Openable, DiskShelf, RecoveredShelf, RecoveredKeymap, Reconciled, Loaded, Swept, AllAlike, RecoversAlike, Sweeping;
      LoadedIs(d);
      ghost var sweeping := SweepOrphans();
      SweepingAfterLoad(d, old(disk), sweeping);
      ghost var reconciling := ReconcileKeymap(d, died, hadLog);
      AlikeJoins(d, sweeping, reconciling);
      passed := sweeping + reconciling;
    }

    /** A fresh process: options set, nothing loaded but the manifest. */
    method Begin(d: Disk, p: Policy)
      modifies this
      ensures policy == p && healthy && !replaying && !truncatePending && !suppressAdd
      ensures disk == d && next == Clamp(d.next, d.order) && history == old(history)
    {
      policy, healthy, replaying, truncatePending, suppressAdd := p, true, false, false, false;
      disk := d;
      next := Clamp(d.next, d.order);
    }

    /** open() ends its recovery by starting the writer. */
    method StartFirstWriter(ghost d: Disk)
      requires Openable(d) && next == Clamp(d.next, d.order)
      requires order == d.order && shelf == RecoveredShelf(d) && keymap == RecoveredKeymap(d) && disk == Reconciled(d)
      requires healthy && !replaying && !truncatePending
      modifies `shelf, `next, `writer, `disk, `history
      ensures Snapshot() == Opened(d, policy)
      ensures disk == Reconciled(d).(next := next) && next > d.next && history == old(history) + [disk]
    {
      hide Openable, RecoveredShelf, RecoveredKeymap, Reconciled, Opened;
      OpenedIs(d, policy);
      StartNewWriter();
    }

    /**
     open() up to the replay.  False when a segment the manifest names is missing.
     Every directory on the way recovers exactly as the one open() was given.
     */
    method Recover(d: Disk, p: Policy) returns (ok: bool, ghost passed: seq<Disk>)
      requires Distinct(d.order)
      modifies this
      ensures ok <==> Openable(d)
      ensures ok ==> Snapshot() == Opened(d, p) && !suppressAdd
      ensures ok ==> history == old(history) + passed && AllAlike(d, passed)
    {
      hide Distinct, Openable, DiskShelf, RecoveredShelf, RecoveredKeymap, Reconciled, Loaded, AllAlike, RecoversAlike, Opened;
      Begin(d, p);
      var died, hadLog := disk.marker, disk.log.Some?;
      ok, passed := LoadAll(died);
      if ok {
        ghost var tidying := Tidy(d, died, hadLog);
        AlikeJoins(d, passed, tidying);
        StartFirstWriter(d);
        StartedIsAlike(d, next);
        AlikeGrows(d, passed + tidying, disk);
        passed := passed + tidying + [disk];
      }
    }

    /** One record, through the public methods. */
    method ReplayRecord(record: WalRecord) returns (ghost passed: seq<Disk>)
      requires Rooted(Snapshot()) && Loggable(record) && !suppressAdd
      modifies this
      ensures old(writer in shelf)
      ensures Snapshot() == Applied(old(Snapshot()), record) && !suppressAdd
      ensures history == old(history) + passed && CommandPasses(old(Snapshot()), record, passed)
    {
      hide Rooted, Structured, Mirrored, Add, Update, Delete, CommandPasses, StoringPasses;
      ghost var ix := Snapshot();
      RootedIsStructured(ix);
      match record {
        case Added(k, doc) =>
          var handle;
          handle, passed := AddDocument(k, doc);
          StoringIsPart(ix, record, passed);
        case Updated(k, doc) =>
          var handle;
          handle, passed := UpdateDocument(k, doc);
        case Deleted(k) =>
          var deleted;
          deleted, passed := DeleteDocument(k);
      }
    }

    /**
     The log's records, in order, through the public methods.  Each directory on the way
     stands for what the first one did, so that a crash in between makes no difference.
     */
    method Replay(ghost view: map<Key, Document>) returns (ghost passed: seq<Disk>)
      requires Rooted(Snapshot()) && WellLogged(disk.wal)
      requires replaying && !suppressAdd
      modifies this
      ensures old(writer in shelf)
      ensures Snapshot() == Replayed(old(Snapshot()), old(disk.wal)) && !suppressAdd
      ensures history == old(history) + passed && ReplayPasses(old(Snapshot()), old(disk.wal), passed)
      ensures old(SettledOff(Snapshot(), view, disk.wal)) ==> AllStanding(passed, view, old(disk.wal))
    {
      hide Rooted, Applied, Loggable, SettledOff, CommandPasses, AllStanding, ReplayPasses;
      ghost var ix, wal, settled := Snapshot(), disk.wal, SettledOff(Snapshot(), view, disk.wal);
      RootedHasWriter(ix);
      var position := 0;
      passed := [];
      NonePass(ix, wal);
      assert wal[..0] == [];
      while position < |disk.wal|
        invariant disk.wal == wal && position <= |wal|
        invariant Snapshot() == Replayed(ix, wal[..position]) && !suppressAdd
        invariant history == old(history) + passed && ReplayPasses(ix, wal, passed)
        decreases |wal| - position
      {
        var record := disk.wal[position];
        ReplayedIsReady(ix, wal, position);
        ghost var more := ReplayRecord(record);
        RecordPassed(ix, wal, passed, position, more);
        passed := passed + more;
        position := position + 1;
        ReplayKeepsLog(ix, wal[..position]);
      }
      assert wal[..position] == wal;
      if settled {
        ReplayPassedStands(ix, view, wal, passed);
      }
    }

    /**
     Recovery, then in durable mode the replay and the truncation it deferred.  On the way,
     recovery changes nothing for the next open(), and then each directory of the replay
     stands for the same map; they are what Restarts.Ends allows a crash to leave.
     */
    method Open(d: Disk, p: Policy, ghost view: map<Key, Document>)
      returns (ok: bool, ghost recovered: seq<Disk>, ghost replayed: seq<Disk>)
      requires Distinct(d.order)
      requires Openable(d) && p.durable ==> Rooted(Opened(d, p)) && WellLogged(d.wal)
      modifies this
      ensures ok <==> Openable(d)
      ensures ok ==> Snapshot() == Reopened(d, p) && !suppressAdd
      ensures ok ==> old(history) + recovered + replayed <= history <= old(history) + recovered + replayed + [disk]
      ensures ok ==> AllAlike(d, recovered)
      ensures ok && p.durable && SettledOff(Opened(d, p), view, d.wal) ==> AllStanding(replayed, view, d.wal)
      ensures ok ==> AllEnd(d, p, replayed)
    {
      hide Openable, Opened, Rooted, Replayed, WellLogged, AllAlike, SettledOff, AllStanding, ReplayPasses, Ends;
      ok, recovered := Recover(d, p);
      replayed := [];
      if ok && p.durable {
        OpenedWal(d, p);
        replaying := true;
        ReplayingIsAlike(Opened(d, p), view, d.wal);
        replayed := Replay(view);
        ReplayEnds(d, p, replayed);
        replaying := false;
        if truncatePending {
          Write(disk.(wal := []));
          healthy := true;
          truncatePending := false;
        }
      }
    }

    // ------------------------------------------------------------------- maintain()

    static method CountTier(live: int) returns (tier: nat)
      ensures tier == TierOf(live)
    {
      tier := 1;
      var rest := live;
      while rest >= 10
        invariant tier - 1 + TierOf(rest) == TierOf(live)
        decreases rest
      {
        rest := rest / 10;
        tier := tier + 1;
      }
    }

    method TierAt(which: nat) returns (tier: nat)
      requires which < |order| && order[which] in shelf
      ensures tier == SegmentTier(shelf, order[which])
    {
      var v := shelf[order[which]];
      tier := CountTier(|v.docs| - |v.dead|);
    }

    method CountInTier(tier: nat) returns (members: nat)
      requires Stocked(order, shelf)
      ensures members == |InTier(order, shelf, tier)|
    {
      members := 0;
      for other := 0 to |order|
        invariant members == |InTier(order[..other], shelf, tier)|
      {
        assert order[..other + 1][..other] == order[..other];
        var its := TierAt(other);
        if its == tier {
          members := members + 1;
        }
      }
      assert order[..|order|] == order;
    }

    method CollectTier(tier: nat) returns (candidates: seq<nat>)
      requires Stocked(order, shelf)
      ensures candidates == InTier(order, shelf, tier) || |candidates| == MAX_CANDIDATES
      ensures candidates <= InTier(order, shelf, tier) && |candidates| <= MAX_CANDIDATES
    {
      candidates := [];
      var other := 0;
      while other < |order| && |candidates| < MAX_CANDIDATES
        invariant other <= |order| && |candidates| <= MAX_CANDIDATES
        invariant candidates == InTier(order[..other], shelf, tier)
      {
        assert order[..other + 1][..other] == order[..other];
        var its := TierAt(other);
        if its == tier {
          candidates := candidates + [order[other]];
        }
        other := other + 1;
      }
      InTierPrefix(order, shelf, tier, other);
      assert order[..|order|] == order;
    }

    /** All members of the first crowded tier, in segment order, or the first 1024 of them. */
    method TierCandidates(mergeFactor: int) returns (candidates: seq<nat>)
      requires Stocked(order, shelf) && Distinct(order)
      ensures candidates == TierTrigger(order, shelf, mergeFactor, 0)
      ensures forall i: nat, t: nat :: FirstCrowded(order, shelf, mergeFactor, i, t) ==>
                candidates == AtMost(InTier(order, shelf, t), 1024)
      ensures (forall i: nat, t: nat :: !FirstCrowded(order, shelf, mergeFactor, i, t)) <==> candidates == []
    {
      candidates := PickTier(mergeFactor);
      TierTriggerExactly(order, shelf, mergeFactor);
    }

    /** The first tier with mergeFactor members. */
    method PickTier(mergeFactor: int) returns (candidates: seq<nat>)
      requires Stocked(order, shelf)
      ensures candidates == TierTrigger(order, shelf, mergeFactor, 0)
    {
      candidates := [];
      var which := 0;
      while which < |order| && |candidates| == 0
        invariant which <= |order|
        invariant candidates == [] ==> TierTrigger(order, shelf, mergeFactor, which) == TierTrigger(order, shelf, mergeFactor, 0)
        invariant candidates != [] ==> candidates == TierTrigger(order, shelf, mergeFactor, 0)
      {
        var tier := TierAt(which);
        var members := CountInTier(tier);
        if members >= mergeFactor {
          InTierHas(order, shelf, tier);
          assert order[which] in InTier(order, shelf, tier);
          candidates := CollectTier(tier);
          assert candidates == InTier(order, shelf, tier)[..|candidates|];
        }
        which := which + 1;
      }
    }

    method JoinOverDeleted(chosen: seq<nat>, ratio: real) returns (candidates: seq<nat>)
      requires Stocked(order, shelf)
      ensures candidates == Joined(chosen, order, shelf, ratio)
    {
      candidates := chosen;
      var which := 0;
      while which < |order| && |candidates| < MAX_CANDIDATES
        invariant which <= |order|
        invariant candidates == Joined(chosen, order[..which], shelf, ratio)
      {
        assert order[..which + 1][..which] == order[..which];
        var v := shelf[order[which]];
        if |v.docs| > 0 && |v.dead| as real / |v.docs| as real > ratio {
          var alreadyIn := false;
          for other := 0 to |candidates|
            invariant alreadyIn <==> order[which] in candidates[..other]
          {
            if candidates[other] == order[which] {
              alreadyIn := true;
            }
          }
          assert candidates[..|candidates|] == candidates;
          if !alreadyIn {
            candidates := candidates + [order[which]];
          }
        }
        which := which + 1;
      }
      assert order[..|order|] == order;
      if which < |order| {
        JoinedFull(chosen, order, shelf, ratio, which);
      }
    }

    /** Compact whatever the policy picks, at most ten times over. */
    method Maintain(mergeFactor: int, ratio: real) returns (compactions: nat)
      requires Consistent(Snapshot())
      modifies `order, `shelf, `keymap, `next, `disk, `history
      ensures Consistent(Snapshot())
      ensures Contents(Snapshot()) == old(Contents(Snapshot())) && Flushable(Snapshot()) == old(Flushable(Snapshot()))
      ensures compactions <= 10
      ensures compactions < 10 ==> Quiescent(order, shelf, mergeFactor, ratio)
      ensures old(Structured(Snapshot())) && Snapshot() == Steps(old(Snapshot()), mergeFactor, ratio, compactions)
      ensures mergeFactor >= 2 && ratio >= 0.0 ==> Unrest(Snapshot()) + compactions <= old(Unrest(Snapshot()))
    {
      hide Consistent, Contents, Flushable, Quiescent, Unrest, Compacted, Compactable, CompactionSteps, Leaves;
      compactions := 0;
      ghost var first := Snapshot();
      MaintainStep(first, mergeFactor, ratio);
      while compactions < 10
        invariant Structured(first) && Snapshot() == Steps(first, mergeFactor, ratio, compactions)
        invariant compactions <= 10 && Consistent(Snapshot())
        invariant Contents(Snapshot()) == old(Contents(Snapshot())) && Flushable(Snapshot()) == old(Flushable(Snapshot()))
        invariant mergeFactor >= 2 && ratio >= 0.0 ==> Unrest(Snapshot()) + compactions <= old(Unrest(Snapshot()))
        decreases 10 - compactions
      {
        ghost var ix := Snapshot();
        MaintainStep(ix, mergeFactor, ratio);
        var chosen := TierCandidates(mergeFactor);
        var candidates := JoinOverDeleted(chosen, ratio);
        if |candidates| == 0 {
          return;
        }
        StepsFurther(first, mergeFactor, ratio, compactions);
        var ok := Compact(candidates, true);
        compactions := compactions + 1;
      }
    }
  }
}
