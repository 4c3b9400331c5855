/**
 Crashes inside open()'s replay of the log.  Each directory such a crash can leave still
 stands for the same map: what it holds of keys the log does not mention is as it was, and
 the log, which is kept until the replay is over, says the rest.

 A crash between the two writes of a delete leaves a keymap log that names a dead document.
 Such an entry is called a ghost; it is gone once the log's record of its key is replayed.
 */
module ReplayCrash {
  import opened Sequences
  import opened SegmentModel
  import opened Shelves
  import opened Operations
  import opened Mutations
  import opened Compaction
  import opened Recovery
  import opened Durability
  import opened Reopening
  import opened CrashSafety
  import opened CrashPoints
  import opened Runs
  import opened ReplayedLog
  import opened LooseRuns

  /** Each entry names a stored copy of its key, dead or alive. */
  ghost predicate Rooted(ix: Index) {
    && Structured(ix) && Mirrored(ix)
    && forall k :: k in ix.keymap ==> InRange(ix.shelf, ix.keymap[k]) && EntryAt(ix.shelf, ix.keymap[k]).key == k
  }

  lemma RootedHasWriter(ix: Index)
    requires Rooted(ix)
    ensures ix.writer in ix.shelf
  {
  }

  lemma UsableIsRooted(ix: Index)
    requires Usable(ix)
    ensures Rooted(ix)
  {
  }

  /** The key shows what `view` says, from a flushed segment. */
  ghost predicate Settled(ix: Index, view: map<Key, Document>, k: Key) {
    && (k in ix.keymap <==> k in view)
    && (k in ix.keymap ==>
          && ix.keymap[k].generation in ix.order && Alive(ix.shelf, ix.keymap[k])
          && EntryAt(ix.shelf, ix.keymap[k]).document == view[k])
  }

  /** Keys the log does not mention are settled. */
  ghost predicate SettledOff(ix: Index, view: map<Key, Document>, wal: seq<WalRecord>) {
    forall k :: k !in KeysIn(wal) ==> Settled(ix, view, k)
  }

  // ------------------------------------------- what a command passes through keeps both

  lemma RootedStored(ix: Index, k: Key, doc: Document)
    requires Rooted(ix) && ValidKey(k)
    ensures Rooted(Stored(ix, k, doc))
  {
    var s := Stored(ix, k, doc);
    StoredIs(ix, k, doc);
    StoredIsStructured(ix, k, doc);
    forall x | x in s.keymap ensures InRange(s.shelf, s.keymap[x]) && EntryAt(s.shelf, s.keymap[x]).key == x {
      AppendAt(ix.shelf, ix.writer, Entry(k, doc), s.keymap[x]);
    }
  }

  lemma SettledStored(ix: Index, k: Key, doc: Document, view: map<Key, Document>, x: Key)
    requires Rooted(ix) && x != k && Settled(ix, view, x)
    ensures Settled(Stored(ix, k, doc), view, x)
  {
    StoredIs(ix, k, doc);
    if x in ix.keymap {
      AppendAt(ix.shelf, ix.writer, Entry(k, doc), ix.keymap[x]);
    }
  }

  lemma RootedFlushed(ix: Index)
    requires Rooted(ix)
    ensures Rooted(Flushed(ix))
  {
    FlushedIsStructured(ix);
    FlushedIsMirrored(ix);
    var s := Flushed(ix);
    forall x | x in s.keymap ensures InRange(s.shelf, s.keymap[x]) && EntryAt(s.shelf, s.keymap[x]).key == x {
      assert ix.keymap[x].generation in ix.shelf;
    }
  }

  lemma SettledFlushed(ix: Index, view: map<Key, Document>, x: Key)
    requires Rooted(ix) && Settled(ix, view, x)
    ensures Settled(Flushed(ix), view, x)
  {
    assert ix.next !in ix.shelf;
    hide Structured, Mirrored;
  }

  lemma RootedTombstoned(ix: Index, loc: Loc)
    requires Rooted(ix) && InRange(ix.shelf, loc)
    ensures Rooted(Tombstoned(ix, loc))
  {
    TombstonedIsStructured(ix, loc);
    TombstonedIsMirrored(ix, loc);
    TombstonedFields(ix, loc);
    forall x | x in ix.keymap
      ensures InRange(Kill(ix.shelf, loc), ix.keymap[x]) && EntryAt(Kill(ix.shelf, loc), ix.keymap[x]).key == x
    {
      KillAt(ix.shelf, loc, ix.keymap[x]);
    }
  }

  lemma SettledTombstoned(ix: Index, loc: Loc, view: map<Key, Document>, x: Key)
    requires Rooted(ix) && InRange(ix.shelf, loc) && EntryAt(ix.shelf, loc).key != x && Settled(ix, view, x)
    ensures Settled(Tombstoned(ix, loc), view, x)
  {
    TombstonedFields(ix, loc);
    TombstonedIsStructured(ix, loc);
    if x in ix.keymap {
      KillAt(ix.shelf, loc, ix.keymap[x]);
    }
  }

  lemma RootedForgotten(ix: Index, k: Key)
    requires Rooted(ix)
    ensures Rooted(Forgotten(ix, k))
  {
    ForgottenKeeps(ix, k);
  }

  /** The states between two writes of a replayed record. */
  ghost predicate Stage(ix: Index, r: WalRecord, s: Index)
    requires ix.writer in ix.shelf
  {
    || s == Applied(ix, r)
    || match r
       case Deleted(k) => k in ix.keymap && s == Tombstoned(ix, ix.keymap[k])
       case _ => s == Stored(ix, r.key, r.document) || s == AutoFlushed(Stored(ix, r.key, r.document))
  }

  lemma StagesOfStoring(ix: Index, k: Key, doc: Document, view: map<Key, Document>, wal: seq<WalRecord>)
    requires Rooted(ix) && ValidKey(k) && SettledOff(ix, view, wal) && k in KeysIn(wal)
    ensures var s := Stored(ix, k, doc);
            && Rooted(s) && SettledOff(s, view, wal) && Rooted(AutoFlushed(s)) && SettledOff(AutoFlushed(s), view, wal)
  {
    var s := Stored(ix, k, doc);
    RootedStored(ix, k, doc);
    RootedFlushed(s);
    hide Rooted, Settled, Stored, Flushed, KeysIn;
    forall x | x !in KeysIn(wal) ensures Settled(s, view, x) && Settled(Flushed(s), view, x) {
      SettledStored(ix, k, doc, view, x);
      SettledFlushed(s, view, x);
    }
  }

  lemma StagesOfRetiring(ix: Index, loc: Loc, k: Key, view: map<Key, Document>, wal: seq<WalRecord>)
    requires Rooted(ix) && InRange(ix.shelf, loc) && EntryAt(ix.shelf, loc).key == k
    requires SettledOff(ix, view, wal) && k in KeysIn(wal)
    ensures var s := Tombstoned(ix, loc);
            && Rooted(s) && SettledOff(s, view, wal) && Rooted(Forgotten(s, k)) && SettledOff(Forgotten(s, k), view, wal)
  {
    var s := Tombstoned(ix, loc);
    RootedTombstoned(ix, loc);
    RootedForgotten(s, k);
    forall x | x !in KeysIn(wal) ensures Settled(s, view, x) && Settled(Forgotten(s, k), view, x) {
      SettledTombstoned(ix, loc, view, x);
    }
  }

  /** Whatever a replayed record passes through, or ends with. */
  lemma StagesStand(ix: Index, r: WalRecord, s: Index, view: map<Key, Document>, wal: seq<WalRecord>)
    requires Rooted(ix) && ix.replaying && Loggable(r) && r.key in KeysIn(wal) && SettledOff(ix, view, wal)
    requires Stage(ix, r, s)
    ensures Rooted(s) && SettledOff(s, view, wal)
  {
    match r {
      case Added(k, doc) =>
        StagesOfStoring(ix, k, doc, view, wal);
      case Updated(k, doc) =>
        StagesOfStoring(ix, k, doc, view, wal);
        if k in ix.keymap {
          StillStored(ix, k, doc, ix.keymap[k]);
          StagesOfRetiring(AutoFlushed(Stored(ix, k, doc)), ix.keymap[k], k, view, wal);
        }
      case Deleted(k) =>
        if k in ix.keymap {
          assert ix.keymap[k].generation in Elements(ix.order) + {ix.writer};
          StagesOfRetiring(ix, ix.keymap[k], k, view, wal);
        }
    }
  }

  lemma StillStored(ix: Index, k: Key, doc: Document, loc: Loc)
    requires Rooted(ix) && InRange(ix.shelf, loc)
    ensures var s := AutoFlushed(Stored(ix, k, doc)); InRange(s.shelf, loc) && EntryAt(s.shelf, loc) == EntryAt(ix.shelf, loc)
  {
    StoredIs(ix, k, doc);
    AppendAt(ix.shelf, ix.writer, Entry(k, doc), loc);
    assert ix.next !in ix.shelf;
  }

  // ------------------------------------------------------- ghosts make no difference

  /** The entries that name live documents. */
  function Living(ix: Index): Keymap {
    map k | k in ix.keymap && Alive(ix.shelf, ix.keymap[k]) :: ix.keymap[k]
  }

  function Ghosts(ix: Index): set<Key> {
    set k | k in ix.keymap && !Alive(ix.shelf, ix.keymap[k])
  }

  /** Ghosts only come from disk. */
  ghost predicate GhostsOnDisk(ix: Index) {
    forall k :: k in Ghosts(ix) ==> ix.keymap[k].generation in ix.order
  }

  function Rekeyed(ix: Index, km: Keymap): Index {
    ix.(keymap := km, disk := ix.disk.(log := Some(km)))
  }

  /** The index without its ghosts. */
  function Clean(ix: Index): (r: Index)
    ensures r.shelf == ix.shelf && r.writer == ix.writer
  {
    Rekeyed(ix, Living(ix))
  }

  lemma CleanIsUsable(ix: Index)
    requires Rooted(ix)
    ensures Usable(Clean(ix))
    ensures Ghosts(ix) == {} ==> Clean(ix) == ix
  {
    if Ghosts(ix) == {} {
      forall k | k in ix.keymap ensures k in Living(ix) {
        assert k !in Ghosts(ix);
      }
      assert Living(ix) == ix.keymap;
    }
  }

  /** `next` is `ix` after something that concerned key k alone. */
  ghost predicate Concerns(ix: Index, k: Key, jx: Index) {
    forall x :: x != k ==>
      && (x in jx.keymap <==> x in ix.keymap)
      && (x in ix.keymap ==> jx.keymap[x] == ix.keymap[x] && (Alive(jx.shelf, ix.keymap[x]) <==> Alive(ix.shelf, ix.keymap[x])))
  }

  lemma CleanStored(ix: Index, k: Key, doc: Document)
    requires Rooted(ix) && ValidKey(k)
    ensures Clean(Stored(ix, k, doc)) == Stored(Clean(ix), k, doc)
    ensures Concerns(ix, k, Stored(ix, k, doc)) && k !in Ghosts(Stored(ix, k, doc))
  {
    var s, end := Stored(ix, k, doc), End(ix.shelf, ix.writer);
    StoredIs(ix, k, doc);
    EndIsAlive(ix, k, doc);
    forall x | x in ix.keymap ensures Alive(s.shelf, ix.keymap[x]) <==> Alive(ix.shelf, ix.keymap[x]) {
      AppendAt(ix.shelf, ix.writer, Entry(k, doc), ix.keymap[x]);
    }
    hide Structured, Mirrored, Alive, InRange, Append;
    LivingWith(ix, s, k, end);
  }

  lemma LivingWith(ix: Index, s: Index, k: Key, end: Loc)
    requires s.keymap == ix.keymap[k := end] && Alive(s.shelf, end)
    requires forall x :: x in ix.keymap ==> (Alive(s.shelf, ix.keymap[x]) <==> Alive(ix.shelf, ix.keymap[x]))
    ensures Living(s) == Living(ix)[k := end] && Concerns(ix, k, s) && k !in Ghosts(s)
  {
  }

  lemma EndIsAlive(ix: Index, k: Key, doc: Document)
    requires Rooted(ix)
    ensures Alive(Stored(ix, k, doc).shelf, End(ix.shelf, ix.writer)) && !InRange(ix.shelf, End(ix.shelf, ix.writer))
  {
    assert WellKept(ix.shelf[ix.writer]);
  }

  lemma CleanFlushed(ix: Index)
    requires Rooted(ix)
    ensures Clean(AutoFlushed(ix)) == AutoFlushed(Clean(ix))
    ensures forall k :: Concerns(ix, k, AutoFlushed(ix))
    ensures AutoFlushed(ix).keymap == ix.keymap && Ghosts(AutoFlushed(ix)) == Ghosts(ix)
  {
    var s := AutoFlushed(ix);
    assert ix.writer in ix.shelf && s.keymap == ix.keymap;
    forall x | x in ix.keymap ensures Alive(s.shelf, ix.keymap[x]) <==> Alive(ix.shelf, ix.keymap[x]) {
      FlushedAlive(ix, ix.keymap[x]);
    }
    SameLiving(ix, s);
    hide Structured, Mirrored, Alive, Living;
    FlushIgnoresKeymap(ix, Living(ix));
  }

  lemma FlushedAlive(ix: Index, loc: Loc)
    requires Structured(ix) && InRange(ix.shelf, loc)
    ensures Alive(AutoFlushed(ix).shelf, loc) <==> Alive(ix.shelf, loc)
  {
    assert ix.next !in ix.shelf;
  }

  lemma SameLiving(ix: Index, s: Index)
    requires s.keymap == ix.keymap
    requires forall x :: x in ix.keymap ==> (Alive(s.shelf, ix.keymap[x]) <==> Alive(ix.shelf, ix.keymap[x]))
    ensures Living(s) == Living(ix) && Ghosts(s) == Ghosts(ix) && forall k :: Concerns(ix, k, s)
  {
  }

  lemma FlushIgnoresKeymap(ix: Index, km: Keymap)
    requires ix.writer in ix.shelf
    ensures AutoFlushed(Rekeyed(ix, km)) == Rekeyed(AutoFlushed(ix), km)
  {
  }

  /** Tombstoning what is dead already writes the same tombstones again. */
  lemma DeadTwice(ix: Index, loc: Loc)
    requires Rooted(ix) && InRange(ix.shelf, loc) && !Alive(ix.shelf, loc) && loc.generation in ix.order
    ensures Tombstoned(ix, loc) == ix
  {
    var g := loc.generation;
    assert Stores(ix.disk, ix.shelf, g);
    assert ix.shelf[g].dead + {loc.docid} == ix.shelf[g].dead;
    assert Kill(ix.shelf, loc) == ix.shelf;
    assert ix.disk.dels[g := ix.shelf[g].dead] == ix.disk.dels;
  }

  lemma RetiredAlive(ix: Index, loc: Loc, other: Loc)
    requires Rooted(ix) && InRange(ix.shelf, loc) && other != loc
    ensures Alive(Tombstoned(ix, loc).shelf, other) <==> Alive(ix.shelf, other)
  {
    TombstonedIsStructured(ix, loc);
    KillAt(ix.shelf, loc, other);
  }

  lemma TombstoneIgnoresKeymap(ix: Index, loc: Loc, km: Keymap)
    ensures Tombstoned(Rekeyed(ix, km), loc) == Rekeyed(Tombstoned(ix, loc), km)
  {
    hide Kill;
    if loc.generation == ix.writer {
    } else if loc.generation in ix.order && loc.generation in ix.shelf {
      assert Rekeyed(ix, km).shelf == ix.shelf && Rekeyed(ix, km).disk.dels == ix.disk.dels;
    }
  }

  /** Retiring a superseded copy. */
  lemma CleanRetired(ix: Index, loc: Loc, k: Key)
    requires Rooted(ix) && InRange(ix.shelf, loc) && EntryAt(ix.shelf, loc).key == k
    requires k in ix.keymap && ix.keymap[k] != loc
    ensures Clean(Tombstoned(ix, loc)) == Tombstoned(Clean(ix), loc)
    ensures Ghosts(Tombstoned(ix, loc)) == Ghosts(ix) && Concerns(ix, k, Tombstoned(ix, loc))
  {
    var s := Tombstoned(ix, loc);
    TombstonedFields(ix, loc);
    forall x | x in ix.keymap ensures Alive(s.shelf, ix.keymap[x]) <==> Alive(ix.shelf, ix.keymap[x]) {
      RetiredAlive(ix, loc, ix.keymap[x]);
    }
    hide Rooted, Tombstoned, Alive, Living;
    SameLiving(ix, s);
    TombstoneIgnoresKeymap(ix, loc, Living(ix));
  }

  /** Deleting the document an entry names. */
  lemma CleanForgotten(ix: Index, k: Key)
    requires Rooted(ix) && k in ix.keymap
    ensures var s := Forgotten(Tombstoned(ix, ix.keymap[k]), k);
            && Clean(s) == Forgotten(Tombstoned(Clean(ix), ix.keymap[k]), k)
            && Concerns(ix, k, s) && k !in s.keymap
  {
    var loc := ix.keymap[k];
    var t, s := Tombstoned(ix, loc), Forgotten(Tombstoned(ix, loc), k);
    TombstonedFields(ix, loc);
    forall x | x in ix.keymap && x != k ensures Alive(s.shelf, ix.keymap[x]) <==> Alive(ix.shelf, ix.keymap[x]) {
      RetiredAlive(ix, loc, ix.keymap[x]);
    }
    hide Rooted, Tombstoned, Alive;
    TombstoneIgnoresKeymap(ix, loc, Living(ix));
    LivingWithout(ix, s, k);
  }

  lemma LivingWithout(ix: Index, s: Index, k: Key)
    requires s.keymap == ix.keymap - {k}
    requires forall x :: x in ix.keymap && x != k ==> (Alive(s.shelf, ix.keymap[x]) <==> Alive(ix.shelf, ix.keymap[x]))
    ensures Living(s) == Living(ix) - {k} && Concerns(ix, k, s) && k !in s.keymap
  {
  }

  // ------------------------------------------------------------------ a record

  /** Replaying a record takes its key's ghost away, and no other notice of ghosts. */
  lemma CleanApplied(ix: Index, r: WalRecord)
    requires Rooted(ix) && GhostsOnDisk(ix) && ix.replaying && Loggable(r)
    ensures ix.writer in ix.shelf
    ensures Clean(Applied(ix, r)) == Applied(Clean(ix), r)
    ensures Ghosts(Applied(ix, r)) <= Ghosts(ix) - {r.key}
    ensures GhostsOnDisk(Applied(ix, r))
  {
    assert ix.writer in ix.shelf;
    match r {
      case Added(k, doc) => CleanAdded(ix, k, doc);
      case Updated(k, doc) => CleanUpdated(ix, k, doc);
      case Deleted(k) => CleanDeleted(ix, k);
    }
  }

  lemma CleanStoring(ix: Index, k: Key, doc: Document)
    requires Rooted(ix) && GhostsOnDisk(ix) && ValidKey(k)
    ensures var s := AutoFlushed(Stored(ix, k, doc));
            && Clean(s) == AutoFlushed(Stored(Clean(ix), k, doc)) && Ghosts(s) <= Ghosts(ix) - {k} && GhostsOnDisk(s)
            && Rooted(s) && s.keymap == ix.keymap[k := End(ix.shelf, ix.writer)]
            && (forall g :: g in ix.order ==> g in s.order)
  {
    var s := Stored(ix, k, doc);
    CleanStored(ix, k, doc);
    RootedStored(ix, k, doc);
    CleanFlushed(s);
    RootedFlushed(s);
    ConcernsGhosts(ix, k, s);
    StoredIs(ix, k, doc);
    hide Rooted, Alive, Ghosts, Concerns, Clean;
    assert forall g :: g in ix.order ==> g in AutoFlushed(s).order;
    GhostsStayOnDisk(ix, AutoFlushed(s), k);
  }

  lemma ConcernsGhosts(ix: Index, k: Key, jx: Index)
    requires Concerns(ix, k, jx) && k !in Ghosts(jx)
    ensures Ghosts(jx) <= Ghosts(ix) - {k}
  {
  }

  lemma GhostsStayOnDisk(ix: Index, jx: Index, k: Key)
    requires GhostsOnDisk(ix) && Ghosts(jx) <= Ghosts(ix) - {k}
    requires forall x :: x != k && x in ix.keymap ==> x in jx.keymap && jx.keymap[x] == ix.keymap[x]
    requires forall g :: g in ix.order ==> g in jx.order
    ensures GhostsOnDisk(jx)
  {
  }

  lemma CleanAdded(ix: Index, k: Key, doc: Document)
    requires Rooted(ix) && GhostsOnDisk(ix) && ix.replaying && ValidKey(k) && doc.terms > 0
    ensures ix.writer in ix.shelf && Clean(Add(ix, k, doc)) == Add(Clean(ix), k, doc)
    ensures Ghosts(Add(ix, k, doc)) <= Ghosts(ix) - {k} && GhostsOnDisk(Add(ix, k, doc))
  {
    CleanStoring(ix, k, doc);
  }

  /** Nothing is logged while the log is replayed. */
  lemma UpdateIs(ix: Index, k: Key, doc: Document)
    requires ix.writer in ix.shelf && ix.replaying && doc.terms > 0
    ensures var s := AutoFlushed(Stored(ix, k, doc));
            Update(ix, k, doc) == if k in ix.keymap then Tombstoned(s, ix.keymap[k]) else s
  {
  }

  lemma DeleteIs(ix: Index, k: Key)
    requires Rooted(ix) && ix.replaying
    ensures ix.writer in ix.shelf
    ensures Delete(ix, k) == if k in ix.keymap then Forgotten(Tombstoned(ix, ix.keymap[k]), k) else ix
  {
    if k in ix.keymap {
      assert ix.keymap[k].generation in Elements(ix.order) + {ix.writer};
      TombstonedFields(ix, ix.keymap[k]);
    }
  }

  lemma LivingIs(ix: Index, k: Key)
    ensures k in Living(ix) <==> k in ix.keymap && k !in Ghosts(ix)
    ensures k in Living(ix) ==> Living(ix)[k] == ix.keymap[k]
    ensures Clean(ix).keymap == Living(ix) && Clean(ix).replaying == ix.replaying
  {
  }

  lemma CleanUpdated(ix: Index, k: Key, doc: Document)
    requires Rooted(ix) && GhostsOnDisk(ix) && ix.replaying && ValidKey(k) && doc.terms > 0
    ensures ix.writer in ix.shelf && Clean(Update(ix, k, doc)) == Update(Clean(ix), k, doc)
    ensures Ghosts(Update(ix, k, doc)) <= Ghosts(ix) - {k} && GhostsOnDisk(Update(ix, k, doc))
  {
    assert ix.writer in ix.shelf;
    CleanStoring(ix, k, doc);
    UpdateIs(ix, k, doc);
    LivingIs(ix, k);
    UpdateIs(Clean(ix), k, doc);
    hide Structured, Mirrored, GhostsOnDisk, Clean, Tombstoned, Stored, AutoFlushed, Update, Living, Ghosts, Kill;
    if k in ix.keymap {
      RetiredByUpdate(ix, k, doc);
    }
  }

  lemma RetiredByUpdate(ix: Index, k: Key, doc: Document)
    requires Rooted(ix) && GhostsOnDisk(ix) && ValidKey(k) && k in ix.keymap
    ensures var s, loc := AutoFlushed(Stored(ix, k, doc)), ix.keymap[k];
            && (k in Ghosts(ix) ==> Tombstoned(s, loc) == s)
            && Clean(Tombstoned(s, loc)) == Tombstoned(Clean(s), loc)
            && Ghosts(Tombstoned(s, loc)) == Ghosts(s) && GhostsOnDisk(Tombstoned(s, loc))
  {
    var s, loc := AutoFlushed(Stored(ix, k, doc)), ix.keymap[k];
    CleanStoring(ix, k, doc);
    StillStored(ix, k, doc, loc);
    EndIsAlive(ix, k, doc);
    TombstonedFields(s, loc);
    if k in Ghosts(ix) {
      GhostIsOnDisk(ix, k);
      StillDead(ix, k, doc, loc);
    }
    hide Structured, Mirrored, Clean, Tombstoned, Stored, AutoFlushed, Kill;
    CleanRetired(s, loc, k);
    if k in Ghosts(ix) {
      DeadTwice(s, loc);
    }
  }

  lemma GhostIsOnDisk(ix: Index, k: Key)
    requires GhostsOnDisk(ix) && k in Ghosts(ix)
    ensures k in ix.keymap && ix.keymap[k].generation in ix.order && !Alive(ix.shelf, ix.keymap[k])
  {
  }

  lemma StillDead(ix: Index, k: Key, doc: Document, loc: Loc)
    requires Rooted(ix) && InRange(ix.shelf, loc) && !Alive(ix.shelf, loc)
    ensures !Alive(AutoFlushed(Stored(ix, k, doc)).shelf, loc)
  {
    StoredIs(ix, k, doc);
    AppendAt(ix.shelf, ix.writer, Entry(k, doc), loc);
    assert ix.next !in ix.shelf;
  }

  lemma CleanDeleted(ix: Index, k: Key)
    requires Rooted(ix) && GhostsOnDisk(ix) && ix.replaying
    ensures ix.writer in ix.shelf && Clean(Delete(ix, k)) == Delete(Clean(ix), k)
    ensures Ghosts(Delete(ix, k)) <= Ghosts(ix) - {k} && GhostsOnDisk(Delete(ix, k))
  {
    DeleteIs(ix, k);
    CleanIsUsable(ix);
    LivingIs(ix, k);
    UsableIsRooted(Clean(ix));
    DeleteIs(Clean(ix), k);
    if k in ix.keymap {
      var loc := ix.keymap[k];
      var s := Forgotten(Tombstoned(ix, loc), k);
      TombstonedFields(ix, loc);
      CleanForgotten(ix, k);
      ConcernsGhosts(ix, k, s);
      hide Concerns, Delete, Usable, Clean, Tombstoned, Structured, Mirrored;
      GhostsStayOnDisk(ix, s, k);
      if k in Ghosts(ix) {
        DeadTwice(ix, loc);
        CleanForgetsGhost(ix, k);
      }
    }
  }

  lemma CleanForgetsGhost(ix: Index, k: Key)
    requires k in Ghosts(ix)
    ensures Clean(Forgotten(ix, k)) == Clean(ix)
  {
    assert Living(Forgotten(ix, k)) == Living(ix);
  }

  // ------------------------------------------------------------------- whole replays

  lemma RootedApplied(ix: Index, r: WalRecord)
    requires Rooted(ix) && ix.replaying && Loggable(r)
    ensures ix.writer in ix.shelf && Rooted(Applied(ix, r)) && Applied(ix, r).replaying
  {
    assert ix.writer in ix.shelf;
    AppliedKeepsLog(ix, r);
    match r {
      case Added(k, doc) =>
        RootedStoring(ix, k, doc);
      case Updated(k, doc) =>
        UpdateIs(ix, k, doc);
        if k in ix.keymap {
          StillStored(ix, k, doc, ix.keymap[k]);
        }
        hide Stored, AutoFlushed, Tombstoned, Update;
        RootedStoring(ix, k, doc);
        if k in ix.keymap {
          RootedTombstoned(AutoFlushed(Stored(ix, k, doc)), ix.keymap[k]);
        }
      case Deleted(k) =>
        DeleteIs(ix, k);
        hide Tombstoned, Delete;
        if k in ix.keymap {
          RootedTombstoned(ix, ix.keymap[k]);
          RootedForgotten(Tombstoned(ix, ix.keymap[k]), k);
        }
    }
  }

  lemma RootedStoring(ix: Index, k: Key, doc: Document)
    requires Rooted(ix) && ValidKey(k)
    ensures ix.writer in ix.shelf && Rooted(AutoFlushed(Stored(ix, k, doc)))
  {
    assert ix.writer in ix.shelf;
    RootedStored(ix, k, doc);
    hide Rooted, Stored, Flushed;
    RootedFlushed(Stored(ix, k, doc));
  }

  lemma {:induction false} ReplayedClean(ix: Index, wal: seq<WalRecord>)
    requires Rooted(ix) && GhostsOnDisk(ix) && ix.replaying && WellLogged(wal)
    ensures ix.writer in ix.shelf
    ensures var jx := Replayed(ix, wal);
            && Rooted(jx) && GhostsOnDisk(jx) && jx.replaying
            && Clean(jx) == Replayed(Clean(ix), wal) && Ghosts(jx) <= Ghosts(ix) - KeysIn(wal)
  {
    hide Rooted, GhostsOnDisk, Clean, Ghosts, Loggable, Applied;
    RootedHasWriter(ix);
    if wal != [] {
      var n := |wal| - 1;
      ReplayedClean(ix, wal[..n]);
      CleanApplied(Replayed(ix, wal[..n]), wal[n]);
      RootedApplied(Replayed(ix, wal[..n]), wal[n]);
      KeysInPrefix(wal);
    }
  }

  /** Everywhere in the replay, keys off the log are settled. */
  lemma {:induction false} ReplayStands(ix: Index, view: map<Key, Document>, wal: seq<WalRecord>, i: nat)
    requires Rooted(ix) && ix.replaying && SettledOff(ix, view, wal) && WellLogged(wal) && i <= |wal|
    ensures ix.writer in ix.shelf
    ensures var jx := Replayed(ix, wal[..i]);
            Rooted(jx) && jx.replaying && SettledOff(jx, view, wal) && jx.disk.wal == ix.disk.wal
  {
    hide Rooted, SettledOff, Applied, Loggable;
    RootedHasWriter(ix);
    if i > 0 {
      ReplayStands(ix, view, wal, i - 1);
      assert wal[..i][..i - 1] == wal[..i - 1];
      RecordStands(Replayed(ix, wal[..i - 1]), wal[i - 1], view, wal);
      AppliedKeepsLog(Replayed(ix, wal[..i - 1]), wal[i - 1]);
      assert wal[i - 1].key in KeysIn(wal);
    }
  }

  lemma RecordStands(ix: Index, r: WalRecord, view: map<Key, Document>, wal: seq<WalRecord>)
    requires Rooted(ix) && ix.replaying && SettledOff(ix, view, wal) && r in wal && Loggable(r)
    ensures ix.writer in ix.shelf && Rooted(Applied(ix, r)) && SettledOff(Applied(ix, r), view, wal)
  {
    assert ix.writer in ix.shelf;
    var i :| 0 <= i < |wal| && wal[i] == r;
    hide Rooted, SettledOff, Applied, Loggable;
    assert Stage(ix, r, Applied(ix, r));
    StagesStand(ix, r, Applied(ix, r), view, wal);
  }

  // ----------------------------------------------------------- what directories stand for

  /**
   What is recovered from the directory names stored documents; of keys the write-ahead log
   does not mention, exactly those of `view` are named, alive.
   */
  ghost predicate Standing(e: Disk, view: map<Key, Document>, wal: seq<WalRecord>) {
    && Openable(e) && WellStored(RecoveredShelf(e)) && e.wal == wal && WellLogged(wal)
    && var s, km := RecoveredShelf(e), RecoveredKeymap(e);
       && (forall k :: k in km ==> InRange(s, km[k]) && EntryAt(s, km[k]).key == k)
       && (forall k :: k !in KeysIn(wal) ==>
             && (k in km <==> k in view)
             && (k in km ==> Alive(s, km[k]) && EntryAt(s, km[k]).document == view[k]))
  }

  lemma StandingOpens(e: Disk, view: map<Key, Document>, wal: seq<WalRecord>, policy: Policy)
    requires Standing(e, view, wal)
    ensures var ix := Opened(e, policy);
            Rooted(ix) && SettledOff(ix, view, wal) && GhostsOnDisk(ix) && Ghosts(ix) <= KeysIn(wal) && ix.disk.wal == wal
  {
    var ix, s := Opened(e, policy), RecoveredShelf(e);
    OpenedShape(e, policy);
    OpenedIsMirrored(e, policy);
    assert ix.disk.wal == wal;
    hide Opened, RecoveredShelf, RecoveredKeymap, Structured, Mirrored, WellStored, WithEmpty, Openable;
    UnderEmpty(s, ix.keymap, ix.writer);
    forall k | k in ix.keymap ensures ix.keymap[k].generation in ix.order {
      assert ix.keymap[k].generation in Elements(e.order);
    }
  }

  lemma UnderEmpty(s: Shelf, km: Keymap, g: nat)
    requires g !in s && forall k :: k in km ==> InRange(s, km[k])
    ensures forall k :: k in km ==>
              && InRange(WithEmpty(s, g), km[k]) && EntryAt(WithEmpty(s, g), km[k]) == EntryAt(s, km[k])
              && (Alive(WithEmpty(s, g), km[k]) <==> Alive(s, km[k]))
  {
    forall k | k in km
      ensures InRange(WithEmpty(s, g), km[k]) && EntryAt(WithEmpty(s, g), km[k]) == EntryAt(s, km[k])
      ensures Alive(WithEmpty(s, g), km[k]) <==> Alive(s, km[k])
    {
      EmptyAt(s, g, km[k]);
    }
  }

  /** A crash in the replay's history: the map is what the log and the settled keys say. */
  lemma StandingReopens(e: Disk, view: map<Key, Document>, wal: seq<WalRecord>, policy: Policy)
    requires Standing(e, view, wal) && policy.durable
    ensures Openable(e) && Usable(Reopened(e, policy)) && Contents(Reopened(e, policy)) == Overlay(view, wal)
  {
    StandingOpens(e, view, wal, policy);
    var start := Opened(e, policy).(replaying := true);
    hide Standing, Opened;
    StartIsAlike(Opened(e, policy), view, wal);
    ReplayedClean(start, wal);
    CleanIsUsable(start);
    CleanIsUsable(Replayed(start, wal));
    CleanAgrees(start, view, wal);
    hide Rooted, SettledOff, Ghosts, Clean, Usable, Contents, Overlay, Replayed;
    ReplayOverlays(Clean(start), wal);
    ReplayIsIdempotent(view, Contents(Clean(start)), wal);
    SettledIsInvisible(Replayed(start, wal), [], true);
    SettledIsInvisible(Replayed(start, wal), wal, Replayed(start, wal).healthy);
    ReplayKeepsLog(start, wal);
  }

  lemma StartIsAlike(ix: Index, view: map<Key, Document>, wal: seq<WalRecord>)
    requires Rooted(ix) && SettledOff(ix, view, wal) && GhostsOnDisk(ix)
    ensures var start := ix.(replaying := true);
            && Rooted(start) && SettledOff(start, view, wal) && GhostsOnDisk(start) && Ghosts(start) == Ghosts(ix)
            && start.writer in start.shelf
  {
  }

  lemma CleanAgrees(ix: Index, view: map<Key, Document>, wal: seq<WalRecord>)
    requires Rooted(ix) && SettledOff(ix, view, wal)
    ensures AgreeOff(Contents(Clean(ix)), view, KeysIn(wal))
  {
    forall k | k !in KeysIn(wal)
      ensures k in Contents(Clean(ix)) <==> k in view
      ensures k in view ==> Contents(Clean(ix))[k] == view[k]
    {
      assert Settled(ix, view, k);
    }
  }

  /** A directory that holds the flushed part of such an index. */
  lemma SameSegmentsStand(e: Disk, s: Index, view: map<Key, Document>, wal: seq<WalRecord>)
    requires Rooted(s) && SettledOff(s, view, wal) && SameSegments(e, s) && !e.marker && e.wal == wal && WellLogged(wal)
    ensures Standing(e, view, wal)
  {
    forall g | g in e.order ensures g in e.files && g in s.shelf && s.shelf[g] == Volume(e.files[g], DelOf(e, g)) {
      assert Stores(e, s.shelf, g);
    }
    assert Openable(e);
    assert !NeedsRebuild(e) && RecoveredShelf(e) == DiskShelf(e);
    forall g | g in DiskShelf(e) ensures DiskShelf(e)[g] == s.shelf[g] {
    }
    var km := RecoveredKeymap(e);
    forall k | k in km ensures km[k] == s.keymap[k] && km[k].generation in DiskShelf(e) {
    }
    forall k | k !in KeysIn(wal)
      ensures k in km <==> k in view
      ensures k in km ==> Alive(DiskShelf(e), km[k]) && EntryAt(DiskShelf(e), km[k]).document == view[k]
    {
      assert Settled(s, view, k);
    }
  }

  /** Every directory a crash leaves while a record is replayed, and what it stands for. */
  lemma ReplayedStageStands(e: Disk, ix: Index, r: WalRecord, s: Index, view: map<Key, Document>, wal: seq<WalRecord>)
    requires Rooted(ix) && ix.replaying && SettledOff(ix, view, wal) && WellLogged(wal) && r in wal
    requires Stage(ix, r, s) && SameSegments(e, s) && !e.marker && e.wal == wal
    ensures Standing(e, view, wal)
  {
    var i :| 0 <= i < |wal| && wal[i] == r;
    hide Rooted, SettledOff, Stage, SameSegments, Standing;
    StagesStand(ix, r, s, view, wal);
    SameSegmentsStand(e, s, view, wal);
  }

  // ------------------------------------------------------------ crashes inside open()

  /** What was just recovered is settled. */
  lemma OpenedIsSettled(d: Disk, policy: Policy, wal: seq<WalRecord>)
    requires Openable(d) && Usable(Opened(d, policy))
    ensures SettledOff(Opened(d, policy), Contents(Opened(d, policy)), wal)
  {
    OpenedAfresh(d, policy);
    NothingPending(Opened(d, policy), wal);
  }

  lemma NothingPending(ix: Index, wal: seq<WalRecord>)
    requires Usable(ix) && VolumeAt(ix.shelf, ix.writer).docs == []
    ensures SettledOff(ix, Contents(ix), wal)
  {
    EmptyWriterHoldsNothing(ix);
    forall k ensures Settled(ix, Contents(ix), k) {
      if k in ix.keymap {
        EntryIsLive(ix.shelf, ix.keymap, k);
        assert ix.keymap[k].generation in Elements(ix.order) + {ix.writer};
      }
    }
  }

  /** The index when open() has replayed i records. */
  function Midway(d: Disk, policy: Policy, i: nat): (jx: Index)
    requires Openable(d) && i <= |d.wal|
    ensures jx.writer in jx.shelf
  {
    Replayed(Opened(d, policy).(replaying := true), d.wal[..i])
  }

  /** A directory a crash can leave while record i is replayed. */
  ghost predicate LeftInReplay(d: Disk, policy: Policy, i: nat, e: Disk)
    requires Openable(d) && i < |d.wal|
  {
    && !e.marker && e.wal == d.wal && e.next >= Midway(d, policy, i).next
    && exists s :: Stage(Midway(d, policy, i), d.wal[i], s) && SameSegments(e, s)
  }

  lemma MidwayStands(d: Disk, view: map<Key, Document>, policy: Policy, i: nat)
    requires Standing(d, view, d.wal) && i <= |d.wal|
    ensures Rooted(Midway(d, policy, i)) && Midway(d, policy, i).replaying && SettledOff(Midway(d, policy, i), view, d.wal)
  {
    StandingOpens(d, view, d.wal, policy);
    StartIsAlike(Opened(d, policy), view, d.wal);
    hide Rooted, SettledOff, Opened;
    ReplayStands(Opened(d, policy).(replaying := true), view, d.wal, i);
  }

  /**
   A crash while open() replays the log, and again while it replays it the next time, and so
   on: each directory stands for the same map.
   */
  lemma InterruptedReplay(d: Disk, view: map<Key, Document>, policy: Policy, i: nat, e: Disk)
    requires Standing(d, view, d.wal) && i < |d.wal| && LeftInReplay(d, policy, i, e)
    ensures Standing(e, view, d.wal)
  {
    MidwayStands(d, view, policy, i);
    var s :| Stage(Midway(d, policy, i), d.wal[i], s) && SameSegments(e, s);
    assert d.wal[i] in d.wal;
    hide Midway, Rooted, SettledOff, Stage, SameSegments;
    ReplayedStageStands(e, Midway(d, policy, i), d.wal[i], s, view, d.wal);
  }

  /** What open() recovers before it comes to the log, the directory stands for. */
  lemma RecoveredStands(d: Disk, policy: Policy)
    requires Openable(d) && Usable(Opened(d, policy)) && WellLogged(d.wal)
    ensures Standing(d, Contents(Opened(d, policy)), d.wal)
  {
    var ix, s := Opened(d, policy), RecoveredShelf(d);
    OpenedIsSettled(d, policy, d.wal);
    OpenedShape(d, policy);
    EmptyHasNothing(d, policy);
    forall k
      ensures k in ix.keymap ==> InRange(s, ix.keymap[k]) && EntryAt(s, ix.keymap[k]) == EntryAt(ix.shelf, ix.keymap[k])
      ensures k in ix.keymap ==> (Alive(s, ix.keymap[k]) <==> Alive(ix.shelf, ix.keymap[k]))
      ensures k !in KeysIn(d.wal) ==> Settled(ix, Contents(ix), k)
    {
      if k in ix.keymap {
        EntryIsLive(ix.shelf, ix.keymap, k);
        EmptyAt(s, ix.writer, ix.keymap[k]);
      }
    }
  }

  lemma EmptyHasNothing(d: Disk, policy: Policy)
    requires Openable(d) && WellStored(Opened(d, policy).shelf)
    ensures WellStored(RecoveredShelf(d))
  {
    OpenedShape(d, policy);
    var s, ix := RecoveredShelf(d), Opened(d, policy);
    forall g | g in s ensures WellKept(s[g]) {
      assert ix.shelf[g] == s[g];
    }
  }

  /** The first time, whatever open() had to recover before it came to the log. */
  lemma InterruptedOpen(d: Disk, policy: Policy, i: nat, e: Disk)
    requires Openable(d) && Usable(Opened(d, policy)) && WellLogged(d.wal)
    requires i < |d.wal| && LeftInReplay(d, policy, i, e)
    ensures Standing(e, Contents(Opened(d, policy)), d.wal)
  {
    RecoveredStands(d, policy);
    hide Opened, Usable, Standing, LeftInReplay, Contents;
    InterruptedReplay(d, Contents(Opened(d, policy)), policy, i, e);
  }

  /**
   Between two records: the map is preserved always, and there is one live copy of each key
   exactly when no key the log first mentions in an added record has reached the disk.
   */
  lemma CrashBetweenRecords(d: Disk, shelf: Shelf, km: Keymap, policy: Policy, i: nat, e: Disk, again: Policy)
    requires Preserves(d, shelf, km) && WellLogged(d.wal) && AddsAreFresh(View(shelf, km), d.wal)
    requires i <= |d.wal| && again.durable && Openable(d)
    requires SameSegments(e, Midway(d, policy, i)) && !e.marker && e.wal == d.wal
    ensures Openable(e) && Usable(Reopened(e, again))
    ensures Contents(Reopened(e, again)) == Overlay(View(shelf, km), d.wal)
    ensures Consistent(Reopened(e, again)) <==>
            forall k :: k in Flushable(Midway(d, policy, i)) ==> !FirstAdded(d.wal, k)
  {
    var start, mx, wal := Opened(d, policy).(replaying := true), Midway(d, policy, i), d.wal;
    var view := View(shelf, km);
    hide Reopened, View, Opened, Usable, Consistent, Preserves;
    OpensTo(d, shelf, km, policy);
    ReplayingIsInvisible(Opened(d, policy));
    FreshPrefix(view, wal, i);
    ConsistentIsUsable(start);
    ReplayOverlays(start, wal[..i]);
    MidwayPreserves(e, mx);
    FlushableIsDiskView(mx);
    ReopenOverlays(e, DiskPart(mx), DiskKeymap(mx), again);
    MidwayAgrees(start, wal, i);
    ReplayIsIdempotent(view, Flushable(mx), wal);
    FreshExactly(Flushable(mx), view, wal);
  }

  lemma MidwayPreserves(e: Disk, mx: Index)
    requires Consistent(mx) && SameSegments(e, mx)
    ensures Preserves(e, DiskPart(mx), DiskKeymap(mx))
  {
    SameSegmentsPreserve(e, mx);
  }

  lemma FreshPrefix(view: map<Key, Document>, wal: seq<WalRecord>, i: nat)
    requires AddsAreFresh(view, wal) && WellLogged(wal) && i <= |wal|
    ensures AddsAreFresh(view, wal[..i]) && WellLogged(wal[..i])
  {
    forall j | 0 <= j < i ensures wal[..i][..j] == wal[..j] {
    }
  }

  /** A replay only changes what the log mentions, on disk as well. */
  lemma {:induction false} MidwayAgrees(ix: Index, wal: seq<WalRecord>, i: nat)
    requires Usable(ix) && WellLogged(wal) && i <= |wal| && Flushable(ix) == Contents(ix)
    ensures AgreeOff(Flushable(Replayed(ix, wal[..i])), Contents(ix), KeysIn(wal))
    ensures AgreeOff(Contents(Replayed(ix, wal[..i])), Contents(ix), KeysIn(wal))
  {
    hide Usable, Flushable, Contents, Loggable, Applied, Written, AgreeOff, Consistent, AddsAreFresh, Overlay;
    HasWriter(ix);
    if i > 0 {
      MidwayAgrees(ix, wal, i - 1);
      assert wal[..i][..i - 1] == wal[..i - 1] && wal[i - 1].key in KeysIn(wal);
      var mx, r := Replayed(ix, wal[..i - 1]), wal[i - 1];
      ReplayOverlays(ix, wal[..i - 1]);
      AppliedWrites(mx, r);
      AppliedFlushable(mx, r);
      WrittenAgrees(Flushable(mx), Contents(ix), r, KeysIn(wal));
      WrittenAgrees(Contents(mx), Contents(ix), r, KeysIn(wal));
    } else {
      AgreesItself(Contents(ix), KeysIn(wal));
    }
  }

  lemma HasWriter(ix: Index)
    requires Usable(ix)
    ensures ix.writer in ix.shelf
  {
  }

  lemma AgreesItself(m: map<Key, Document>, keys: set<Key>)
    ensures AgreeOff(m, m, keys)
  {
  }

  lemma WrittenAgrees(m: map<Key, Document>, f: map<Key, Document>, r: WalRecord, keys: set<Key>)
    requires AgreeOff(m, f, keys) && r.key in keys
    ensures AgreeOff(Written(m, r), f, keys) && AgreeOff(m - {r.key}, f, keys)
  {
  }
}
