/**
 What a live duplicate costs: compaction of an index that holds one can bring back a
 superseded document, and a crash inside flush() can leave such an index.
 */
module StaleCopy {
  import opened Sequences
  import opened SegmentModel
  import opened Renumbering
  import opened Operations
  import opened Mutations
  import opened Compaction
  import opened Recovery
  import opened Durability
  import opened CrashSafety
  import opened Runs

  /** The merge keeps, last among the copies of each key, the one callers see. */
  ghost predicate MergesCurrentCopies(ix: Index, gens: seq<nat>) {
    var docs := MergedDocs(ix.shelf, gens);
    forall k :: LastWith(docs, k, |docs|).Some? ==>
      k in Contents(ix) && Contents(ix)[k] == docs[LastWith(docs, k, |docs|).value].document
  }

  /** Compaction preserves what an index shows exactly when it merges current copies. */
  lemma CompactionShowsSame(ix: Index, gens: seq<nat>)
    requires Usable(ix) && Compactable(ix, gens)
    ensures Contents(Compacted(ix, gens)) == Contents(ix) <==> MergesCurrentCopies(ix, gens)
  {
    hide Structured, Mirrored, Sound, Compactable, Contents, MergedDocs, LastWith, Compacted;
    var a, b, docs := Contents(Compacted(ix, gens)), Contents(ix), MergedDocs(ix.shelf, gens);
    forall k
      ensures LastWith(docs, k, |docs|).Some? ==>
                k in a && a[k] == docs[LastWith(docs, k, |docs|).value].document
      ensures LastWith(docs, k, |docs|).None? ==> (k in a <==> k in b) && (k in b ==> a[k] == b[k])
    {
      ShowsAt(ix, gens, k);
    }
    assert a == b <==> forall k :: (k in a <==> k in b) && (k in b ==> a[k] == b[k]);
  }

  lemma ShowsAt(ix: Index, gens: seq<nat>, k: Key)
    requires Usable(ix) && Compactable(ix, gens)
    ensures var a, b, docs := Contents(Compacted(ix, gens)), Contents(ix), MergedDocs(ix.shelf, gens);
            match LastWith(docs, k, |docs|)
            case Some(n) => k in a && a[k] == docs[n].document
            case None => (k in a <==> k in b) && (k in b ==> a[k] == b[k])
  {
    assert ix.next !in ix.shelf && forall g :: g in gens ==> g in ix.shelf;
    if k in ix.keymap {
      EntryIsLive(ix.shelf, ix.keymap, k);
    }
    hide Structured, Mirrored, Sound, MergedDocs, CompactedShelf, CompactedKeymap, LastWith;
    CompactedShows(ix.shelf, ix.keymap, gens, ix.next, k);
  }

  // ------------------------------------------------------------------ the witness

  const KEY: Key := "k"
  const OLD := Document("old", 1)
  const NEW := Document("new", 1)
  const DURABLE := Policy(true, 0)

  function Stage(order: seq<nat>, shelf: Shelf, loc: Loc, writer: nat, disk: Disk): Index {
    Index(order, shelf, map[KEY := loc], writer + 1, writer, DURABLE, true, false, false,
          disk.(next := writer + 1, order := order, log := Some(map[KEY := loc])))
  }

  const OLD_COPY := Volume([Entry(KEY, OLD)], {})
  const BOTH_COPIES := Volume([Entry(KEY, OLD), Entry(KEY, NEW)], {0})
  const SEGMENT_ONE := NEW_DIRECTORY.(files := map[1 := OLD_COPY.docs])

  /** One document added. */
  function Stage1(): Index {
    Stage([], map[1 := OLD_COPY], Loc(1, 0), 1, NEW_DIRECTORY.(wal := [Added(KEY, OLD)]))
  }

  /** The directory when flush() dies between its manifest save and the log's truncation. */
  function Left(): Disk {
    Flushed(Stage1()).disk.(wal := [Added(KEY, OLD)])
  }

  /** Reopened: segment 1 and the replayed record both hold the document. */
  function Stage2(): Index {
    Stage([1], map[1 := OLD_COPY, 3 := OLD_COPY], Loc(3, 0), 3, SEGMENT_ONE.(wal := [Added(KEY, OLD)]))
  }

  /** Updated, which tombstones the replayed copy only. */
  function Stage3(): Index {
    Stage([1], map[1 := OLD_COPY, 3 := BOTH_COPIES], Loc(3, 1), 3,
          SEGMENT_ONE.(wal := [Added(KEY, OLD), Updated(KEY, NEW)]))
  }

  /** Flushed. */
  function Stage4(): Index {
    Stage([1, 3], map[1 := OLD_COPY, 3 := BOTH_COPIES, 4 := EMPTY_VOLUME], Loc(3, 1), 4,
          NEW_DIRECTORY.(files := map[1 := OLD_COPY.docs, 3 := BOTH_COPIES.docs], dels := map[3 := {0}]))
  }

  function Stage0(): Index {
    Index([], map[1 := EMPTY_VOLUME], map[], 2, 1, DURABLE, true, false, false,
          NEW_DIRECTORY.(next := 2, log := Some(map[])))
  }

  lemma FirstOpened()
    ensures Openable(NEW_DIRECTORY) && Reopened(NEW_DIRECTORY, DURABLE) == Stage0()
  {
    var d := RecoveredDisk(NEW_DIRECTORY);
    assert d.files == map[] && d.dels == map[];
    assert RecoveredKeymap(NEW_DIRECTORY) == map[] && RecoveredShelf(NEW_DIRECTORY) == map[];
    assert Opened(NEW_DIRECTORY, DURABLE) == Stage0();
  }

  lemma FirstStage()
    ensures Applied(Stage0(), Added(KEY, OLD)) == Stage1()
  {
    var s := Stored(Stage0(), KEY, OLD);
    assert [] + [Entry(KEY, OLD)] == OLD_COPY.docs;
    assert s.shelf == map[1 := OLD_COPY];
    assert s.keymap == map[KEY := Loc(1, 0)];
  }

  lemma LeftOpens()
    ensures Openable(Left())
    ensures Opened(Left(), DURABLE) ==
              Stage([1], map[1 := OLD_COPY, 3 := EMPTY_VOLUME], Loc(1, 0), 3, SEGMENT_ONE.(wal := [Added(KEY, OLD)]))
  {
    var d := Left();
    assert d.order == [1] && d.files == map[1 := OLD_COPY.docs] && d.dels == map[];
    assert Clamp(d.next, d.order) == 3 by {
      assert d.order[..0] == [];
    }
    assert DiskShelf(d) == map[1 := OLD_COPY];
    assert RecoveredKeymap(d) == map[KEY := Loc(1, 0)];
    assert RecoveredDisk(d).files == d.files && RecoveredDisk(d).dels == map[];
  }

  lemma SecondStage()
    ensures Leaves(Stage1(), Flushing(true), Left())
    ensures Openable(Left()) && Reopened(Left(), DURABLE) == Stage2()
  {
    LeftOpens();
    var start := Opened(Left(), DURABLE).(replaying := true);
    var wal := [Added(KEY, OLD)];
    assert wal[..0] == [];
    assert Replayed(start, wal) == Add(start, KEY, OLD);
    var s := Stored(start, KEY, OLD);
    assert [] + [Entry(KEY, OLD)] == OLD_COPY.docs;
    assert s.shelf == Stage2().shelf;
    assert s.keymap == Stage2().keymap;
  }

  lemma ThirdStage()
    ensures Applied(Stage2(), Updated(KEY, NEW)) == Stage3()
  {
    var s := Stored(Stage2(), KEY, NEW);
    assert OLD_COPY.docs + [Entry(KEY, NEW)] == BOTH_COPIES.docs && {} + {0} == BOTH_COPIES.dead;
    assert s.shelf == map[1 := OLD_COPY, 3 := Volume(BOTH_COPIES.docs, {})];
    assert s.keymap == map[KEY := Loc(3, 1)];
    var t := Tombstoned(Logged(s, Updated(KEY, NEW)), Loc(3, 0));
    assert t.shelf == Stage3().shelf;
    assert t.disk.wal == Stage3().disk.wal;
  }

  lemma FourthStage()
    ensures Flushed(Stage3()) == Stage4()
  {
  }

  lemma LastStageIsUsable()
    ensures Structured(Stage4()) && Compactable(Stage4(), [1])
    ensures Contents(Stage4()) == map[KEY := NEW]
  {
    assert Elements([1, 3]) == {1, 3};
    assert Stage4().shelf.Keys == {1, 3, 4};
  }

  lemma LastStage()
    ensures Contents(Compacted(Stage4(), [1])) == map[KEY := OLD]
  {
    var ix := Stage4();
    assert ix.shelf[1] == OLD_COPY && ix.next == 5 && KEY in ix.keymap && ix.keymap.Keys == {KEY};
    hide Stage4, MergedDocs;
    OneMerged(ix.shelf);
    OneRemapped(ix.keymap);
    ShowsTheMerged(ix.shelf, ix.keymap);
  }

  lemma OneRemapped(km: Keymap)
    requires km.Keys == {KEY}
    ensures Remapped(km, 5, OLD_COPY.docs, 1) == map[KEY := Loc(5, 0)]
  {
    assert Remapped(km, 5, OLD_COPY.docs, 0) == km;
  }

  lemma ShowsTheMerged(shelf: Shelf, km: Keymap)
    requires MergedDocs(shelf, [1]) == OLD_COPY.docs
    requires Remapped(km, 5, OLD_COPY.docs, 1) == map[KEY := Loc(5, 0)]
    ensures View(CompactedShelf(shelf, [1], 5), CompactedKeymap(shelf, km, [1], 5)) == map[KEY := OLD]
  {
    hide MergedDocs, Remapped;
    var s := CompactedShelf(shelf, [1], 5);
    assert s[5] == Volume(OLD_COPY.docs, {});
  }

  lemma OneMerged(shelf: Shelf)
    requires 1 in shelf && shelf[1] == OLD_COPY
    ensures MergedDocs(shelf, [1]) == OLD_COPY.docs
  {
    var column := Column(OLD_COPY.docs, {});
    assert Inputs(shelf, [1]) == [column];
    assert [column][..0] == [] && column.rows[..0] == [];
    assert Survivors(column) == OLD_COPY.docs;
    assert Merge([column]) == Merge([column][..0]) + Survivors(column);
  }

  // ------------------------------------------------------------------ the whole run

  function Script(): seq<Step> {
    [Command(Added(KEY, OLD)), Crash(Flushing(true), Left(), DURABLE), Command(Updated(KEY, NEW)), Flush, Compact([1])]
  }

  function StageAt(n: nat): Index {
    match n
    case 0 => Stage0()
    case 1 => Stage1()
    case 2 => Stage2()
    case 3 => Stage3()
    case 4 => Stage4()
    case _ => Compacted(Stage4(), [1])
  }

  lemma StageHasWriter(n: nat)
    requires n < 5
    ensures StageAt(n).writer in StageAt(n).shelf
  {
  }

  lemma KeyIsValid()
    ensures ValidKey(KEY)
  {
  }

  lemma StageFollows(n: nat)
    requires n < 5
    ensures StageAt(n).writer in StageAt(n).shelf
    ensures Allowed(StageAt(n), Script()[n]) && Next(StageAt(n), Script()[n]) == StageAt(n + 1)
  {
    hide Stage0, Stage1, Stage2, Stage3, Stage4, Left, Applied, Flushed, Compacted, Reopened, Leaves, Structured,
         Compactable, ValidKey, Openable;
    StageHasWriter(n);
    KeyIsValid();
    KeyIsNew();
    match n {
      case 0 => FirstStage();
      case 1 => SecondStage();
      case 2 => ThirdStage();
      case 3 => FourthStage();
      case 4 => LastStageIsUsable();
    }
  }

  lemma KeyIsNew()
    ensures KEY !in Stage0().keymap
  {
  }

  lemma {:induction false} Played(n: nat)
    requires n <= 5
    ensures Stage0().writer in Stage0().shelf
    ensures State(Stage0(), Script(), n) == StageAt(n)
  {
    if n > 0 {
      Played(n - 1);
      StageFollows(n - 1);
      hide Next, Allowed, StageAt, Script;
    }
  }

  /**
   From an empty directory: a key is added, a crash strikes inside flush(), the reopened
   index is updated, flushed and compacted -- and the replaced document is back.
   */
  lemma StaleCopyResurrection()
    ensures Openable(NEW_DIRECTORY)
    ensures var start, run := Reopened(NEW_DIRECTORY, DURABLE), Script();
            && (forall i: nat :: i < |run| ==> Allowed(State(start, run, i), run[i]))
            && Contents(State(start, run, 4)) == map[KEY := NEW]
            && Contents(State(start, run, 5)) == map[KEY := OLD]
  {
    FirstOpened();
    Played(4);
    Played(5);
    LastStageIsUsable();
    LastStage();
    hide Allowed, Next, State, Stage0, Stage4, Compacted, Contents, Reopened, Openable, Left;
    forall i: nat | i < 5 ensures Allowed(State(Stage0(), Script(), i), Script()[i]) {
      Played(i);
      StageFollows(i);
    }
  }
}
