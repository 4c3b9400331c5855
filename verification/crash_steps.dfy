/**
 The directories that flush() and compact() pass through, write by write, and why each
 of them is one that Runs.Leaves allows a crash to leave.
 */
module CrashSteps {
  import opened Sequences
  import opened SegmentModel
  import opened Shelves
  import opened Operations
  import opened Compaction
  import opened Recovery
  import opened Runs

  /**
   Every directory flush() passes through is one Runs.Leaves allows a crash to leave; the log
   is only emptied where there is one, and not while it is replayed.
   */
  ghost predicate FlushSteps(ix: Index, passed: seq<Disk>)
    requires ix.writer in ix.shelf
  {
    forall i :: 0 <= i < |passed| ==>
      && (Leaves(ix, Flushing(false), passed[i]) || Leaves(ix, Flushing(true), passed[i]))
      && passed[i].marker == ix.disk.marker
      && (!ix.policy.durable || ix.replaying ==> passed[i].wal == ix.disk.wal)
  }

  /** Generation g's files differ; everything the manifest names is as it was. */
  lemma UnnamedWrite(ix: Index, g: nat, d: Disk)
    requires Structured(ix) && Mirrored(ix) && g !in ix.order
    requires forall f :: f in ix.order ==> f in d.files && d.files[f] == ix.disk.files[f] && DelOf(d, f) == DelOf(ix.disk, f)
    requires d.order == ix.order && d.log == ix.disk.log && d.next >= ix.next
    ensures SameSegments(d, ix)
  {
    forall f | f in ix.order ensures Stores(d, ix.shelf, f) {
      assert Stores(ix.disk, ix.shelf, f);
    }
  }

  /** The directories flush() writes before and after the manifest names the new segment. */
  function FlushFiles(ix: Index): Disk
    requires ix.writer in ix.shelf
  {
    var v := ix.shelf[ix.writer];
    ix.disk.(files := ix.disk.files[ix.writer := v.docs],
             dels := if v.dead == {} then ix.disk.dels else ix.disk.dels[ix.writer := v.dead])
  }

  /** flush() once the next writer has started, the log not yet emptied. */
  function Registered(ix: Index): (r: Index)
    requires ix.writer in ix.shelf
    ensures r.writer in r.shelf
  {
    ix.(order := ix.order + [ix.writer],
        shelf := WithEmpty(ix.shelf, ix.next),
        next := ix.next + 1,
        writer := ix.next,
        disk := FlushFiles(ix).(order := ix.order + [ix.writer], next := ix.next + 1))
  }

  function LogEmptied(ix: Index): Index {
    if !ix.policy.durable then ix
    else if ix.replaying then ix.(truncatePending := true)
    else ix.(healthy := true, disk := ix.disk.(wal := []))
  }

  lemma FlushedInParts(ix: Index)
    requires Structured(ix) && Mirrored(ix) && ix.shelf[ix.writer].docs != []
    ensures Flushed(ix) == LogEmptied(Registered(ix))
  {
  }

  lemma FlushUnnamed(ix: Index, files: map<nat, seq<Entry>>, dels: map<nat, set<nat>>)
    requires Structured(ix) && Mirrored(ix) && ix.shelf[ix.writer].docs != []
    requires files - {ix.writer} == ix.disk.files - {ix.writer}
    requires dels - {ix.writer} == ix.disk.dels - {ix.writer}
    ensures Leaves(ix, Flushing(false), ix.disk.(files := files, dels := dels))
  {
    var d := ix.disk.(files := files, dels := dels);
    forall f | f in ix.order ensures f in files && files[f] == ix.disk.files[f] && DelOf(d, f) == DelOf(ix.disk, f) {
      assert f in ix.disk.files.Keys && f in ix.disk.files - {ix.writer};
      assert f in files <==> f in files - {ix.writer};
      assert f in dels <==> f in dels - {ix.writer};
      assert f in ix.disk.dels <==> f in ix.disk.dels - {ix.writer};
      if f in dels { assert dels[f] == (dels - {ix.writer})[f] == (ix.disk.dels - {ix.writer})[f]; }
      assert files[f] == (files - {ix.writer})[f] == (ix.disk.files - {ix.writer})[f];
    }
    UnnamedWrite(ix, ix.writer, d);
  }

  lemma FlushNamed(ix: Index, next: nat, wal: seq<WalRecord>)
    requires Structured(ix) && Mirrored(ix) && ix.shelf[ix.writer].docs != []
    requires next >= ix.next && (wal == [] || wal == ix.disk.wal)
    ensures Leaves(ix, Flushing(true), FlushFiles(ix).(order := ix.order + [ix.writer], next := next, wal := wal))
  {
    var jx, d := Flushed(ix), FlushFiles(ix).(order := ix.order + [ix.writer], next := next, wal := wal);
    forall g | g in jx.order ensures Stores(d, jx.shelf, g) {
      if g != ix.writer {
        assert Stores(ix.disk, ix.shelf, g);
      }
    }
  }

  lemma RegisteringSteps(ix: Index)
    requires Structured(ix) && Mirrored(ix) && ix.shelf[ix.writer].docs != []
    ensures var d := FlushFiles(ix).(order := ix.order + [ix.writer]);
            FlushSteps(ix, [d] + [d.(next := ix.next + 1)])
  {
    assert ix.disk.next == ix.next && FlushFiles(ix).next == ix.next && FlushFiles(ix).wal == ix.disk.wal;
    assert FlushFiles(ix).marker == ix.disk.marker;
    hide Structured, Mirrored, Leaves, FlushFiles;
    FlushNamed(ix, ix.next, ix.disk.wal);
    FlushNamed(ix, ix.next + 1, ix.disk.wal);
  }

  lemma SerialisingSteps(ix: Index, torn: seq<Entry>)
    requires Structured(ix) && Mirrored(ix) && ix.shelf[ix.writer].docs != []
    ensures var v := ix.shelf[ix.writer];
            var a, b := ix.disk.(files := ix.disk.files[ix.writer := torn]), ix.disk.(files := ix.disk.files[ix.writer := v.docs]);
            FlushSteps(ix, [a] + [b]) && FlushSteps(ix, [a] + [b] + [FlushFiles(ix)])
  {
    hide Structured, Mirrored, Leaves;
    StructuredWriter(ix);
    var v := ix.shelf[ix.writer];
    FlushUnnamed(ix, ix.disk.files[ix.writer := torn], ix.disk.dels);
    FlushUnnamed(ix, ix.disk.files[ix.writer := v.docs], ix.disk.dels);
    FlushUnnamed(ix, ix.disk.files[ix.writer := v.docs], FlushFiles(ix).dels);
  }

  // ------------------------------------------------------------------ compact()

  ghost predicate CompactionSteps(ix: Index, gens: seq<nat>, passed: seq<Disk>)
    requires ix.writer in ix.shelf
  {
    forall i :: 0 <= i < |passed| ==>
      Leaves(ix, Compacting(gens, false), passed[i]) || Leaves(ix, Compacting(gens, true), passed[i])
  }

  /** Until the swap: the output's file, then the marker, then the keymap's records. */
  function Unswapped(ix: Index, output: seq<Entry>, marker: bool, log: Option<Keymap>): Disk {
    ix.disk.(next := ix.next + 1, files := ix.disk.files[ix.next := output], marker := marker, log := log)
  }

  /** From the swap on: `gone` are the inputs whose files have been deleted. */
  function Swapped(ix: Index, gens: seq<nat>, files: set<nat>, dels: set<nat>, marker: bool): Disk {
    var docs := MergedDocs(ix.shelf, gens);
    Disk(ix.next + 1, Without(ix.order, Elements(gens)) + [ix.next],
         ix.disk.files[ix.next := docs] - files, ix.disk.dels - dels,
         Some(CompactedKeymap(ix.shelf, ix.keymap, gens, ix.next)), ix.disk.wal, marker)
  }

  /** The output's generation is new everywhere. */
  lemma FreshOutput(ix: Index, gens: seq<nat>)
    requires Structured(ix) && Compactable(ix, gens)
    ensures ix.next !in ix.shelf && ix.next !in ix.order && ix.next !in Elements(ix.order)
    ensures ix.next !in gens && ix.next !in Elements(gens)
    ensures Mirrored(ix) ==> ix.next !in ix.disk.dels && ix.disk.next == ix.next
  {
    assert ix.next !in Elements(ix.order);
  }

  lemma PutAndTake<V>(m: map<nat, V>, gone: set<nat>, out: nat, v: V)
    requires out !in gone
    ensures m[out := v] - gone == (m - gone)[out := v]
  {
  }

  lemma BurntIsLeft(ix: Index, gens: seq<nat>)
    requires Structured(ix) && Mirrored(ix) && Compactable(ix, gens)
    ensures Leaves(ix, Compacting(gens, false), ix.disk.(next := ix.next + 1))
  {
    forall f | f in ix.order ensures Stores(ix.disk.(next := ix.next + 1), ix.shelf, f) {
      assert Stores(ix.disk, ix.shelf, f);
    }
  }

  lemma CompactedVolume(ix: Index, gens: seq<nat>, f: nat)
    requires Structured(ix) && Compactable(ix, gens) && f in Compacted(ix, gens).order
    ensures f in Compacted(ix, gens).shelf
    ensures f == ix.next ==> Compacted(ix, gens).shelf[f] == Volume(MergedDocs(ix.shelf, gens), {})
    ensures f != ix.next ==> f in ix.order && f !in gens && f in ix.shelf && Compacted(ix, gens).shelf[f] == ix.shelf[f]
  {
    hide MergedDocs, CompactedKeymap;
    assert f in ix.order ==> f in Elements(ix.order);
  }

  lemma UnswappedIsLeft(ix: Index, gens: seq<nat>, output: seq<Entry>, marker: bool, log: Option<Keymap>)
    requires Structured(ix) && Mirrored(ix) && Compactable(ix, gens)
    requires marker || log == ix.disk.log
    ensures Leaves(ix, Compacting(gens, false), Unswapped(ix, output, marker, log))
  {
    var d := Unswapped(ix, output, marker, log);
    assert ix.next !in ix.shelf;
    forall f | f in ix.order ensures Stores(d, ix.shelf, f) {
      assert Stores(ix.disk, ix.shelf, f);
    }
  }

  lemma SwappedIsLeft(ix: Index, gens: seq<nat>, files: set<nat>, dels: set<nat>, marker: bool)
    requires Structured(ix) && Mirrored(ix) && Compactable(ix, gens)
    requires files <= Elements(gens) && dels <= Elements(gens)
    ensures Leaves(ix, Compacting(gens, true), Swapped(ix, gens, files, dels, marker))
  {
    hide Structured, Mirrored, Compactable, MergedDocs, CompactedKeymap, Without, CompactedShelf, Stores;
    var d, jx := Swapped(ix, gens, files, dels, marker), Compacted(ix, gens);
    FreshOutput(ix, gens);
    StructuredWriter(ix);
    forall f | f in jx.order ensures Stores(d, jx.shelf, f) {
      SwappedStores(ix, gens, files, dels, marker, f);
    }
  }

  lemma StructuredWriter(ix: Index)
    requires Structured(ix)
    ensures ix.writer in ix.shelf
  {
  }

  lemma SwappedStores(ix: Index, gens: seq<nat>, files: set<nat>, dels: set<nat>, marker: bool, f: nat)
    requires Structured(ix) && Mirrored(ix) && Compactable(ix, gens)
    requires files <= Elements(gens) && dels <= Elements(gens) && f in Compacted(ix, gens).order
    ensures Stores(Swapped(ix, gens, files, dels, marker), Compacted(ix, gens).shelf, f)
  {
    FreshOutput(ix, gens);
    CompactedVolume(ix, gens, f);
    assert f in ix.order ==> Stores(ix.disk, ix.shelf, f);
    hide Structured, Mirrored, MergedDocs, CompactedKeymap, CompactedShelf, Without;
  }

  lemma CompactedDisk(ix: Index, gens: seq<nat>)
    requires Structured(ix) && Mirrored(ix) && Compactable(ix, gens)
    ensures Compacted(ix, gens).disk == Swapped(ix, gens, Elements(gens), Elements(gens), false)
  {
    hide Structured, Mirrored, Compactable, MergedDocs, CompactedKeymap, Elements, Without, CompactedShelf;
    FreshOutput(ix, gens);
    PutAndTake(ix.disk.files, Elements(gens), ix.next, MergedDocs(ix.shelf, gens));
  }

  lemma CompactionStepsGrow(ix: Index, gens: seq<nat>, passed: seq<Disk>, swapped: bool, d: Disk)
    requires ix.writer in ix.shelf && CompactionSteps(ix, gens, passed) && Leaves(ix, Compacting(gens, swapped), d)
    ensures CompactionSteps(ix, gens, passed + [d])
  {
    hide Leaves;
  }

  lemma {:induction false} WithoutAbsent(s: seq<nat>, gone: set<nat>)
    requires forall g :: g in s ==> g !in gone
    ensures Without(s, gone) == s
  {
    if s != [] {
      WithoutAbsent(s[..|s| - 1], gone);
      assert s == s[..|s| - 1] + [s[|s| - 1]];
    }
  }

  lemma PrefixDiffers(s: seq<nat>, i: nat)
    requires Distinct(s) && i < |s|
    ensures var n := |s| - 1; Distinct(s[..n]) && (i < n ==> s[n] != s[i]) && s[n] !in s[..n]
  {
  }

  lemma {:induction false} WithoutOne(s: seq<nat>, i: nat)
    requires Distinct(s) && i < |s|
    ensures Without(s, {s[i]}) == s[..i] + s[i + 1..]
  {
    var n := |s| - 1;
    PrefixDiffers(s, i);
    hide Distinct;
    if i == n {
      WithoutAbsent(s[..n], {s[n]});
    } else {
      WithoutOne(s[..n], i);
      assert Without(s, {s[i]}) == Without(s[..n], {s[i]}) + [s[n]];
      hide Without;
      Closed(s, i);
    }
  }

  lemma Closed(s: seq<nat>, i: nat)
    requires i < |s| - 1
    ensures var n := |s| - 1; s[..n][i] == s[i] && s[..n][..i] + s[..n][i + 1..] + [s[n]] == s[..i] + s[i + 1..]
  {
  }

  lemma {:induction false} WithoutTwice(s: seq<nat>, a: set<nat>, b: set<nat>)
    ensures Without(Without(s, a), b) == Without(s, a + b)
  {
    if s != [] {
      var n := |s| - 1;
      WithoutTwice(s[..n], a, b);
      var rest := Without(s[..n], a);
      assert (rest + [s[n]])[..|rest|] == rest;
    }
  }

  /** Removing one more generation. */
  lemma WithoutNext(s: seq<nat>, gens: seq<nat>, n: nat)
    requires n < |gens|
    ensures Without(Without(s, Elements(gens[..n])), {gens[n]}) == Without(s, Elements(gens[..n + 1]))
  {
    WithoutTwice(s, Elements(gens[..n]), {gens[n]});
    assert Elements(gens[..n + 1]) == Elements(gens[..n]) + {gens[n]};
  }

  lemma WithoutLast(s: seq<nat>, gone: set<nat>, out: nat)
    requires out !in gone
    ensures Without(s + [out], gone) == Without(s, gone) + [out]
  {
    assert (s + [out])[..|s|] == s;
  }

  lemma WritingSteps(ix: Index, gens: seq<nat>, torn: seq<Entry>, docs: seq<Entry>)
    requires Structured(ix) && Mirrored(ix) && Compactable(ix, gens)
    ensures CompactionSteps(ix, gens,
              [ix.disk.(next := ix.next + 1)] + [Unswapped(ix, torn, ix.disk.marker, ix.disk.log)]
              + [Unswapped(ix, docs, ix.disk.marker, ix.disk.log)] + [Unswapped(ix, docs, true, ix.disk.log)])
  {
    assert ix.writer in ix.shelf;
    var a, b := ix.disk.(next := ix.next + 1), Unswapped(ix, torn, ix.disk.marker, ix.disk.log);
    var c, d := Unswapped(ix, docs, ix.disk.marker, ix.disk.log), Unswapped(ix, docs, true, ix.disk.log);
    hide Structured, Mirrored, Compactable, Leaves, Unswapped;
    BurntIsLeft(ix, gens);
    assert CompactionSteps(ix, gens, [a]);
    hide CompactionSteps;
    UnswappedIsLeft(ix, gens, torn, ix.disk.marker, ix.disk.log);
    UnswappedIsLeft(ix, gens, docs, ix.disk.marker, ix.disk.log);
    UnswappedIsLeft(ix, gens, docs, true, ix.disk.log);
    CompactionStepsGrow(ix, gens, [a], false, b);
    CompactionStepsGrow(ix, gens, [a] + [b], false, c);
    CompactionStepsGrow(ix, gens, [a] + [b] + [c], false, d);
  }

  function FilesGone(d: Disk, files: set<nat>, dels: set<nat>): Disk {
    d.(files := d.files - files, dels := d.dels - dels)
  }

  /** Directories from which some of the generations' files are gone. */
  ghost predicate Deleting(d: Disk, gens: seq<nat>, passed: seq<Disk>) {
    forall i :: 0 <= i < |passed| ==>
      exists files, dels :: files <= Elements(gens) && dels <= Elements(gens) && passed[i] == FilesGone(d, files, dels)
  }

  lemma CompactionStepsJoin(ix: Index, gens: seq<nat>, a: seq<Disk>, b: seq<Disk>)
    requires ix.writer in ix.shelf && CompactionSteps(ix, gens, a) && CompactionSteps(ix, gens, b)
    ensures CompactionSteps(ix, gens, a + b)
  {
    hide Leaves;
  }

  /** Directories that differ from one another in the keymap log only. */
  ghost predicate Logging(d: Disk, passed: seq<Disk>) {
    forall i :: 0 <= i < |passed| ==> passed[i] == d.(log := passed[i].log)
  }

  lemma RepointingSteps(ix: Index, gens: seq<nat>, docs: seq<Entry>, passed: seq<Disk>)
    requires Structured(ix) && Mirrored(ix) && Compactable(ix, gens)
    requires Logging(Unswapped(ix, docs, true, ix.disk.log), passed)
    ensures CompactionSteps(ix, gens, passed)
  {
    assert ix.writer in ix.shelf;
    hide Structured, Mirrored, Compactable, Leaves;
    forall i | 0 <= i < |passed| ensures Leaves(ix, Compacting(gens, false), passed[i]) {
      assert passed[i] == Unswapped(ix, docs, true, passed[i].log);
      UnswappedIsLeft(ix, gens, docs, true, passed[i].log);
    }
  }

  /** The swap itself is one saved manifest; deleting files only takes files away. */
  lemma SwappedShape(ix: Index, gens: seq<nat>, files: set<nat>, dels: set<nat>)
    requires Mirrored(ix)
    ensures var km, docs := CompactedKeymap(ix.shelf, ix.keymap, gens, ix.next), MergedDocs(ix.shelf, gens);
            Swapped(ix, gens, {}, {}, true)
              == Unswapped(ix, docs, true, Some(km)).(order := Without(ix.order, Elements(gens)) + [ix.next])
    ensures FilesGone(Swapped(ix, gens, {}, {}, true), files, dels) == Swapped(ix, gens, files, dels, true)
    ensures Swapped(ix, gens, files, dels, true).(marker := false) == Swapped(ix, gens, files, dels, false)
  {
    hide MergedDocs, CompactedKeymap;
    var m := ix.disk.files[ix.next := MergedDocs(ix.shelf, gens)];
    assert (m - {}) - files == m - files && m - {} == m;
    assert (ix.disk.dels - {}) - dels == ix.disk.dels - dels && ix.disk.dels - {} == ix.disk.dels;
  }

  lemma DeletingSteps(ix: Index, gens: seq<nat>, passed: seq<Disk>)
    requires Structured(ix) && Mirrored(ix) && Compactable(ix, gens)
    requires Deleting(Swapped(ix, gens, {}, {}, true), gens, passed)
    ensures CompactionSteps(ix, gens, passed)
  {
    assert ix.writer in ix.shelf;
    hide Structured, Mirrored, Compactable, Leaves, MergedDocs, CompactedKeymap, Swapped, FilesGone;
    forall i | 0 <= i < |passed| ensures Leaves(ix, Compacting(gens, true), passed[i]) {
      var files, dels :| files <= Elements(gens) && dels <= Elements(gens)
        && passed[i] == FilesGone(Swapped(ix, gens, {}, {}, true), files, dels);
      SwappedShape(ix, gens, files, dels);
      SwappedIsLeft(ix, gens, files, dels, true);
    }
  }

  /** Every write of the second half of compact(), put together. */
  lemma SwappingSteps(ix: Index, gens: seq<nat>, deleting: seq<Disk>)
    requires Structured(ix) && Mirrored(ix) && Compactable(ix, gens)
    requires Deleting(Swapped(ix, gens, {}, {}, true), gens, deleting)
    ensures CompactionSteps(ix, gens,
              [Swapped(ix, gens, {}, {}, true)] + deleting + [Swapped(ix, gens, Elements(gens), Elements(gens), false)])
  {
    assert ix.writer in ix.shelf;
    var swap, last := [Swapped(ix, gens, {}, {}, true)], Swapped(ix, gens, Elements(gens), Elements(gens), false);
    hide Structured, Mirrored, Compactable, Leaves, Swapped, Deleting;
    SwappedIsLeft(ix, gens, {}, {}, true);
    SwappedIsLeft(ix, gens, Elements(gens), Elements(gens), false);
    assert CompactionSteps(ix, gens, swap);
    DeletingSteps(ix, gens, deleting);
    hide CompactionSteps;
    CompactionStepsJoin(ix, gens, swap, deleting);
    CompactionStepsGrow(ix, gens, swap + deleting, true, last);
  }

  /** compact() after step 4: the output is open and holds the merged keys. */
  function Repointed(ix: Index, gens: seq<nat>): Index {
    var docs, km := MergedDocs(ix.shelf, gens), CompactedKeymap(ix.shelf, ix.keymap, gens, ix.next);
    ix.(order := ix.order + [ix.next], shelf := ix.shelf[ix.next := Volume(docs, {})], keymap := km,
        next := ix.next + 1, disk := Unswapped(ix, docs, true, Some(km)))
  }

  /** Dropping the inputs from memory gives the compacted index, whatever the directory. */
  lemma SwappedMemory(ix: Index, gens: seq<nat>, d: Disk)
    requires Structured(ix) && Mirrored(ix) && Compactable(ix, gens)
    ensures Distinct(ix.order + [ix.next])
    ensures var rx := Repointed(ix, gens);
            rx.(order := Without(rx.order, Elements(gens)), shelf := rx.shelf - Elements(gens), disk := d)
              == Compacted(ix, gens).(disk := d)
  {
    hide Structured, Mirrored, Compactable, MergedDocs, CompactedKeymap, Elements, Without;
    FreshOutput(ix, gens);
    OrderWithOutput(ix);
    PutAndTake(ix.shelf, Elements(gens), ix.next, Volume(MergedDocs(ix.shelf, gens), {}));
    WithoutLast(ix.order, Elements(gens), ix.next);
  }

  lemma OrderWithOutput(ix: Index)
    requires Structured(ix) && ix.next !in ix.order
    ensures Distinct(ix.order + [ix.next])
  {
  }

  lemma RepointedIsLeft(ix: Index, gens: seq<nat>, d: Disk)
    requires Structured(ix) && Mirrored(ix) && Compactable(ix, gens) && d == Repointed(ix, gens).disk
    ensures Leaves(ix, Compacting(gens, false), d)
    ensures d == Unswapped(ix, MergedDocs(ix.shelf, gens), true, Some(CompactedKeymap(ix.shelf, ix.keymap, gens, ix.next)))
  {
    UnswappedIsLeft(ix, gens, MergedDocs(ix.shelf, gens), true, d.log);
  }
}
