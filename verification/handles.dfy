/**
 Handles: what add_document() returns names one document for ever.  Generations are
 never handed out twice, across any number of crashes, so a handle that resolves at
 all resolves to the document it was issued for.  Nothing else is asked of the index
 here: stray copies, entries that name dead documents and crashes anywhere, inside
 single commands and inside recovery and replay too, are part of the runs.
 */
module Handles {
  import opened Sequences
  import opened SegmentModel
  import opened Shelves
  import opened Rebuild
  import opened Operations
  import opened Mutations
  import opened Compaction
  import opened Recovery
  import opened RecoverySteps
  import opened Durability
  import opened Reopening
  import opened CrashSafety
  import opened Runs
  import opened LooseRuns
  import opened ReplayCrash
  import opened CommandSteps
  import opened Restarts

  const DOCID_SPAN: nat := 0x100_0000_0000
  const GENERATION_LIMIT: nat := 0x80_0000

  /** make_handle(): the generation above the low 40 bits. */
  function Handle(loc: Loc): (r: nat) {
    loc.generation * DOCID_SPAN + loc.docid
  }

  predicate Earlier(a: Loc, b: Loc) {
    a.generation < b.generation || (a.generation == b.generation && a.docid < b.docid)
  }

  /** In range, a handle fits a signed 64-bit integer and orders as its parts do. */
  lemma HandleOrders(a: Loc, b: Loc)
    requires a.docid < DOCID_SPAN && b.docid < DOCID_SPAN
    ensures Handle(a) < Handle(b) <==> Earlier(a, b)
    ensures Handle(a) == Handle(b) <==> a == b
    ensures a.generation < GENERATION_LIMIT ==> Handle(a) < 0x8000_0000_0000_0000
    ensures Handle(a) / DOCID_SPAN == a.generation && Handle(a) % DOCID_SPAN == a.docid
  {
  }

  /** The generation is above the low 40 bits, which are the docid; 23 bits of it fit. */
  lemma HandleIs(a: Loc)
    requires a.docid < 1099511627776
    ensures Handle(a) / 1099511627776 == a.generation && Handle(a) % 1099511627776 == a.docid
    ensures a.generation < 8388608 ==> Handle(a) < 9223372036854775808
    ensures Handle(Loc(3, 7)) == 3298534883335
  {
    HandleOrders(a, a);
  }

  /** Segments known earlier are either gone or have only gained documents and tombstones. */
  ghost predicate Extends(a: Shelf, b: Shelf, bound: nat) {
    forall g :: g in b && g < bound ==> g in a && a[g].docs <= b[g].docs && a[g].dead <= b[g].dead
  }

  /** Where the next document goes. */
  function Mark(ix: Index): Loc {
    Loc(ix.writer, |VolumeAt(ix.shelf, ix.writer).docs|)
  }

  ghost predicate Grows(ix: Index, jx: Index) {
    && ix.writer < ix.next <= jx.next
    && Extends(ix.shelf, jx.shelf, ix.next)
    && (Mark(ix) == Mark(jx) || Earlier(Mark(ix), Mark(jx)))
  }

  lemma GrowsFurther(ix: Index, jx: Index, kx: Index)
    requires Grows(ix, jx) && Grows(jx, kx)
    ensures Grows(ix, kx)
    ensures Earlier(Mark(ix), Mark(jx)) || Earlier(Mark(jx), Mark(kx)) ==> Earlier(Mark(ix), Mark(kx))
  {
  }

  lemma LoggedGrows(ix: Index, jx: Index, r: WalRecord)
    requires Grows(ix, jx)
    ensures Grows(ix, Logged(jx, r))
  {
  }

  lemma StoredGrows(ix: Index, k: Key, doc: Document)
    requires Structured(ix)
    ensures Grows(ix, Stored(ix, k, doc)) && Earlier(Mark(ix), Mark(Stored(ix, k, doc)))
  {
  }

  lemma FlushedGrows(ix: Index)
    requires Structured(ix)
    ensures Grows(ix, Flushed(ix))
    ensures Grows(ix, AutoFlushed(ix))
  {
  }

  lemma TombstonedGrows(ix: Index, loc: Loc)
    requires ix.writer < ix.next
    ensures Grows(ix, Tombstoned(ix, loc))
  {
    TombstonedFields(ix, loc);
    assert Tombstoned(ix, loc).next == ix.next;
    hide Tombstoned;
  }

  lemma CompactedGrows(ix: Index, gens: seq<nat>)
    requires Structured(ix) && Compactable(ix, gens)
    ensures Grows(ix, Compacted(ix, gens))
  {
    hide MergedDocs, CompactedKeymap;
    assert ix.next !in ix.shelf;
  }

  // ------------------------------------------------- what all of this asks of an index

  /** Entries of open segments name stored documents; the others name generations used up. */
  ghost predicate Anchors(shelf: Shelf, km: Keymap, next: nat) {
    forall k :: k in km ==> km[k].generation < next && (km[k].generation in shelf ==> InRange(shelf, km[k]))
  }

  ghost predicate Anchored(ix: Index) {
    && Structured(ix) && Mirrored(ix) && WellLogged(ix.disk.wal)
    && Anchors(ix.shelf, ix.keymap, ix.next)
  }

  lemma AnchoredHasWriter(ix: Index)
    requires Anchored(ix)
    ensures ix.writer in ix.shelf && Grows(ix, ix)
  {
  }

  lemma UsableIsAnchored(ix: Index)
    requires Usable(ix) && WellLogged(ix.disk.wal)
    ensures Anchored(ix)
  {
  }

  /** The index is in order and has grown. */
  ghost predicate Becomes(ix: Index, jx: Index) {
    Anchored(jx) && Grows(ix, jx)
  }

  lemma BecomesFurther(ix: Index, jx: Index, kx: Index)
    requires Becomes(ix, jx) && Becomes(jx, kx)
    ensures Becomes(ix, kx)
    ensures Earlier(Mark(ix), Mark(jx)) || Earlier(Mark(jx), Mark(kx)) ==> Earlier(Mark(ix), Mark(kx))
  {
    hide Grows, Anchored;
    GrowsFurther(ix, jx, kx);
  }

  // ------------------------------------------------------------------ commands

  lemma StoredBecomes(ix: Index, k: Key, doc: Document)
    requires Anchored(ix) && ValidKey(k)
    ensures ix.writer in ix.shelf
    ensures Becomes(ix, Stored(ix, k, doc)) && Earlier(Mark(ix), Mark(Stored(ix, k, doc)))
  {
    var s := Stored(ix, k, doc);
    StoredIsStructured(ix, k, doc);
    StoredGrows(ix, k, doc);
    StoredIs(ix, k, doc);
    hide Grows, Structured, Mirrored;
    assert s.disk.wal == ix.disk.wal && s.next == ix.next && ix.writer < ix.next && ix.writer in ix.shelf;
    StoredAnchors(ix.shelf, ix.keymap, ix.writer, ix.next, Entry(k, doc));
  }

  lemma StoredAnchors(shelf: Shelf, km: Keymap, g: nat, next: nat, e: Entry)
    requires Anchors(shelf, km, next) && g in shelf && g < next
    ensures Anchors(Append(shelf, g, e), km[e.key := End(shelf, g)], next)
  {
  }

  lemma FlushedBecomes(ix: Index)
    requires Anchored(ix)
    ensures ix.writer in ix.shelf && Becomes(ix, Flushed(ix)) && Becomes(ix, AutoFlushed(ix))
  {
    AnchoredHasWriter(ix);
    FlushedIsStructured(ix);
    FlushedIsMirrored(ix);
    FlushedGrows(ix);
    hide Grows, Structured, Mirrored;
    assert Anchors(Flushed(ix).shelf, ix.keymap, Flushed(ix).next) && Flushed(ix).keymap == ix.keymap;
    assert WellLogged(Flushed(ix).disk.wal);
    hide Flushed;
  }

  lemma LoggedBecomes(ix: Index, r: WalRecord)
    requires Anchored(ix) && Loggable(r)
    ensures Becomes(ix, Logged(ix, r)) && Mark(Logged(ix, r)) == Mark(ix)
  {
    AnchoredHasWriter(ix);
    LoggedKeeps(ix, r);
    LoggedGrows(ix, ix, r);
  }

  lemma TombstonedBecomes(ix: Index, loc: Loc)
    requires Anchored(ix) && (loc.generation in ix.shelf ==> InRange(ix.shelf, loc))
    ensures Becomes(ix, Tombstoned(ix, loc))
  {
    TombstonedGrows(ix, loc);
    TombstonedFields(ix, loc);
    AnchoredHasWriter(ix);
    if InRange(ix.shelf, loc) {
      TombstonedIsStructured(ix, loc);
      TombstonedIsMirrored(ix, loc);
    } else {
      assert Tombstoned(ix, loc) == ix;
    }
    assert Tombstoned(ix, loc).next == ix.next;
    hide Grows, Structured, Mirrored, Tombstoned;
    assert Anchors(Kill(ix.shelf, loc), ix.keymap, ix.next);
  }

  lemma ForgottenBecomes(ix: Index, k: Key)
    requires Anchored(ix)
    ensures Becomes(ix, Forgotten(ix, k))
  {
    AnchoredHasWriter(ix);
    ForgottenKeeps(ix, k);
    hide Structured, Mirrored;
  }

  /** The place a command's document gets, when it stores one. */
  predicate Issues(r: WalRecord) {
    !r.Deleted? && !Refused(r)
  }

  /** A command moves the mark past the place it gave its document. */
  lemma AppliedBecomes(ix: Index, r: WalRecord)
    requires Anchored(ix) && ValidKey(r.key)
    ensures ix.writer in ix.shelf && Becomes(ix, Applied(ix, r))
    ensures Issues(r) ==> Earlier(Mark(ix), Mark(Applied(ix, r)))
  {
    AnchoredHasWriter(ix);
    if !Refused(r) {
      match r {
        case Added(k, doc) => AddBecomes(ix, k, doc);
        case Updated(k, doc) => UpdateBecomes(ix, k, doc);
        case Deleted(k) => DeleteBecomes(ix, k);
      }
    } else {
      assert Applied(ix, r) == ix;
    }
  }

  lemma AddBecomes(ix: Index, k: Key, doc: Document)
    requires Anchored(ix) && ValidKey(k) && doc.terms > 0
    ensures ix.writer in ix.shelf && Becomes(ix, Add(ix, k, doc)) && Earlier(Mark(ix), Mark(Add(ix, k, doc)))
  {
    StoredBecomes(ix, k, doc);
    var s, r := Stored(ix, k, doc), Added(k, doc);
    hide Grows, Anchored, Logged, Stored, AutoFlushed, Mark;
    LoggedBecomes(s, r);
    FlushedBecomes(Logged(s, r));
    BecomesFurther(ix, s, Logged(s, r));
    BecomesFurther(ix, Logged(s, r), AutoFlushed(Logged(s, r)));
  }

  lemma UpdateBecomes(ix: Index, k: Key, doc: Document)
    requires Anchored(ix) && ValidKey(k) && doc.terms > 0
    ensures ix.writer in ix.shelf && Becomes(ix, Update(ix, k, doc)) && Earlier(Mark(ix), Mark(Update(ix, k, doc)))
  {
    StoredBecomes(ix, k, doc);
    var s, r := Stored(ix, k, doc), Updated(k, doc);
    assert k in ix.keymap ==> Prior(ix, ix.keymap[k]);
    hide Grows, Anchored, Logged, Stored, AutoFlushed, Mark, Tombstoned;
    FlushedBecomes(s);
    var f := AutoFlushed(s);
    LoggedBecomes(f, r);
    BecomesFurther(ix, s, f);
    BecomesFurther(ix, f, Logged(f, r));
    if k in ix.keymap {
      StillInRange(ix, Logged(f, r), ix.keymap[k]);
      TombstonedBecomes(Logged(f, r), ix.keymap[k]);
      BecomesFurther(ix, Logged(f, r), Tombstoned(Logged(f, r), ix.keymap[k]));
    }
  }

  /** A place that an entry may name. */
  ghost predicate Prior(ix: Index, loc: Loc) {
    loc.generation < ix.next && (loc.generation in ix.shelf ==> InRange(ix.shelf, loc))
  }

  lemma StillInRange(ix: Index, jx: Index, loc: Loc)
    requires Grows(ix, jx) && Prior(ix, loc)
    ensures Prior(jx, loc)
  {
  }

  lemma DeleteBecomes(ix: Index, k: Key)
    requires Anchored(ix) && ValidKey(k)
    ensures ix.writer in ix.shelf && Becomes(ix, Delete(ix, k))
  {
    AnchoredHasWriter(ix);
    if Deletable(ix, k) {
      var t, r := Tombstoned(ix, ix.keymap[k]), Deleted(k);
      TombstonedBecomes(ix, ix.keymap[k]);
      hide Grows, Anchored, Logged, Tombstoned;
      ForgottenBecomes(t, k);
      LoggedBecomes(Forgotten(t, k), r);
      BecomesFurther(ix, t, Forgotten(t, k));
      BecomesFurther(ix, Forgotten(t, k), Logged(Forgotten(t, k), r));
      assert Delete(ix, k) == Logged(Forgotten(t, k), r);
    }
  }

  /** So does every state between the writes of a command. */
  lemma StageBecomes(ix: Index, r: WalRecord, s: Index)
    requires Anchored(ix) && ValidKey(r.key) && ix.writer in ix.shelf && Stage(ix, r, s)
    ensures Becomes(ix, s)
  {
    AppliedBecomes(ix, r);
    if s != Applied(ix, r) {
      match r {
        case Deleted(k) =>
          TombstonedBecomes(ix, ix.keymap[k]);
        case _ =>
          StoredBecomes(ix, r.key, r.document);
          hide Grows, Anchored, Stored, AutoFlushed;
          FlushedBecomes(Stored(ix, r.key, r.document));
          BecomesFurther(ix, Stored(ix, r.key, r.document), AutoFlushed(Stored(ix, r.key, r.document)));
      }
    }
  }

  lemma CompactedBecomes(ix: Index, gens: seq<nat>)
    requires Anchored(ix) && Compactable(ix, gens)
    ensures Becomes(ix, Compacted(ix, gens))
  {
    var jx := Compacted(ix, gens);
    CompactedGrows(ix, gens);
    CompactedIsStructured(ix, gens);
    CompactedIsMirrored(ix, gens);
    forall k | k in jx.keymap
      ensures jx.keymap[k].generation < jx.next && (jx.keymap[k].generation in jx.shelf ==> InRange(jx.shelf, jx.keymap[k]))
    {
      RemappedAt(ix.keymap, ix.next, MergedDocs(ix.shelf, gens), |MergedDocs(ix.shelf, gens)|, k);
    }
  }

  // ----------------------------------------------------------------- directories

  /** What is recovered from the directory is what the index has grown into. */
  ghost predicate Follows(ix: Index, d: Disk) {
    && Openable(d) && WellLogged(d.wal) && ix.writer < ix.next <= d.next
    && WellStored(RecoveredShelf(d)) && Extends(ix.shelf, RecoveredShelf(d), ix.next)
    && forall k :: k in RecoveredKeymap(d) ==> InRange(RecoveredShelf(d), RecoveredKeymap(d)[k])
  }

  lemma FollowsFurther(ix: Index, jx: Index, d: Disk)
    requires Grows(ix, jx) && Follows(jx, d)
    ensures Follows(ix, d)
  {
    hide RecoveredShelf, RecoveredKeymap, WellStored, Openable;
  }

  lemma AlikeFollows(ix: Index, d: Disk, e: Disk)
    requires Follows(ix, d) && RecoversAlike(d, e)
    ensures Follows(ix, e)
  {
    hide RecoveredShelf, RecoveredKeymap, WellStored, Openable;
  }

  lemma OpenedNumbers(d: Disk, policy: Policy)
    requires Openable(d)
    ensures var kx := Opened(d, policy);
            d.next <= kx.writer < kx.next && kx.disk.wal == d.wal && forall g :: g in RecoveredShelf(d) ==> g < kx.writer
  {
  }

  /** Such a directory opens to an index that has grown, whose writer is a new generation. */
  lemma FollowsOpens(ix: Index, d: Disk, policy: Policy)
    requires Follows(ix, d)
    ensures Becomes(ix, Opened(d, policy)) && Earlier(Mark(ix), Mark(Opened(d, policy)))
  {
    var kx, s := Opened(d, policy), RecoveredShelf(d);
    OpenedShape(d, policy);
    OpenedIsMirrored(d, policy);
    OpenedNumbers(d, policy);
    hide RecoveredShelf, RecoveredKeymap, Opened, WellStored, Structured, Mirrored, Openable;
    UnderEmpty(s, kx.keymap, kx.writer);
    OpenedAnchors(s, kx.keymap, kx.writer, kx.next);
    OpenedExtends(ix, kx, s);
  }

  lemma OpenedAnchors(s: Shelf, km: Keymap, writer: nat, next: nat)
    requires writer < next && forall g :: g in s ==> g < writer
    requires forall k :: k in km ==> InRange(s, km[k])
    ensures Anchors(WithEmpty(s, writer), km, next)
  {
    UnderEmpty(s, km, writer);
  }

  lemma OpenedExtends(ix: Index, kx: Index, s: Shelf)
    requires ix.writer < ix.next <= kx.writer < kx.next && kx.shelf == WithEmpty(s, kx.writer)
    requires Extends(ix.shelf, s, ix.next)
    ensures Grows(ix, kx) && Earlier(Mark(ix), Mark(kx))
  {
  }

  /** The files of an index that has grown, with nothing handed out anew. */
  lemma SegmentsFollow(ix: Index, jx: Index, d: Disk)
    requires Becomes(ix, jx) && SameSegments(d, jx) && d.next >= ix.next && WellLogged(d.wal)
    ensures Follows(ix, d)
  {
    SegmentsRecover(jx, d);
    PartExtends(ix, jx);
    PartIsAnchored(jx);
    hide Grows, Anchored, SameSegments, Extends, DiskPart, DiskKeymap, WellStored;
    if d.marker {
      RebuiltRecovers(d);
      hide RecoveredShelf, RecoveredKeymap, RebuiltShelf, RebuiltKeymap, DiskShelf, NeedsRebuild;
      RebuiltExtends(ix.shelf, DiskShelf(d), d.order, ix.next);
    } else {
      hide RecoveredShelf, RecoveredKeymap, DiskShelf, NeedsRebuild;
    }
  }

  lemma PartExtends(ix: Index, jx: Index)
    requires Grows(ix, jx)
    ensures Extends(ix.shelf, DiskPart(jx), ix.next) && ix.writer < ix.next
  {
  }

  lemma PartIsAnchored(jx: Index)
    requires Anchored(jx)
    ensures WellStored(DiskPart(jx))
    ensures forall k :: k in DiskKeymap(jx) ==> InRange(DiskPart(jx), DiskKeymap(jx)[k])
  {
    hide Mirrored;
  }

  lemma RebuiltRecovers(d: Disk)
    requires Openable(d) && NeedsRebuild(d) && Stocked(d.order, DiskShelf(d)) && WellStored(DiskShelf(d))
    ensures RecoveredShelf(d) == RebuiltShelf(d.order, DiskShelf(d)) && WellStored(RecoveredShelf(d))
    ensures forall k :: k in RecoveredKeymap(d) ==> InRange(RecoveredShelf(d), RecoveredKeymap(d)[k])
  {
    DiskShelfIsStocked(d);
    RebuiltIsCoherent(d.order, DiskShelf(d));
    hide DiskShelf, RebuiltShelf, RebuiltKeymap, WellStored;
    assert Sound(RecoveredShelf(d), RecoveredKeymap(d));
  }

  lemma RebuiltExtends(a: Shelf, s: Shelf, order: seq<nat>, bound: nat)
    requires Stocked(order, s) && Extends(a, s, bound)
    ensures Extends(a, RebuiltShelf(order, s), bound)
  {
    hide RebuiltKeymap, Superseded;
  }

  lemma SegmentsRecover(jx: Index, d: Disk)
    requires Anchored(jx) && SameSegments(d, jx)
    ensures Openable(d) && Stocked(d.order, DiskShelf(d)) && WellStored(DiskShelf(d))
    ensures DiskShelf(d) == DiskPart(jx) && DiskShelf(d).Keys == Elements(d.order)
    ensures NeedsRebuild(d) <==> d.marker
    ensures !d.marker ==> RecoveredKeymap(d) == DiskKeymap(jx) && RecoveredShelf(d) == DiskShelf(d)
  {
    forall g | g in d.order ensures g in d.files && DiskPart(jx)[g] == Volume(d.files[g], DelOf(d, g)) {
      assert Stores(d, jx.shelf, g);
    }
    DiskShelfIsStocked(d);
  }

  /** Whatever a crash leaves, between operations, inside flush() or compact() ... */
  lemma LeftFollows(ix: Index, m: Moment, d: Disk)
    requires Anchored(ix) && ix.writer in ix.shelf && Leaves(ix, m, d)
    ensures Follows(ix, d)
  {
    AnchoredHasWriter(ix);
    LeftIsLogged(ix, m, d);
    hide Grows, Anchored, Flushed, Compacted, SameSegments;
    match m {
      case Idle =>
      case Flushing(_) => FlushedBecomes(ix);
      case Compacting(gens, _) => CompactedBecomes(ix, gens);
    }
    SegmentsFollow(ix, At(ix, m), d);
  }

  lemma LeftIsLogged(ix: Index, m: Moment, d: Disk)
    requires Anchored(ix) && ix.writer in ix.shelf && Leaves(ix, m, d)
    ensures WellLogged(d.wal)
  {
  }

  /** ... or inside a command. */
  lemma PassedFollows(ix: Index, r: WalRecord, d: Disk)
    requires Anchored(ix) && ix.writer in ix.shelf && ValidKey(r.key) && PassesThrough(ix, r, d)
    ensures Follows(ix, d)
  {
    var s :| Stage(ix, r, s) && Shows(d, s, ix);
    assert WellLogged(ix.disk.wal);
    hide Grows, Anchored, Stage, SameSegments;
    StageBecomes(ix, r, s);
    SegmentsFollow(ix, s, d);
  }

  // ------------------------------------------------------------------- reopening

  lemma {:induction false} ReplayedBecomes(ix: Index, wal: seq<WalRecord>)
    requires Anchored(ix) && WellLogged(wal)
    ensures ix.writer in ix.shelf && Becomes(ix, Replayed(ix, wal))
  {
    AnchoredHasWriter(ix);
    if wal != [] {
      var n := |wal| - 1;
      assert Loggable(wal[n]);
      ReplayedBecomes(ix, wal[..n]);
      hide Grows, Anchored, Applied;
      AppliedBecomes(Replayed(ix, wal[..n]), wal[n]);
      BecomesFurther(ix, Replayed(ix, wal[..n]), Replayed(ix, wal));
    }
  }

  /** Only the shelf, the keymap, the generations and the directory matter. */
  lemma FlagsAside(ix: Index, jx: Index, replaying: bool, pending: bool, healthy: bool, wal: seq<WalRecord>)
    requires Becomes(ix, jx) && WellLogged(wal)
    ensures Becomes(ix, jx.(replaying := replaying, truncatePending := pending, healthy := healthy,
                            disk := jx.disk.(wal := wal)))
  {
  }

  lemma StartBecomes(ix: Index, d: Disk, policy: Policy)
    requires Follows(ix, d)
    ensures Becomes(ix, Opened(d, policy).(replaying := true))
  {
    FollowsOpens(ix, d, policy);
    var kx := Opened(d, policy);
    hide Opened, Grows, Becomes;
    FlagsAside(ix, kx, true, kx.truncatePending, kx.healthy, kx.disk.wal) by { hide Follows; }
  }

  lemma FollowsReopens(ix: Index, d: Disk, policy: Policy)
    requires Follows(ix, d)
    ensures Becomes(ix, Reopened(d, policy))
  {
    FollowsOpens(ix, d, policy);
    if policy.durable {
      StartBecomes(ix, d, policy);
      var start := Opened(d, policy).(replaying := true);
      hide Opened, Grows, Anchored;
      ReplayedBecomes(start, d.wal);
      BecomesFurther(ix, start, Replayed(start, d.wal));
      hide Becomes;
      var r := Replayed(start, d.wal);
      if r.truncatePending {
        FlagsAside(ix, r, false, false, true, []);
      } else {
        KeepsLogged(ix, r);
        FlagsAside(ix, r, false, r.truncatePending, r.healthy, r.disk.wal);
      }
    }
  }

  lemma KeepsLogged(ix: Index, jx: Index)
    requires Becomes(ix, jx)
    ensures WellLogged(jx.disk.wal)
  {
  }

  /** The generations a crashed replay has handed out are not handed out again either. */
  lemma ReplayingFollows(d: Disk, policy: Policy, i: nat, e: Disk)
    requires Openable(d) && i < |d.wal| && WellLogged(d.wal) && LeftInReplay(d, policy, i, e)
    requires Anchored(Opened(d, policy).(replaying := true))
    ensures Becomes(Opened(d, policy).(replaying := true), Midway(d, policy, i)) && Follows(Midway(d, policy, i), e)
  {
    var start, mx := Opened(d, policy).(replaying := true), Midway(d, policy, i);
    var s :| Stage(mx, d.wal[i], s) && SameSegments(e, s);
    assert WellLogged(d.wal[..i]) && Loggable(d.wal[i]);
    hide Opened, Grows, Anchored, Stage, SameSegments;
    ReplayedBecomes(start, d.wal[..i]);
    StageBecomes(mx, d.wal[i], s);
    SegmentsFollow(mx, s, e);
  }

  lemma {:induction false} ChainFollows(ix: Index, left: Disk, openings: seq<Opening>)
    requires Follows(ix, left) && Chained(left, openings)
    ensures Follows(ix, Last(left, openings))
  {
    if openings != [] {
      var n := |openings| - 1;
      var d := Last(left, openings[..n]);
      hide Follows, LeftInReplay, RecoversAlike, Openable;
      ChainFollows(ix, left, openings[..n]);
      match openings[n] {
        case Recovering(e) => AlikeFollows(ix, d, e);
        case Replaying(policy, at, e) => ReplayingKeepsFollowing(ix, d, policy, at, e);
      }
    }
  }

  lemma ReplayingKeepsFollowing(ix: Index, d: Disk, policy: Policy, i: nat, e: Disk)
    requires Follows(ix, d) && i < |d.wal| && LeftInReplay(d, policy, i, e)
    ensures Follows(ix, e)
  {
    var start := Opened(d, policy).(replaying := true);
    StartBecomes(ix, d, policy);
    hide Opened, Grows, Anchored, LeftInReplay, Midway;
    ReplayingFollows(d, policy, i, e);
    BecomesFurther(ix, start, Midway(d, policy, i));
    hide Follows;
    FollowsFurther(ix, Midway(d, policy, i), e);
  }

  // ----------------------------------------------------------------- whole runs

  /** Whatever happens, an index in order grows. */
  lemma EventBecomes(ix: Index, ev: Event)
    requires Anchored(ix) && ix.writer in ix.shelf && Occurs(ix, ev)
    ensures Becomes(ix, After(ix, ev))
    ensures ev.Done? && ev.step.Command? && Issues(ev.step.record) ==> Earlier(Mark(ix), Mark(After(ix, ev)))
  {
    match ev {
      case Done(step) => StepBecomes(ix, step);
      case Restarted(m, left, openings, policy) =>
        hide Grows, Anchored, Reopened, Leaves, Follows;
        LeftFollows(ix, m, left);
        RestartBecomes(ix, left, openings, policy);
      case Broken(r, left, openings, policy) =>
        hide Grows, Anchored, Reopened, PassesThrough, Follows;
        PassedFollows(ix, r, left);
        RestartBecomes(ix, left, openings, policy);
    }
  }

  lemma RestartBecomes(ix: Index, left: Disk, openings: seq<Opening>, policy: Policy)
    requires Follows(ix, left) && Chained(left, openings)
    ensures Openable(Last(left, openings)) && Becomes(ix, Reopened(Last(left, openings), policy))
  {
    ChainFollows(ix, left, openings);
    FollowsReopens(ix, Last(left, openings), policy);
  }

  lemma StepBecomes(ix: Index, step: Step)
    requires Anchored(ix) && ix.writer in ix.shelf && Occurs(ix, Done(step))
    ensures Becomes(ix, Next(ix, step))
    ensures step.Command? && Issues(step.record) ==> Earlier(Mark(ix), Mark(Next(ix, step)))
  {
    AnchoredHasWriter(ix);
    hide Grows, Applied, Flushed, Compacted, Reopened, Leaves, Mark, Structured, Mirrored, Anchors, WellLogged;
    match step {
      case Command(r) => AppliedBecomes(ix, r);
      case Flush => FlushedBecomes(ix);
      case Compact(gens) => if Compactable(ix, gens) { CompactedBecomes(ix, gens); }
      case Crash(m, d, policy) =>
        LeftFollows(ix, m, d);
        FollowsReopens(ix, d, policy);
    }
  }

  /** Anything that can happen, in any order; no state along the way has to meet anything. */
  ghost predicate Unrolls(ix: Index, run: seq<Event>, n: nat)
    requires ix.writer in ix.shelf && n <= |run|
  {
    n > 0 ==> Unrolls(ix, run, n - 1) && Occurs(Standpoint(ix, run, n - 1), run[n - 1])
  }

  /** The runs of Restarts.LastingRun are such runs. */
  lemma {:induction false} UnfoldingUnrolls(ix: Index, run: seq<Event>, n: nat)
    requires ix.writer in ix.shelf && n <= |run| && Unfolds(ix, run, n)
    ensures Unrolls(ix, run, n)
  {
    hide Occurs, Standpoint;
    if n > 0 {
      UnfoldingUnrolls(ix, run, n - 1);
    }
  }

  lemma {:induction false} UnrollsPrefix(ix: Index, run: seq<Event>, m: nat, n: nat)
    requires ix.writer in ix.shelf && m <= n <= |run| && Unrolls(ix, run, n)
    ensures Unrolls(ix, run, m)
    decreases n
  {
    hide Occurs, Standpoint;
    if m < n {
      UnrollsPrefix(ix, run, m, n - 1);
    }
  }

  lemma {:induction false} RunGrows(ix: Index, run: seq<Event>, m: nat, n: nat)
    requires Anchored(ix) && ix.writer in ix.shelf && m <= n <= |run| && Unrolls(ix, run, n)
    ensures Anchored(Standpoint(ix, run, m)) && Becomes(Standpoint(ix, run, m), Standpoint(ix, run, n))
    decreases n
  {
    hide Grows, Anchored, Occurs, After;
    UnrollsPrefix(ix, run, m, n);
    if m < n {
      var a, b := Standpoint(ix, run, m), Standpoint(ix, run, n - 1);
      RunGrows(ix, run, m, n - 1);
      EventBecomes(b, run[n - 1]);
      BecomesFurther(a, b, Standpoint(ix, run, n));
    } else if n > 0 {
      RunGrows(ix, run, n - 1, n - 1);
      EventBecomes(Standpoint(ix, run, n - 1), run[n - 1]);
      AnchoredHasWriter(Standpoint(ix, run, n));
    } else {
      AnchoredHasWriter(ix);
    }
  }

  /** Whether event i of the run stores a document, and so returns a handle. */
  predicate IssuedBy(run: seq<Event>, i: nat) {
    i < |run| && run[i].Done? && run[i].step.Command? && Issues(run[i].step.record)
  }

  /** The state in which it was issued, the command, and the state it led to. */
  lemma IssuedAt(ix: Index, run: seq<Event>, i: nat)
    requires Anchored(ix) && ix.writer in ix.shelf && IssuedBy(run, i) && Unrolls(ix, run, i + 1)
    ensures var a, b, r := Standpoint(ix, run, i), Standpoint(ix, run, i + 1), run[i].step.record;
            && Anchored(a) && ValidKey(r.key) && Becomes(a, b) && b == Applied(a, r) && Earlier(Mark(a), Mark(b))
  {
    hide Anchored, Applied, Grows, Mark;
    RunGrows(ix, run, i, i + 1);
    EventBecomes(Standpoint(ix, run, i), run[i]);
  }

  /**
   A generation is never used for a second segment: if it was handed out by then, a segment
   that still has it is the one that had it, with the same documents where it had any.
   */
  lemma GenerationsAreNotReused(ix: Index, run: seq<Event>, i: nat, j: nat, g: nat)
    requires Anchored(ix) && ix.writer in ix.shelf && i <= j <= |run| && Unrolls(ix, run, j)
    requires g < Standpoint(ix, run, i).next && g in Standpoint(ix, run, j).shelf
    ensures g in Standpoint(ix, run, i).shelf
    ensures Standpoint(ix, run, i).shelf[g].docs <= Standpoint(ix, run, j).shelf[g].docs
  {
    hide Anchored, Unrolls, Standpoint;
    RunGrows(ix, run, i, j);
  }

  /**
   Handles are issued in increasing order, whatever crashes come between: inside commands,
   flushes, compactions, recoveries and replays, with stray copies and re-added keys.
   */
  lemma HandlesIncrease(ix: Index, run: seq<Event>, i: nat, j: nat)
    requires Anchored(ix) && ix.writer in ix.shelf && i < j && IssuedBy(run, i) && IssuedBy(run, j)
    requires Unrolls(ix, run, j)
    ensures var a, b := Mark(Standpoint(ix, run, i)), Mark(Standpoint(ix, run, j));
            && Earlier(a, b)
            && (a.docid < DOCID_SPAN && b.docid < DOCID_SPAN ==> Handle(a) < Handle(b))
  {
    var a, b, c := Standpoint(ix, run, i), Standpoint(ix, run, i + 1), Standpoint(ix, run, j);
    hide Grows, Anchored, Occurs, Applied, Unrolls, Standpoint, Handle, Mark;
    UnrollsPrefix(ix, run, i + 1, j);
    RunGrows(ix, run, i + 1, j);
    IssuedAt(ix, run, i);
    BecomesFurther(a, b, c);
    if Mark(a).docid < DOCID_SPAN && Mark(c).docid < DOCID_SPAN {
      HandleOrders(Mark(a), Mark(c));
    }
  }

  /** What add or update stored lies where its handle says. */
  lemma IssuedHere(ix: Index, r: WalRecord)
    requires Anchored(ix) && ValidKey(r.key) && Issues(r)
    ensures ix.writer in ix.shelf && InRange(Applied(ix, r).shelf, Mark(ix))
    ensures EntryAt(Applied(ix, r).shelf, Mark(ix)) == Entry(r.key, r.document)
    ensures Mark(ix).generation < ix.next
  {
    AnchoredHasWriter(ix);
    var e := Entry(r.key, r.document);
    var s := Append(ix.shelf, ix.writer, e);
    StoringShape(ix, r.key, r.document);
    AppendAt(ix.shelf, ix.writer, e, Mark(ix));
    EmptyAt(s, ix.next, Mark(ix));
    if r.Updated? {
      var sx := Superseding(ix, r.key, r.document);
      assert Applied(ix, r) == if r.key in ix.keymap then Tombstoned(sx, ix.keymap[r.key]) else sx;
      hide Anchored, Superseding, Applied, Tombstoned;
      if r.key in ix.keymap {
        TombstonedFields(sx, ix.keymap[r.key]);
        KillAt(sx.shelf, ix.keymap[r.key], Mark(ix));
      }
    }
  }

  /** A handle that still resolves, after anything, resolves to the document it was issued for. */
  lemma HandlesAreStable(ix: Index, run: seq<Event>, i: nat, j: nat)
    requires Anchored(ix) && ix.writer in ix.shelf && i < j <= |run| && IssuedBy(run, i) && Unrolls(ix, run, j)
    ensures var loc, r := Mark(Standpoint(ix, run, i)), run[i].step.record;
            InRange(Standpoint(ix, run, j).shelf, loc) ==>
              EntryAt(Standpoint(ix, run, j).shelf, loc) == Entry(r.key, r.document)
  {
    hide Anchored, Applied, Unrolls, Occurs, Standpoint, Mark, Grows, InRange, Issues, ValidKey;
    UnrollsPrefix(ix, run, i + 1, j);
    RunGrows(ix, run, i + 1, j);
    IssuedAt(ix, run, i);
    Resolves(Standpoint(ix, run, i), run[i].step.record, Standpoint(ix, run, j));
  }

  lemma Resolves(a: Index, r: WalRecord, c: Index)
    requires Anchored(a) && ValidKey(r.key) && Issues(r) && a.writer in a.shelf
    requires Grows(a, Applied(a, r)) && Grows(Applied(a, r), c)
    ensures InRange(c.shelf, Mark(a)) ==> EntryAt(c.shelf, Mark(a)) == Entry(r.key, r.document)
  {
    IssuedHere(a, r);
    hide Anchored, Applied, Grows;
    StaysPut(a, Applied(a, r), c, Mark(a));
  }

  lemma StaysPut(a: Index, b: Index, c: Index, loc: Loc)
    requires Grows(a, b) && Grows(b, c) && loc.generation < a.next
    requires InRange(b.shelf, loc)
    ensures InRange(c.shelf, loc) ==> EntryAt(c.shelf, loc) == EntryAt(b.shelf, loc)
  {
  }

  /** A tombstoned document never comes back under its handle. */
  lemma DeadHandlesStayDead(ix: Index, run: seq<Event>, i: nat, j: nat, loc: Loc)
    requires Anchored(ix) && ix.writer in ix.shelf && i <= j <= |run| && Unrolls(ix, run, j)
    requires InRange(Standpoint(ix, run, i).shelf, loc) && !Alive(Standpoint(ix, run, i).shelf, loc)
    ensures !Alive(Standpoint(ix, run, j).shelf, loc)
  {
    RunGrows(ix, run, i, j);
    GenerationsAreBelow(Standpoint(ix, run, i), loc.generation);
    hide Unrolls, Standpoint, Anchored;
  }

  lemma GenerationsAreBelow(ix: Index, g: nat)
    requires Anchored(ix) && g in ix.shelf
    ensures g < ix.next
  {
  }
}
