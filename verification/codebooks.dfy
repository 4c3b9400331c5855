/**
 Who owns what on the compressed-vector side of the index: a codebook (and rotation)
 shared by the segments' stores, the sources that wrap the stores, and the graphs built
 over the sources.  Objects live in an explicit heap, so that deleting twice, reading
 after a deletion and losing an object are all expressible -- and excluded.

 One such memory models the token side (.mvpq, .mvec, .tann); the dense side (.pq) is
 another, whose segments own nothing but their stores.
 */
module Codebooks {
  import opened SegmentModel

  /** An index without nodes is empty(); a store without tokens is a degraded one. */
  datatype Thing =
    | Buffer
    | PqStore(codebook: Option<nat>, rotation: Option<nat>, tokens: nat)
    | FloatStore(tokens: nat)
    | PqSource(over: nat)
    | FloatSource(over: nat)
    | TokenIndex(source: nat, nodes: nat)

  type Heap = map<nat, Thing>

  /** The pointers of one segment; None is NULL. */
  datatype Segment = Segment(store: Option<nat>, floats: Option<nat>, source: Option<nat>, index: Option<nat>)

  datatype Memory = Memory(heap: Heap, codebook: Option<nat>, rotation: Option<nat>, segments: seq<Segment>)

  const NOTHING := Segment(None, None, None, None)

  function Pointed(p: Option<nat>): (r: set<nat>) {
    if p.Some? then {p.value} else {}
  }

  function Pointers(s: Segment): (r: set<nat>) {
    Pointed(s.store) + Pointed(s.floats) + Pointed(s.source) + Pointed(s.index)
  }

  function Owned(m: Memory): (r: set<nat>) {
    Pointed(m.codebook) + Pointed(m.rotation) + (set i, p | 0 <= i < |m.segments| && p in Pointers(m.segments[i]) :: p)
  }

  // ---------------------------------------------------------------- what is well kept

  datatype Kind = IsBuffer | IsStore | IsFloats | IsSource | IsIndex

  function KindOf(t: Thing): Kind {
    match t
    case Buffer => IsBuffer
    case PqStore(_, _, _) => IsStore
    case FloatStore(_) => IsFloats
    case PqSource(_) => IsSource
    case FloatSource(_) => IsSource
    case TokenIndex(_, _) => IsIndex
  }

  /** p is NULL, or points at something of that kind. */
  predicate Points(heap: Heap, p: Option<nat>, kind: Kind) {
    p.Some? ==> p.value in heap && KindOf(heap[p.value]) == kind
  }

  /** How many tokens a source yields; 0 when what it wraps is gone. */
  function Yields(heap: Heap, source: Thing): nat {
    match source
    case PqSource(p) => if p in heap && heap[p].PqStore? then heap[p].tokens else 0
    case FloatSource(p) => if p in heap && heap[p].FloatStore? then heap[p].tokens else 0
    case _ => 0
  }

  /** The source wraps the segment's own, live store. */
  predicate Wraps(s: Segment, source: Thing) {
    match source
    case PqSource(p) => s.store == Some(p)
    case FloatSource(p) => s.floats == Some(p)
    case _ => false
  }

  predicate Idle(heap: Heap, index: Option<nat>) {
    index.None? || (index.value in heap && heap[index.value].TokenIndex? && heap[index.value].nodes == 0)
  }

  /**
   A segment's pointers are live and of their kinds, and a graph with nodes reaches the
   segment's own source and, through it, the segment's own store.
   */
  ghost predicate SegmentKept(heap: Heap, s: Segment) {
    && Points(heap, s.store, IsStore) && Points(heap, s.floats, IsFloats)
    && Points(heap, s.source, IsSource) && Points(heap, s.index, IsIndex)
    && (!Idle(heap, s.index) ==>
          && Some(heap[s.index.value].source) == s.source
          && Wraps(s, heap[s.source.value])
          && heap[s.index.value].nodes == Yields(heap, heap[s.source.value]))
  }

  /** Whatever the segment's store borrows is the resident codebook and rotation. */
  predicate Borrows(heap: Heap, codebook: Option<nat>, rotation: Option<nat>, s: Segment) {
    s.store.Some? && s.store.value in heap && heap[s.store.value].PqStore? && heap[s.store.value].codebook.Some? ==>
      heap[s.store.value].codebook == codebook && heap[s.store.value].rotation == rotation
  }

  ghost predicate ResidentKept(m: Memory) {
    && Points(m.heap, m.codebook, IsBuffer) && Points(m.heap, m.rotation, IsBuffer)
    && (m.rotation.Some? ==> m.codebook.Some? && m.codebook != m.rotation)
  }

  ghost predicate Apart(segments: seq<Segment>) {
    forall i, j :: 0 <= i < j < |segments| ==> Pointers(segments[i]) !! Pointers(segments[j])
  }

  /** Every object has exactly one owner: no pointer dangles, no object is lost. */
  ghost predicate Owning(m: Memory) {
    && ResidentKept(m)
    && (forall i :: 0 <= i < |m.segments| ==> SegmentKept(m.heap, m.segments[i]))
    && Apart(m.segments)
    && m.heap.Keys == Owned(m)
  }

  /** ... and no store borrows anything but the resident codebook. */
  ghost predicate Kept(m: Memory) {
    Owning(m) && forall i :: 0 <= i < |m.segments| ==> Borrows(m.heap, m.codebook, m.rotation, m.segments[i])
  }

  /** The segment's source, graph or not, wraps the segment's live store. */
  predicate SourceAttached(heap: Heap, s: Segment) {
    s.source.Some? ==> s.source.value in heap && Wraps(s, heap[s.source.value])
  }

  /** What a search may follow from a graph with nodes is all there. */
  lemma SearchReachesLiveObjects(m: Memory, i: nat)
    requires Kept(m) && i < |m.segments| && !Idle(m.heap, m.segments[i].index)
    ensures var s := m.segments[i];
            && s.index.value in m.heap && m.heap[s.index.value].TokenIndex?
            && m.heap[s.index.value].source in m.heap
            && match m.heap[m.heap[s.index.value].source]
               case PqSource(p) =>
                 && p in m.heap && m.heap[p].PqStore?
                 && (m.heap[p].codebook.Some? ==> m.heap[p].codebook == m.codebook && m.codebook.value in m.heap)
                 && (m.heap[p].codebook.Some? && m.heap[p].rotation.Some? ==> m.heap[p].rotation.value in m.heap)
               case FloatSource(p) => p in m.heap && m.heap[p].FloatStore?
               case _ => false
  {
    assert SegmentKept(m.heap, m.segments[i]) && Borrows(m.heap, m.codebook, m.rotation, m.segments[i]);
  }

  // --------------------------------------------------------- changing one segment

  /** Outside the pointers `mine`, the heap is as it was. */
  ghost predicate Elsewhere(was: Heap, now: Heap, mine: set<nat>) {
    forall p :: p in was && p !in mine ==> p in now && now[p] == was[p]
  }

  lemma SameElsewhere(was: Heap, now: Heap, mine: set<nat>, s: Segment)
    requires SegmentKept(was, s) && Elsewhere(was, now, mine) && Pointers(s) !! mine
    ensures SegmentKept(now, s) && Untouched(was, now, s)
  {
    assert s.store.Some? ==> s.store.value in Pointers(s);
    assert s.floats.Some? ==> s.floats.value in Pointers(s);
    assert s.source.Some? ==> s.source.value in Pointers(s);
    assert s.index.Some? ==> s.index.value in Pointers(s);
  }

  function With(m: Memory, heap: Heap, i: nat, s: Segment): Memory
    requires i < |m.segments|
  {
    m.(heap := heap, segments := m.segments[i := s])
  }

  /** What one segment gives back and takes new leaves everything else as it was. */
  lemma OneSegmentChanged(m: Memory, heap: Heap, i: nat, s: Segment)
    requires Owning(m) && i < |m.segments|
    requires Elsewhere(m.heap, heap, Pointers(m.segments[i]))
    requires heap.Keys == m.heap.Keys - Pointers(m.segments[i]) + Pointers(s)
    requires Pointers(s) * m.heap.Keys <= Pointers(m.segments[i])
    requires SegmentKept(heap, s)
    ensures Owning(With(m, heap, i, s))
    ensures forall j :: 0 <= j < |m.segments| && j != i ==> Untouched(m.heap, heap, m.segments[j])
  {
    var mine, now := Pointers(m.segments[i]), With(m, heap, i, s);
    hide SegmentKept, Owned, Pointers, Borrows, SourceAttached;
    forall j | 0 <= j < |m.segments| && j != i
      ensures Pointers(m.segments[j]) !! mine && Pointers(m.segments[j]) <= m.heap.Keys
      ensures SegmentKept(heap, m.segments[j]) && Untouched(m.heap, heap, m.segments[j])
    {
      PointersAreOwned(m, j);
      SameElsewhere(m.heap, heap, mine, m.segments[j]);
    }
    ResidentIsApart(m, i);
    forall j, k | 0 <= j < k < |now.segments| ensures Pointers(now.segments[j]) !! Pointers(now.segments[k]) {
    }
    OwnedAfter(m, heap, i, s);
    ResidentElsewhere(m, heap, mine);
  }

  /** Everything the segment owns is as it was. */
  ghost predicate Untouched(was: Heap, now: Heap, s: Segment) {
    forall p :: p in Pointers(s) ==> p in was && p in now && now[p] == was[p]
  }

  lemma UntouchedIsSame(was: Heap, now: Heap, s: Segment)
    requires Untouched(was, now, s)
    ensures SourceAttached(was, s) <==> SourceAttached(now, s)
    ensures forall codebook, rotation :: Borrows(was, codebook, rotation, s) <==> Borrows(now, codebook, rotation, s)
  {
    assert s.store.Some? ==> s.store.value in Pointers(s);
    assert s.source.Some? ==> s.source.value in Pointers(s);
  }

  lemma ResidentElsewhere(m: Memory, heap: Heap, mine: set<nat>)
    requires ResidentKept(m) && Elsewhere(m.heap, heap, mine)
    requires Pointed(m.codebook) !! mine && Pointed(m.rotation) !! mine
    ensures ResidentKept(m.(heap := heap))
  {
  }

  lemma PointersAreOwned(m: Memory, j: nat)
    requires Owning(m) && j < |m.segments|
    ensures Pointers(m.segments[j]) <= m.heap.Keys
  {
  }

  lemma NoBuffer(heap: Heap, s: Segment, p: Option<nat>)
    requires SegmentKept(heap, s) && p.Some? && p.value in heap && heap[p.value].Buffer?
    ensures p.value !in Pointers(s)
  {
  }

  /** Codebook and rotation are of another kind than anything a segment owns. */
  lemma ResidentIsApart(m: Memory, i: nat)
    requires Owning(m) && i < |m.segments|
    ensures Pointed(m.codebook) !! Pointers(m.segments[i]) && Pointed(m.rotation) !! Pointers(m.segments[i])
  {
    hide SegmentKept, Owned, Pointers;
    if m.codebook.Some? { NoBuffer(m.heap, m.segments[i], m.codebook); }
    if m.rotation.Some? { NoBuffer(m.heap, m.segments[i], m.rotation); }
  }

  lemma OwnedAfter(m: Memory, heap: Heap, i: nat, s: Segment)
    requires Owning(m) && i < |m.segments|
    ensures Owned(With(m, heap, i, s)) == Owned(m) - Pointers(m.segments[i]) + Pointers(s)
  {
    hide SegmentKept, Pointers;
    var now := With(m, heap, i, s);
    ResidentIsApart(m, i);
    forall p ensures p in Owned(now) <==> p in Owned(m) - Pointers(m.segments[i]) + Pointers(s) {
      if p in Owned(now) && p !in Pointed(m.codebook) && p !in Pointed(m.rotation) {
        var j :| 0 <= j < |now.segments| && p in Pointers(now.segments[j]);
        if j != i {
          assert p in Pointers(m.segments[j]);
        }
      }
      if p in Owned(m) && p !in Pointers(m.segments[i]) && p !in Pointed(m.codebook) && p !in Pointed(m.rotation) {
        var j :| 0 <= j < |m.segments| && p in Pointers(m.segments[j]);
        assert p in Pointers(now.segments[j]);
      }
      if p in Pointers(s) {
        assert p in Pointers(now.segments[i]);
      }
    }
  }

  // ------------------------------------------------------- changing the codebook

  function Resident(m: Memory): (r: set<nat>) {
    Pointed(m.codebook) + Pointed(m.rotation)
  }

  /** The resident codebook and rotation are exchanged; nothing else is touched. */
  lemma ResidentExchanged(m: Memory, heap: Heap, codebook: Option<nat>, rotation: Option<nat>)
    requires Owning(m)
    requires Elsewhere(m.heap, heap, Resident(m))
    requires heap.Keys == m.heap.Keys - Resident(m) + Pointed(codebook) + Pointed(rotation)
    requires (Pointed(codebook) + Pointed(rotation)) !! m.heap.Keys
    requires ResidentKept(Memory(heap, codebook, rotation, m.segments))
    ensures Owning(Memory(heap, codebook, rotation, m.segments))
    ensures forall j :: 0 <= j < |m.segments| ==> Untouched(m.heap, heap, m.segments[j])
  {
    var now := Memory(heap, codebook, rotation, m.segments);
    hide SegmentKept, Owned, Pointers, Borrows, SourceAttached;
    forall j | 0 <= j < |m.segments|
      ensures SegmentKept(heap, m.segments[j]) && Untouched(m.heap, heap, m.segments[j])
    {
      ResidentIsApart(m, j);
      SameElsewhere(m.heap, heap, Resident(m), m.segments[j]);
    }
    OwnedExchanged(m, now);
  }

  lemma OwnedExchanged(m: Memory, now: Memory)
    requires Owning(m) && now.segments == m.segments
    ensures Owned(now) == Owned(m) - Resident(m) + Resident(now)
  {
    hide SegmentKept, Pointers;
    forall i | 0 <= i < |m.segments| ensures Pointers(m.segments[i]) !! Resident(m) {
      ResidentIsApart(m, i);
    }
  }

  // -------------------------------------------------------------------- outcomes

  /** What a .pq or .mvpq file reads back as: no tokens when it is absent or damaged. */
  datatype Sidecar = Sidecar(tokens: nat, rotated: bool)

  /** load(): in global mode, an intact file of the right shape borrows; others own a copy. */
  function Loaded(file: Sidecar, codebook: Option<nat>, rotation: Option<nat>, global: bool): Thing {
    var book := if global then codebook else None;
    var turn := if book.Some? then rotation else None;
    if file.tokens == 0 then PqStore(None, None, 0)
    else if book.Some? && file.rotated == turn.Some? then PqStore(book, turn, file.tokens)
    else PqStore(None, None, file.tokens)
  }

  /**
   The tokens are the file's.  Its codes are shared exactly when the index shares a codebook,
   one is resident, and the file was rotated if and only if the resident one is; then the store
   borrows both buffers, otherwise neither.
   */
  lemma LoadedIs(file: Sidecar, codebook: Option<nat>, rotation: Option<nat>, global: bool)
    ensures var store := Loaded(file, codebook, rotation, global);
            if file.tokens > 0 && global && codebook != None && file.rotated == (rotation != None)
            then store == PqStore(codebook, rotation, file.tokens)
            else store == PqStore(None, None, file.tokens)
  {
  }

  /** Whether there is anything to train from, and which of the steps succeed. */
  datatype Training = Training(rows: bool, rotates: bool, trains: bool, saves: bool)

  predicate Succeeds(t: Training, opq: bool): (r: bool)
    ensures r <==> t.rows && t.trains && (t.rotates || !opq)
  {
    t.rows && (opq ==> t.rotates) && t.trains
  }

  /** No float pool to encode; the writer fails; or the file is written. */
  datatype Rewrite = NoPool | Fails | Written(file: Sidecar)

  /** All but segment i is as it was. */
  ghost predicate Framed(was: Memory, now: Memory, i: nat) {
    && |now.segments| == |was.segments| && now.codebook == was.codebook && now.rotation == was.rotation
    && forall j :: 0 <= j < |was.segments| && j != i ==>
         now.segments[j] == was.segments[j] && Untouched(was.heap, now.heap, was.segments[j])
  }

  lemma KeptAfter(m: Memory, heap: Heap, i: nat, s: Segment)
    requires Kept(m) && i < |m.segments|
    requires Elsewhere(m.heap, heap, Pointers(m.segments[i]))
    requires heap.Keys == m.heap.Keys - Pointers(m.segments[i]) + Pointers(s)
    requires Pointers(s) * m.heap.Keys <= Pointers(m.segments[i])
    requires SegmentKept(heap, s) && Borrows(heap, m.codebook, m.rotation, s)
    ensures Kept(With(m, heap, i, s)) && Framed(m, With(m, heap, i, s), i)
  {
    hide Owning, SegmentKept, Elsewhere, Borrows, Untouched, SourceAttached, Pointers;
    OneSegmentChanged(m, heap, i, s);
    forall j | 0 <= j < |m.segments| && j != i
      ensures Borrows(heap, m.codebook, m.rotation, m.segments[j]) && Untouched(m.heap, heap, m.segments[j])
    {
      UntouchedIsSame(m.heap, heap, m.segments[j]);
    }
  }

  /** A store may be exchanged under a source that is not over it, or has no graph. */
  predicate Exchangeable(heap: Heap, s: Segment) {
    OverPq(heap, s) ==> Idle(heap, s.index)
  }

  predicate OverPq(heap: Heap, s: Segment) {
    s.source.Some? && s.source.value in heap && heap[s.source.value].PqSource?
  }

  /** A degraded store, or none, carries no graph. */
  lemma DegradedIsExchangeable(m: Memory, i: nat)
    requires Kept(m) && i < |m.segments|
    requires m.segments[i].store.Some? ==> m.heap[m.segments[i].store.value].tokens == 0
    ensures Exchangeable(m.heap, m.segments[i])
  {
    assert SegmentKept(m.heap, m.segments[i]);
  }

  lemma LiveStore(m: Memory, i: nat)
    requires Kept(m) && i < |m.segments|
    ensures m.segments[i].store.Some? ==> m.segments[i].store.value in m.heap && m.heap[m.segments[i].store.value].PqStore?
  {
    assert SegmentKept(m.heap, m.segments[i]);
  }

  lemma StoreExchanged(m: Memory, i: nat, p: nat, store: Thing)
    requires Kept(m) && i < |m.segments| && Exchangeable(m.heap, m.segments[i])
    requires p !in m.heap && store.PqStore?
    requires store.codebook.Some? ==> store.codebook == m.codebook && store.rotation == m.rotation
    ensures var was := m.segments[i];
            var s, heap := was.(store := Some(p)), (m.heap - Pointed(was.store))[p := store];
            && Kept(With(m, heap, i, s)) && Framed(m, With(m, heap, i, s), i)
            && (SourceAttached(m.heap, was) ==> (SourceAttached(heap, s) <==> !OverPq(m.heap, was)))
  {
    var was := m.segments[i];
    var s, heap := was.(store := Some(p)), (m.heap - Pointed(was.store))[p := store];
    assert SegmentKept(m.heap, was);
    StoreExchangedHere(m.heap, was, p, store);
    hide Kept, Framed, SegmentKept, SourceAttached, OverPq, Exchangeable;
    PointersAreIn(m, i);
    KeptAfter(m, heap, i, s);
  }

  lemma PointersAreIn(m: Memory, i: nat)
    requires Kept(m) && i < |m.segments|
    ensures Pointers(m.segments[i]) <= m.heap.Keys
  {
    PointersAreOwned(m, i);
  }

  lemma StoreExchangedHere(was: Heap, s: Segment, p: nat, store: Thing)
    requires SegmentKept(was, s) && Exchangeable(was, s) && p !in was && store.PqStore?
    ensures var t, now := s.(store := Some(p)), (was - Pointed(s.store))[p := store];
            && SegmentKept(now, t) && Elsewhere(was, now, Pointers(s))
            && now.Keys == was.Keys - Pointers(s) + Pointers(t)
            && (SourceAttached(was, s) ==> (SourceAttached(now, t) <==> !OverPq(was, s)))
  {
    var t, now := s.(store := Some(p)), (was - Pointed(s.store))[p := store];
    forall q ensures q in now.Keys <==> q in was.Keys - Pointers(s) + Pointers(t) {
    }
  }

  lemma KeptIsOwning(m: Memory)
    requires Kept(m)
    ensures Owning(m)
  {
  }

  lemma SegmentFacts(m: Memory, i: nat)
    requires Owning(m) && i < |m.segments|
    ensures ResidentKept(m) && SegmentKept(m.heap, m.segments[i]) && Pointers(m.segments[i]) <= m.heap.Keys
    ensures var s := m.segments[i];
            && Pointed(s.store) <= m.heap.Keys && Pointed(s.floats) <= m.heap.Keys
            && Pointed(s.source) <= m.heap.Keys && Pointed(s.index) <= m.heap.Keys
            && Pointed(s.store) !! Pointed(s.index) && Pointed(s.store) !! Pointed(s.source)
            && Pointed(s.floats) !! Pointed(s.store) && Pointed(s.floats) !! Pointed(s.index)
            && Pointed(s.floats) !! Pointed(s.source) && Pointed(s.index) !! Pointed(s.source)
            && Resident(m) !! Pointed(s.store)
  {
    PointersAreOwned(m, i);
    ResidentIsApart(m, i);
    assert SegmentKept(m.heap, m.segments[i]);
  }

  lemma OwnedStore(m: Memory, i: nat)
    requires Owning(m) && i < |m.segments|
    ensures m.segments[i].store.Some? ==> m.segments[i].store.value in m.heap && m.heap[m.segments[i].store.value].PqStore?
  {
    assert SegmentKept(m.heap, m.segments[i]);
  }

  lemma LoadedIsStore(file: Sidecar, codebook: Option<nat>, rotation: Option<nat>, global: bool)
    ensures Loaded(file, codebook, rotation, global).PqStore?
  {
  }

  lemma BorrowsLoaded(heap: Heap, s: Segment, file: Sidecar, codebook: Option<nat>, rotation: Option<nat>, global: bool)
    requires s.store.Some? && s.store.value in heap && heap[s.store.value] == Loaded(file, codebook, rotation, global)
    ensures Borrows(heap, codebook, rotation, s)
  {
  }

  lemma FramedBy(m: Memory, heap: Heap, i: nat, s: Segment)
    requires i < |m.segments|
    requires forall j :: 0 <= j < |m.segments| && j != i ==> Untouched(m.heap, heap, m.segments[j])
    ensures Framed(m, With(m, heap, i, s), i)
  {
  }

  lemma StillUntouched(m: Memory, was: Memory, now: Memory, i: nat)
    requires Framed(was, now, i) && |m.segments| == |was.segments|
    ensures |now.segments| == |m.segments| && now.codebook == was.codebook && now.rotation == was.rotation
    ensures forall j :: 0 <= j < |m.segments| && j != i ==> now.segments[j] == was.segments[j]
    ensures forall j :: 0 <= j < |m.segments| && j != i && Untouched(m.heap, was.heap, was.segments[j]) ==>
              Untouched(m.heap, now.heap, now.segments[j])
  {
  }

  lemma DeletedAll(heap: Heap, s: Segment)
    ensures heap - Pointed(s.floats) - Pointed(s.index) - Pointed(s.source) - Pointed(s.store) == heap - Pointers(s)
  {
  }

  lemma TierHasSource(store: Option<nat>, floats: Option<nat>, none: bool)
    requires floats.None? ==> none && store.Some?
    ensures TierSource(store, floats, none).Some?
  {
  }

  lemma BorrowsAppended(heap: Heap, s: Segment, file: Sidecar, codebook: Option<nat>, rotation: Option<nat>, global: bool,
                        loaded: Option<Thing>)
    requires s.store.Some? ==> loaded == Some(Loaded(file, codebook, rotation, global)) && s.store.value in heap && heap[s.store.value] == loaded.value
    ensures Borrows(heap, codebook, rotation, s)
    ensures s.store.Some? && file.tokens > 0 ==> Encoded(heap, s)
  {
  }

  /** The objects of a new segment, made one after the other. */
  lemma AppendedHere(m: Memory, store: Option<nat>, loaded: Option<Thing>, floats: Option<nat>, tokens: nat, c: nat, d: nat,
                     none: bool, intact: bool)
    requires store.Some? == loaded.Some? && (loaded.Some? ==> loaded.value.PqStore?)
    requires floats.None? <==> none && store.Some?
    requires store.Some? ==> store.value !in m.heap && Some(store.value) != floats && store.value != c && store.value != d
    requires floats.Some? ==> floats.value !in m.heap && floats.value != c && floats.value != d
    requires c !in m.heap && d !in m.heap && c != d
    ensures var h1 := Put(m.heap, if store.Some? then store.value else 0, loaded);
            var h2 := Put(h1, if floats.Some? then floats.value else 0, if floats.Some? then Some(FloatStore(tokens)) else None);
            var h3 := Put(h2, c, TierSource(store, floats, none));
            var nodes := if intact && c in h3 then Yields(h3, h3[c]) else 0;
            var heap, t := h3[d := TokenIndex(c, nodes)], Segment(store, floats, Some(c), Some(d));
            && SegmentKept(heap, t) && SourceAttached(heap, t) && Elsewhere(m.heap, heap, {})
            && heap.Keys == m.heap.Keys + Pointers(t) && Pointers(t) !! m.heap.Keys
            && (nodes == 0 ==> Idle(heap, t.index))
            && (store.Some? ==> store.value in heap && heap[store.value] == loaded.value)
            && (floats.Some? ==> floats.value in heap && heap[floats.value] == FloatStore(tokens))
            && c in heap && d in heap
            && heap[c] == (if none && store.Some? then PqSource(store.value) else FloatSource(floats.value))
            && heap[d] == TokenIndex(c, if !intact then 0 else if none && store.Some? then loaded.value.tokens else tokens)
  {
  }

  lemma IndexIsApart(m: Memory, i: nat)
    requires Owning(m) && i < |m.segments|
    ensures var s := m.segments[i];
            Pointed(s.index) !! Pointed(s.floats) + Pointed(s.store) + Pointed(s.source) && Pointed(s.floats) !! Pointed(s.store)
  {
    SegmentFacts(m, i);
  }

  lemma ResidentSurvives(m: Memory, i: nat, heap: Heap, t: Segment)
    requires i < |m.segments| && Midway(m, i, heap, t) && ResidentKept(m.(heap := heap))
    ensures Points(heap - Pointed(t.store), m.codebook, IsBuffer) && Points(heap - Pointed(t.store), m.rotation, IsBuffer)
  {
  }

  lemma IdleIsKept(m: Memory, i: nat, heap: Heap, t: Segment)
    requires i < |m.segments| && Midway(m, i, heap, t) && Idle(heap, t.index)
    ensures SegmentKept(heap, t) && Pointed(t.index) <= heap.Keys
  {
  }

  lemma GraphMidway(m: Memory, i: nat, was: Heap, s: Segment, idx: nat)
    requires i < |m.segments| && Midway(m, i, was, s) && Idle(was, s.index) && s.source.Some? && SourceAttached(was, s)
    requires idx !in was && idx !in m.heap
    ensures var n := Yields(was, was[s.source.value]);
            var now, t := was[idx := TokenIndex(s.source.value, n)] - Pointed(s.index), s.(index := Some(idx));
            && Midway(m, i, now, t) && SegmentKept(now, t) && SourceAttached(now, t)
            && Yielding(now, t) == Yielding(was, s) == n && (n > 0 ==> !Idle(now, t.index))
            && (Encoded(now, t) <==> Encoded(was, s)) && (OverPq(now, t) <==> OverPq(was, s))
            && forall codebook, rotation :: Borrows(was, codebook, rotation, s) ==> Borrows(now, codebook, rotation, t)
  {
    var n := Yields(was, was[s.source.value]);
    var thing := TokenIndex(s.source.value, n);
    MidwayIndex(m, i, was, s, idx, Some(thing));
    assert was[idx := thing] - Pointed(s.index) == (was - Pointed(s.index))[idx := thing] by {
      assert s.index.Some? ==> s.index.value in was;
    }
    IdleIsKept(m, i, was, s);
    GraphHere(was, s, idx);
    KindsDiffer(m, i, was, s);
    hide Midway, SegmentKept;
  }

  lemma KindsDiffer(m: Memory, i: nat, heap: Heap, t: Segment)
    requires i < |m.segments| && Midway(m, i, heap, t)
    ensures Pointed(t.index) !! Pointed(t.store) + Pointed(t.source) + Pointed(t.floats)
    ensures Pointed(t.store) !! Pointed(t.source) + Pointed(t.floats) && Pointed(t.floats) !! Pointed(t.source)
    ensures Pointed(t.store) + Pointed(t.source) + Pointed(t.floats) + Pointed(t.index) <= heap.Keys
  {
  }

  /** The stores under the new source are the ones just loaded. */
  lemma Refreshed(m: Memory, i: nat, was: Heap, now: Heap, s: Segment, t: Segment, file: Sidecar,
                  codebook: Option<nat>, rotation: Option<nat>, global: bool, none: bool)
    requires i < |m.segments| && Midway(m, i, was, s) && s.floats.Some? && Idle(was, s.index)
    requires s.store.Some? ==> s.store.value in was && was[s.store.value] == Loaded(file, codebook, rotation, global)
    requires t.store == s.store && t.index == s.index && t.source.Some? && t.source.value in now
    requires if none && s.store.Some? then t.floats == None && now[t.source.value] == PqSource(s.store.value)
             else t.floats == s.floats && now[t.source.value] == FloatSource(s.floats.value)
    requires forall p :: p in was && p !in Pointed(s.source) + Dropped(s, none) ==> p in now && now[p] == was[p]
    ensures t.store.Some? ==> t.store.value in now && now[t.store.value] == was[s.store.value]
    ensures t.floats.Some? ==> t.floats.value in now && now[t.floats.value] == was[s.floats.value]
    ensures Yielding(now, t) == if none && s.store.Some? then file.tokens else Yields(was, FloatSource(s.floats.value))
    ensures t.index.Some? ==> t.index.value in now && now[t.index.value] == was[s.index.value]
    ensures SourceAttached(now, t) && Idle(now, t.index) && Borrows(now, codebook, rotation, t)
    ensures Encoded(now, t) <==> s.store.Some? && file.tokens > 0
    ensures OverPq(now, t) <==> none && s.store.Some?
  {
    KindsDiffer(m, i, was, s);
    LoadedTokens(file, codebook, rotation, global);
    hide Midway;
  }

  /** The floats that go with the source in the NONE tier. */
  function Dropped(s: Segment, none: bool): (r: set<nat>) {
    if none && s.store.Some? then Pointed(s.floats) else {}
  }

  lemma TierIsSource(store: Option<nat>, floats: Option<nat>, none: bool)
    ensures var t := TierSource(store, floats, none); t.Some? ==> KindOf(t.value) == IsSource
  {
  }

  lemma BorrowsAt(m: Memory, i: nat)
    requires Kept(m) && i < |m.segments|
    ensures Borrows(m.heap, m.codebook, m.rotation, m.segments[i])
  {
  }

  lemma OwningBorrows(m: Memory)
    requires Owning(m) && forall i :: 0 <= i < |m.segments| ==> Borrows(m.heap, m.codebook, m.rotation, m.segments[i])
    ensures Kept(m)
  {
  }

  lemma NothingOwned(m: Memory)
    requires Owning(m) && m.codebook.None? && m.segments == []
    ensures m.heap == map[]
  {
    assert Owned(m) == {};
  }

  /** What search is to go through: the compressed store in the NONE tier, else the floats. */
  function TierSource(store: Option<nat>, floats: Option<nat>, none: bool): (r: Option<Thing>)
    ensures r.Some? ==> KindOf(r.value) == IsSource
  {
    if none && store.Some? then Some(PqSource(store.value))
    else if floats.Some? then Some(FloatSource(floats.value))
    else None
  }

  function Put(heap: Heap, q: nat, t: Option<Thing>): Heap {
    if t.Some? then heap[q := t.value] else heap
  }

  /** What the segment owned is gone or kept, what it owns now is there or new. */
  ghost predicate Renews(was: Heap, s: Segment, now: Heap, t: Segment) {
    && Elsewhere(was, now, Pointers(s))
    && now.Keys == was.Keys - Pointers(s) + Pointers(t)
    && Pointers(t) * was.Keys <= Pointers(s)
  }

  lemma ReencodedHere(was: Heap, s: Segment, p: nat, store: Thing, q: nat, none: bool)
    requires SegmentKept(was, s) && p !in was && q !in was && p != q && store.PqStore?
    ensures var source := TierSource(Some(p), s.floats, none);
            var t := Segment(Some(p), s.floats, if source.Some? then Some(q) else None, None);
            var now := Put((was - Pointed(s.store))[p := store] - Pointed(s.index) - Pointed(s.source), q, source);
            && SegmentKept(now, t) && Renews(was, s, now, t) && SourceIs(now, t.source, source) && p in now && now[p] == store
  {
    var source := TierSource(Some(p), s.floats, none);
    var t := Segment(Some(p), s.floats, if source.Some? then Some(q) else None, None);
    var now := Put((was - Pointed(s.store))[p := store] - Pointed(s.index) - Pointed(s.source), q, source);
    forall x ensures x in now.Keys <==> x in was.Keys - Pointers(s) + Pointers(t) {
    }
  }

  lemma ReencodedIs(m: Memory, i: nat, p: nat, q: nat, file: Sidecar, none: bool)
    requires Kept(m) && i < |m.segments| && p !in m.heap && q !in m.heap && p != q
    ensures var s, store := m.segments[i], Loaded(file, m.codebook, m.rotation, true);
            var source := TierSource(Some(p), s.floats, none);
            var t := Segment(Some(p), s.floats, if source.Some? then Some(q) else None, None);
            var heap := Put((m.heap - Pointed(s.store))[p := store] - Pointed(s.index) - Pointed(s.source), q, source);
            && Kept(With(m, heap, i, t)) && Framed(m, With(m, heap, i, t), i)
            && Recoded(With(m, heap, i, t), i, s.floats, file, none)
  {
    hide Kept, Framed, SegmentKept, SourceAttached, Loaded, Owning, Pointers, Borrows;
    var s, store := m.segments[i], Loaded(file, m.codebook, m.rotation, true);
    var source := TierSource(Some(p), s.floats, none);
    var t := Segment(Some(p), s.floats, if source.Some? then Some(q) else None, None);
    var heap := Put((m.heap - Pointed(s.store))[p := store] - Pointed(s.index) - Pointed(s.source), q, source);
    KeptIsOwning(m);
    SegmentFacts(m, i);
    LoadedIsStore(file, m.codebook, m.rotation, true);
    ReencodedHere(m.heap, s, p, store, q, none);
    BorrowsLoaded(heap, t, file, m.codebook, m.rotation, true);
    KeptAfter(m, heap, i, t);
  }

  lemma DroppedHere(was: Heap, s: Segment)
    requires SegmentKept(was, s)
    ensures var t, now := Segment(None, s.floats, None, None), was - Pointed(s.index) - Pointed(s.source) - Pointed(s.store);
            SegmentKept(now, t) && Renews(was, s, now, t)
  {
    var t, now := Segment(None, s.floats, None, None), was - Pointed(s.index) - Pointed(s.source) - Pointed(s.store);
    forall x ensures x in now.Keys <==> x in was.Keys - Pointers(s) + Pointers(t) {
    }
  }

  /** The segment's store borrows some codebook. */
  predicate Borrowing(heap: Heap, s: Segment) {
    s.store.Some? && s.store.value in heap && heap[s.store.value].PqStore? && heap[s.store.value].codebook.Some?
  }

  predicate Encoded(heap: Heap, s: Segment): (r: bool)
    ensures r <==> s.store != None && s.store.value in heap && heap[s.store.value].PqStore? && heap[s.store.value].tokens != 0
  {
    s.store.Some? && s.store.value in heap && heap[s.store.value].PqStore? && heap[s.store.value].tokens > 0
  }

  lemma NoneBorrow(m: Memory)
    requires Owning(m) && forall i :: 0 <= i < |m.segments| ==> !Borrowing(m.heap, m.segments[i])
    ensures Kept(m)
  {
  }

  /** Segment i was encoded afresh, against the resident codebook, and its source with it. */
  ghost predicate Recoded(m: Memory, i: nat, floats: Option<nat>, file: Sidecar, none: bool)
    requires i < |m.segments|
  {
    var s := m.segments[i];
    && s.store.Some? && s.store.value in m.heap && m.heap[s.store.value] == Loaded(file, m.codebook, m.rotation, true)
    && s.floats == floats && s.index.None? && SourceIs(m.heap, s.source, TierSource(s.store, floats, none))
  }

  predicate SourceIs(heap: Heap, source: Option<nat>, t: Option<Thing>) {
    source.Some? == t.Some? && (source.Some? ==> source.value in heap && heap[source.value] == t.value)
  }

  lemma RecodedIsAttached(m: Memory, i: nat, floats: Option<nat>, file: Sidecar, none: bool)
    requires i < |m.segments| && Recoded(m, i, floats, file, none)
    ensures SourceAttached(m.heap, m.segments[i])
  {
  }

  lemma RecodedStays(was: Memory, now: Memory, i: nat, j: nat, floats: Option<nat>, file: Sidecar, none: bool)
    requires Framed(was, now, i) && j < |was.segments| && j != i && Recoded(was, j, floats, file, none)
    ensures Recoded(now, j, floats, file, none)
  {
    var s := was.segments[j];
    assert s.store.value in Pointers(s);
    assert s.source.Some? ==> s.source.value in Pointers(s);
  }

  /** Dropping a borrower takes its source and graph along. */
  function Unborrowed(heap: Heap, s: Segment): Segment {
    if Borrowing(heap, s) then Segment(None, s.floats, None, None) else s
  }

  lemma UntouchedThrough(a: Heap, b: Heap, c: Heap, s: Segment)
    requires Untouched(a, b, s) && Untouched(b, c, s)
    ensures Untouched(a, c, s)
  {
  }

  lemma UntouchedStores(a: Heap, b: Heap, s: Segment)
    requires Untouched(a, b, s)
    ensures Borrowing(a, s) <==> Borrowing(b, s)
    ensures Encoded(a, s) <==> Encoded(b, s)
    ensures OverPq(a, s) <==> OverPq(b, s)
    ensures SourceAttached(a, s) <==> SourceAttached(b, s)
  {
    assert s.store.Some? ==> s.store.value in Pointers(s);
    assert s.source.Some? ==> s.source.value in Pointers(s);
  }

  lemma UntouchedItself(m: Memory)
    requires Owning(m)
    ensures forall i :: 0 <= i < |m.segments| ==> Untouched(m.heap, m.heap, m.segments[i])
  {
    forall i | 0 <= i < |m.segments| ensures Untouched(m.heap, m.heap, m.segments[i]) {
      PointersAreOwned(m, i);
    }
  }

  function Buffers(codebook: Option<nat>, rotation: Option<nat>): (r: Heap)
    ensures r.Keys == Pointed(codebook) + Pointed(rotation)
  {
    map p | p in Pointed(codebook) + Pointed(rotation) :: Buffer
  }

  /** A codebook where there was none, and with it a rotation if there is to be one. */
  ghost predicate Appeared(was: Memory, now: Memory, opq: bool) {
    && now.segments == was.segments && now.codebook.Some? && (now.rotation.Some? <==> opq) && now.codebook != now.rotation
    && (Pointed(now.codebook) + Pointed(now.rotation)) !! was.heap.Keys
    && now.heap == was.heap + Buffers(now.codebook, now.rotation)
  }

  lemma AppearedIsKept(was: Memory, now: Memory, opq: bool)
    requires Kept(was) && was.codebook.None? && Appeared(was, now, opq)
    ensures Kept(now)
    ensures forall i :: 0 <= i < |was.segments| ==> Untouched(was.heap, now.heap, was.segments[i])
  {
    CodebookAppears(was, now.codebook, now.rotation);
  }

  lemma BuffersAre(heap: Heap, codebook: Option<nat>, rotation: Option<nat>)
    requires codebook.Some?
    ensures heap + Buffers(codebook, rotation)
         == if rotation.Some? then heap[rotation.value := Buffer][codebook.value := Buffer] else heap[codebook.value := Buffer]
  {
  }

  /** A codebook where there was none; nothing was borrowed, so nothing changes hands. */
  lemma CodebookAppears(m: Memory, codebook: Option<nat>, rotation: Option<nat>)
    requires Kept(m) && m.codebook.None?
    requires (Pointed(codebook) + Pointed(rotation)) !! m.heap.Keys
    requires rotation.Some? ==> codebook.Some? && codebook != rotation
    ensures Kept(Memory(m.heap + Buffers(codebook, rotation), codebook, rotation, m.segments))
    ensures forall i :: 0 <= i < |m.segments| ==>
              Untouched(m.heap, m.heap + Buffers(codebook, rotation), m.segments[i])
  {
    var heap := m.heap + Buffers(codebook, rotation);
    ResidentExchanged(m, heap, codebook, rotation);
    forall i | 0 <= i < |m.segments| ensures Borrows(heap, codebook, rotation, m.segments[i]) {
      UntouchedIsSame(m.heap, heap, m.segments[i]);
      assert Borrows(m.heap, m.codebook, m.rotation, m.segments[i]);
    }
  }

  /** A segment of the dense side. */
  predicate Bare(s: Segment) {
    s.floats.None? && s.source.None? && s.index.None?
  }

  ghost predicate AllBare(m: Memory) {
    forall i :: 0 <= i < |m.segments| ==> Bare(m.segments[i])
  }

  /** What the second pass of a rebuild does to segment i. */
  ghost predicate PassedOver(was: Memory, now: Memory, i: nat, had: bool, outcome: Rewrite, none: bool)
    requires i < |was.segments| == |now.segments|
  {
    if had && outcome.Written? then Recoded(now, i, was.segments[i].floats, outcome.file, none)
    else now.segments[i] == was.segments[i] && Untouched(was.heap, now.heap, was.segments[i])
  }

  lemma PassedOverStays(m: Memory, was: Memory, now: Memory, i: nat, j: nat, had: bool, outcome: Rewrite, none: bool)
    requires Framed(was, now, i) && j < |was.segments| == |m.segments| && j != i && PassedOver(m, was, j, had, outcome, none)
    ensures |now.segments| == |m.segments| && PassedOver(m, now, j, had, outcome, none)
  {
    if had && outcome.Written? {
      RecodedStays(was, now, i, j, m.segments[j].floats, outcome.file, none);
    } else {
      UntouchedThrough(m.heap, was.heap, now.heap, m.segments[j]);
    }
  }

  lemma BareIsExchangeable(heap: Heap, s: Segment)
    requires Bare(s)
    ensures Exchangeable(heap, s)
  {
  }

  /**
   What a rebuild that got as far as its second pass leaves of segment i: encoded against
   the new codebook; or, if it was not, without the store that borrowed the old one.
   */
  ghost predicate Rebuilt(was: Memory, now: Memory, i: nat, outcome: Rewrite, none: bool)
    requires i < |was.segments| == |now.segments|
  {
    var s := was.segments[i];
    if Encoded(was.heap, s) && outcome.Written? then Recoded(now, i, s.floats, outcome.file, none)
    else Unencoded(was, now, i)
  }

  ghost predicate Unencoded(was: Memory, now: Memory, i: nat)
    requires i < |was.segments| == |now.segments|
  {
    var s := was.segments[i];
    now.segments[i] == Unborrowed(was.heap, s) && (!Borrowing(was.heap, s) ==> Untouched(was.heap, now.heap, s))
  }

  lemma RebuiltThrough(was: Memory, middle: Memory, now: Memory, i: nat, outcome: Rewrite, none: bool)
    requires i < |was.segments| == |middle.segments| == |now.segments|
    requires Unencoded(was, middle, i)
    requires PassedOver(middle, now, i, Encoded(was.heap, was.segments[i]), outcome, none)
    ensures Rebuilt(was, now, i, outcome, none)
  {
    if !(Encoded(was.heap, was.segments[i]) && outcome.Written?) && !Borrowing(was.heap, was.segments[i]) {
      UntouchedThrough(was.heap, middle.heap, now.heap, was.segments[i]);
    }
  }

  /**
   What that means of a segment: if it was encoded and could be again, its store holds the new
   file's tokens and borrows nothing but the resident codebook, which it does if the shapes
   agree, and its source is over what the tier prescribes; if it borrowed and could not, only
   its floats are left; and if it owned its codes, it is as it was.
   */
  lemma RebuiltIs(was: Memory, now: Memory, i: nat, outcome: Rewrite, none: bool)
    requires i < |was.segments| == |now.segments| && Rebuilt(was, now, i, outcome, none)
    requires was.segments[i].store.Some? ==> was.segments[i].store.value in was.heap && was.heap[was.segments[i].store.value].PqStore?
    ensures var s, t := was.segments[i], now.segments[i];
            && t.floats == s.floats
            && (s.store == None ==> t == s)
            && (s.store != None && was.heap[s.store.value].tokens > 0 && outcome.Written? ==>
                  && t.store != None && t.store.value in now.heap && t.index == None
                  && now.heap[t.store.value] == (if outcome.file.tokens > 0 && now.codebook != None && outcome.file.rotated == (now.rotation != None)
                                                 then PqStore(now.codebook, now.rotation, outcome.file.tokens)
                                                 else PqStore(None, None, outcome.file.tokens))
                  && (t.source != None ==>
                        && t.source.value in now.heap
                        && now.heap[t.source.value] == if none then PqSource(t.store.value) else FloatSource(s.floats.value))
                  && (t.source == None <==> !none && s.floats == None))
            && (s.store != None && !(was.heap[s.store.value].tokens > 0 && outcome.Written?) ==>
                  if was.heap[s.store.value].codebook == None then t == s && Untouched(was.heap, now.heap, s)
                  else t == Segment(None, s.floats, None, None))
  {
    if outcome.Written? {
      LoadedIs(outcome.file, now.codebook, now.rotation, true);
    }
  }

  /** A rebuild leaves no source detached that was not detached before. */
  lemma RebuildKeepsAttached(was: Memory, now: Memory, i: nat, outcome: Rewrite, none: bool)
    requires i < |was.segments| == |now.segments| && Rebuilt(was, now, i, outcome, none)
    requires SourceAttached(was.heap, was.segments[i])
    ensures SourceAttached(now.heap, now.segments[i])
  {
    if Encoded(was.heap, was.segments[i]) && outcome.Written? {
      RecodedIsAttached(now, i, was.segments[i].floats, outcome.file, none);
    } else if !Borrowing(was.heap, was.segments[i]) {
      UntouchedIsSame(was.heap, now.heap, was.segments[i]);
    }
  }

  /** Whether a segment counts as failed in the second pass. */
  predicate Counts(had: bool, outcome: Rewrite, dense: bool) {
    had && (outcome.Fails? || (dense && outcome.NoPool?))
  }

  ghost predicate SomeCounts(m: Memory, outcomes: seq<Rewrite>, dense: bool) {
    exists i :: 0 <= i < |m.segments| && i < |outcomes| && Counts(Encoded(m.heap, m.segments[i]), outcomes[i], dense)
  }

  lemma ExchangedResident(m: Memory, heap: Heap, codebook: Option<nat>, rotation: Option<nat>)
    requires Kept(m) && heap == m.heap + Buffers(codebook, rotation) - Resident(m)
    requires (Pointed(codebook) + Pointed(rotation)) !! m.heap.Keys
    requires rotation.Some? ==> codebook.Some? && codebook != rotation
    ensures Owning(Memory(heap, codebook, rotation, m.segments))
    ensures forall i :: 0 <= i < |m.segments| ==> Untouched(m.heap, heap, m.segments[i])
  {
    hide Kept, Owning, Untouched;
    KeptIsOwning(m);
    ResidentIsOwned(m);
    BuffersKept(m.heap - Resident(m), codebook, rotation);
    assert heap == m.heap - Resident(m) + Buffers(codebook, rotation);
    ResidentExchanged(m, heap, codebook, rotation);
  }

  lemma BuffersKept(heap: Heap, codebook: Option<nat>, rotation: Option<nat>)
    ensures var now := heap + Buffers(codebook, rotation);
            && now.Keys == heap.Keys + Pointed(codebook) + Pointed(rotation)
            && Points(now, codebook, IsBuffer) && Points(now, rotation, IsBuffer)
  {
  }

  lemma ResidentIsOwned(m: Memory)
    requires Owning(m)
    ensures Resident(m) <= m.heap.Keys
  {
  }

  lemma UntouchedUnborrowed(was: Memory, middle: Memory, now: Memory)
    requires |was.segments| == |middle.segments| == |now.segments| && middle.segments == was.segments
    requires forall i :: 0 <= i < |was.segments| ==> Untouched(was.heap, middle.heap, was.segments[i])
    requires forall i :: 0 <= i < |was.segments| ==>
               && now.segments[i] == Unborrowed(middle.heap, middle.segments[i])
               && (!Borrowing(middle.heap, middle.segments[i]) ==> Untouched(middle.heap, now.heap, now.segments[i]))
    ensures forall i :: 0 <= i < |was.segments| ==> Unencoded(was, now, i)
  {
    forall i | 0 <= i < |was.segments| ensures Unencoded(was, now, i) {
      UntouchedStores(was.heap, middle.heap, was.segments[i]);
      if !Borrowing(was.heap, was.segments[i]) {
        UntouchedThrough(was.heap, middle.heap, now.heap, was.segments[i]);
      }
    }
  }

  lemma BareRecoded(m: Memory, i: nat, file: Sidecar)
    requires i < |m.segments| && Bare(m.segments[i]) && m.segments[i].store.Some? && m.segments[i].store.value in m.heap
    requires m.heap[m.segments[i].store.value] == Loaded(file, m.codebook, m.rotation, true)
    ensures Recoded(m, i, None, file, false)
  {
  }

  lemma RotationSurvives(m: Memory)
    requires Owning(m)
    ensures m.rotation.Some? ==> m.rotation.value in m.heap - Pointed(m.codebook)
  {
  }

  lemma NoBuffers(heap: Heap)
    ensures heap + Buffers(None, None) == heap
  {
  }

  lemma UnborrowedIsBare(was: Memory, middle: Memory, now: Memory)
    requires AllBare(was) && middle.segments == was.segments && |now.segments| == |was.segments|
    requires forall i :: 0 <= i < |was.segments| ==> now.segments[i] == Unborrowed(middle.heap, middle.segments[i])
    ensures AllBare(now)
  {
  }

  lemma UnencodedStays(was: Memory, middle: Memory, now: Memory, i: nat)
    requires i < |was.segments| == |middle.segments| && now.segments == middle.segments
    requires Unencoded(was, middle, i) && Untouched(middle.heap, now.heap, middle.segments[i])
    ensures Unencoded(was, now, i)
  {
    if !Borrowing(was.heap, was.segments[i]) {
      UntouchedThrough(was.heap, middle.heap, now.heap, was.segments[i]);
    }
  }

  lemma UnencodedAppeared(was: Memory, middle: Memory, now: Memory, opq: bool)
    requires |was.segments| == |middle.segments| && forall i :: 0 <= i < |was.segments| ==> Unencoded(was, middle, i)
    requires Kept(middle) && middle.codebook.None? && Appeared(middle, now, opq)
    ensures Kept(now) && now.segments == middle.segments && now.codebook.Some? && (now.rotation.Some? <==> opq)
    ensures forall i :: 0 <= i < |was.segments| ==> Unencoded(was, now, i)
  {
    AppearedIsKept(middle, now, opq);
    forall i | 0 <= i < |was.segments| ensures Unencoded(was, now, i) {
      UnencodedStays(was, middle, now, i);
    }
  }

  lemma PassedOverIsBare(was: Memory, now: Memory, i: nat, had: bool, outcome: Rewrite)
    requires i < |was.segments| == |now.segments| && PassedOver(was, now, i, had, outcome, false) && Bare(was.segments[i])
    ensures Bare(now.segments[i])
  {
  }

  // ------------------------------------------------------- building and appending

  /** build_multivector_pq() encodes segment i when it has no intact encoding yet. */
  predicate Builds(m: Memory, i: nat, outcome: Rewrite)
    requires i < |m.segments|
  {
    !Encoded(m.heap, m.segments[i]) && outcome.Written?
  }

  /** Segment i is one that gives the index its codebook, if there is none yet. */
  predicate Trains(m: Memory, i: nat, outcome: Rewrite, t: Training, opq: bool, global: bool)
    requires i < |m.segments|
  {
    global && !Encoded(m.heap, m.segments[i]) && !outcome.NoPool? && t.rows && (opq ==> t.rotates) && t.trains && t.saves
  }

  /** What it leaves of segment i: another store, under the same source and graph. */
  ghost predicate Built(was: Memory, now: Memory, i: nat, outcome: Rewrite, global: bool)
    requires i < |was.segments| == |now.segments|
  {
    var s, t := was.segments[i], now.segments[i];
    if Builds(was, i, outcome) then
      && t == s.(store := t.store) && t.store.Some? && t.store.value in now.heap
      && now.heap[t.store.value].PqStore? && now.heap[t.store.value].tokens == outcome.file.tokens
      && (now.heap[t.store.value] == Loaded(outcome.file, now.codebook, now.rotation, global) ||
          (was.codebook.None? && now.heap[t.store.value] == PqStore(None, None, outcome.file.tokens)))
      && (SourceAttached(was.heap, s) ==> (SourceAttached(now.heap, t) <==> !OverPq(was.heap, s)))
    else
      t == s && Untouched(was.heap, now.heap, s)
  }

  lemma EnsuredKeeps(was: Memory, now: Memory, opq: bool)
    requires Kept(was) && (now == was || (was.codebook.None? && Appeared(was, now, opq)))
    ensures Kept(now) && now.segments == was.segments
    ensures forall i :: 0 <= i < |was.segments| ==> Untouched(was.heap, now.heap, was.segments[i])
  {
    if now == was {
      UntouchedItself(was);
    } else {
      AppearedIsKept(was, now, opq);
    }
  }

  lemma Unencodable(m: Memory, i: nat)
    requires Kept(m) && i < |m.segments| && !Encoded(m.heap, m.segments[i])
    ensures Exchangeable(m.heap, m.segments[i])
  {
    LiveStore(m, i);
    DegradedIsExchangeable(m, i);
  }

  lemma LoadedTokens(file: Sidecar, codebook: Option<nat>, rotation: Option<nat>, global: bool)
    ensures Loaded(file, codebook, rotation, global).PqStore? && Loaded(file, codebook, rotation, global).tokens == file.tokens
  {
  }

  /** Sources stay attached exactly when no store is built under a source that wraps it. */
  ghost predicate BuildsUnderSource(m: Memory, outcomes: seq<Rewrite>) {
    exists i :: 0 <= i < |m.segments| && i < |outcomes| && Builds(m, i, outcomes[i]) && OverPq(m.heap, m.segments[i])
  }

  ghost predicate Attached(m: Memory) {
    forall i :: 0 <= i < |m.segments| ==> SourceAttached(m.heap, m.segments[i])
  }

  lemma BuildAttaches(was: Memory, now: Memory, outcomes: seq<Rewrite>, global: bool)
    requires Owning(was) && Attached(was) && |was.segments| == |now.segments| == |outcomes|
    requires forall i :: 0 <= i < |was.segments| ==> Built(was, now, i, outcomes[i], global)
    ensures Attached(now) <==> !BuildsUnderSource(was, outcomes)
  {
    forall i | 0 <= i < |was.segments|
      ensures SourceAttached(now.heap, now.segments[i]) <==> !(Builds(was, i, outcomes[i]) && OverPq(was.heap, was.segments[i]))
    {
      assert SourceAttached(was.heap, was.segments[i]);
      if !Builds(was, i, outcomes[i]) {
        UntouchedIsSame(was.heap, now.heap, was.segments[i]);
      }
    }
  }

  lemma BuildContinues(m: Memory, was: Memory, now: Memory, i: nat, outcomes: seq<Rewrite>, global: bool)
    requires |m.segments| == |was.segments| == |now.segments| == |outcomes| && i < |m.segments|
    requires forall j :: 0 <= j < i ==> Built(m, was, j, outcomes[j], global)
    requires forall j :: i <= j < |m.segments| ==> was.segments[j] == m.segments[j] && Untouched(m.heap, was.heap, m.segments[j])
    requires Built(was, now, i, outcomes[i], global) && Resides(m, was) && Resides(was, now)
    requires forall j :: 0 <= j < |m.segments| && j != i ==>
               now.segments[j] == was.segments[j] && Untouched(was.heap, now.heap, was.segments[j])
    ensures forall j :: 0 <= j <= i ==> Built(m, now, j, outcomes[j], global)
    ensures forall j :: i < j < |m.segments| ==> now.segments[j] == m.segments[j] && Untouched(m.heap, now.heap, m.segments[j])
  {
    hide Built, Untouched;
    forall j | 0 <= j < |m.segments| && j != i
      ensures j < i ==> Built(m, now, j, outcomes[j], global)
      ensures j > i ==> Untouched(m.heap, now.heap, m.segments[j])
    {
      if j < i {
        BuiltOnward(m, was, now, j, outcomes[j], global);
      } else {
        UntouchedThrough(m.heap, was.heap, now.heap, m.segments[j]);
      }
    }
    BuiltFrom(m, was, now, i, outcomes[i], global);
  }

  /** The resident codebook stays, or there was none. */
  ghost predicate Resides(was: Memory, now: Memory) {
    was.codebook.Some? ==> now.codebook == was.codebook && now.rotation == was.rotation
  }

  lemma BuiltOnward(m: Memory, was: Memory, now: Memory, j: nat, outcome: Rewrite, global: bool)
    requires j < |m.segments| == |was.segments| == |now.segments| && Built(m, was, j, outcome, global)
    requires Resides(m, was) && Resides(was, now)
    requires now.segments[j] == was.segments[j] && Untouched(was.heap, now.heap, was.segments[j])
    ensures Built(m, now, j, outcome, global)
  {
    UntouchedIsSame(was.heap, now.heap, was.segments[j]);
    if Builds(m, j, outcome) {
      assert was.segments[j].store.value in Pointers(was.segments[j]);
    } else {
      UntouchedThrough(m.heap, was.heap, now.heap, m.segments[j]);
    }
  }

  lemma BuiltFrom(m: Memory, was: Memory, now: Memory, i: nat, outcome: Rewrite, global: bool)
    requires i < |m.segments| == |was.segments| == |now.segments|
    requires was.segments[i] == m.segments[i] && Untouched(m.heap, was.heap, m.segments[i])
    requires Built(was, now, i, outcome, global) && Resides(m, was) && Resides(was, now)
    ensures Built(m, now, i, outcome, global)
  {
    UntouchedStores(m.heap, was.heap, m.segments[i]);
    if !Builds(m, i, outcome) {
      UntouchedThrough(m.heap, was.heap, now.heap, m.segments[i]);
    }
  }

  lemma OthersUntouched(m: Memory, was: Memory, now: Memory, i: nat)
    requires Framed(was, now, i) && was.segments == m.segments
    requires forall j :: 0 <= j < |m.segments| ==> Untouched(m.heap, was.heap, m.segments[j])
    ensures |now.segments| == |m.segments| && now.codebook == was.codebook && now.rotation == was.rotation
    ensures forall j :: 0 <= j < |m.segments| && j != i ==>
              now.segments[j] == m.segments[j] && Untouched(m.heap, now.heap, m.segments[j])
  {
  }

  lemma ResidentOf(m: Memory)
    requires Owning(m)
    ensures ResidentKept(m)
  {
  }

  // ------------------------------------------------------------------------ graphs

  /** What the segment's source yields; 0 without a source. */
  function Yielding(heap: Heap, s: Segment): nat {
    if s.source.Some? && s.source.value in heap then Yields(heap, heap[s.source.value]) else 0
  }

  lemma SourceIsLive(m: Memory, i: nat)
    requires Kept(m) && Attached(m) && i < |m.segments|
    ensures var s := m.segments[i];
            && SegmentKept(m.heap, s) && SourceAttached(m.heap, s)
            && (s.source.Some? ==> s.source.value in m.heap)
            && (s.index.Some? ==> s.index.value in m.heap && m.heap[s.index.value].TokenIndex?)
  {
    assert SegmentKept(m.heap, m.segments[i]);
  }

  lemma NotChanged(m: Memory, i: nat)
    requires Kept(m) && i < |m.segments|
    ensures Framed(m, m, i)
  {
    UntouchedItself(m);
  }

  lemma GraphExchanged(m: Memory, i: nat, idx: nat)
    requires Kept(m) && Attached(m) && i < |m.segments| && idx !in m.heap
    requires m.segments[i].source.Some? && m.segments[i].source.value in m.heap
    requires Idle(m.heap, m.segments[i].index)
    ensures var s := m.segments[i];
            var graph := TokenIndex(s.source.value, Yielding(m.heap, s));
            var now := With(m, m.heap[idx := graph] - Pointed(s.index), i, s.(index := Some(idx)));
            Kept(now) && Attached(now) && Framed(m, now, i)
  {
    var s := m.segments[i];
    var graph := TokenIndex(s.source.value, Yielding(m.heap, s));
    var heap, t := m.heap[idx := graph] - Pointed(s.index), s.(index := Some(idx));
    assert SegmentKept(m.heap, s) && SourceAttached(m.heap, s) && Borrows(m.heap, m.codebook, m.rotation, s);
    GraphHere(m.heap, s, idx);
    PointersAreIn(m, i);
    hide Kept, Framed, SegmentKept, SourceAttached, Attached, Borrows;
    KeptAfter(m, heap, i, t);
    AttachedAfter(m, With(m, heap, i, t), i);
  }

  lemma GraphHere(was: Heap, s: Segment, idx: nat)
    requires SegmentKept(was, s) && SourceAttached(was, s) && idx !in was && s.source.Some? && Idle(was, s.index)
    ensures var t, now := s.(index := Some(idx)), was[idx := TokenIndex(s.source.value, Yielding(was, s))] - Pointed(s.index);
            && SegmentKept(now, t) && Elsewhere(was, now, Pointers(s)) && SourceAttached(now, t)
            && now.Keys == was.Keys - Pointers(s) + Pointers(t)
            && forall codebook, rotation :: Borrows(was, codebook, rotation, s) ==> Borrows(now, codebook, rotation, t)
  {
    var t, now := s.(index := Some(idx)), was[idx := TokenIndex(s.source.value, Yielding(was, s))] - Pointed(s.index);
    forall q ensures q in now.Keys <==> q in was.Keys - Pointers(s) + Pointers(t) {
    }
  }

  lemma AttachedAfter(was: Memory, now: Memory, i: nat)
    requires Attached(was) && Framed(was, now, i) && i < |was.segments| && SourceAttached(now.heap, now.segments[i])
    ensures Attached(now)
  {
    forall j | 0 <= j < |now.segments| ensures SourceAttached(now.heap, now.segments[j]) {
      if j != i {
        UntouchedIsSame(was.heap, now.heap, was.segments[j]);
      }
    }
  }

  /** A graph with nodes is over the segment's source, and has a node for each of its tokens. */
  lemma GraphIs(m: Memory, i: nat)
    requires Kept(m) && i < |m.segments| && !Idle(m.heap, m.segments[i].index)
    ensures var s := m.segments[i];
            && s.source.Some? && s.index.Some? && s.index.value in m.heap
            && m.heap[s.index.value] == TokenIndex(s.source.value, Yielding(m.heap, s))
  {
    assert SegmentKept(m.heap, m.segments[i]);
  }

  lemma GraphsStay(was: Memory, now: Memory, i: nat)
    requires Framed(was, now, i) && Kept(was) && Attached(was)
    ensures |now.segments| == |was.segments| && now.codebook == was.codebook && now.rotation == was.rotation
    ensures forall j :: 0 <= j < |was.segments| && j != i ==>
              && now.segments[j] == was.segments[j]
              && (Idle(was.heap, was.segments[j].index) <==> Idle(now.heap, now.segments[j].index))
              && Yielding(was.heap, was.segments[j]) == Yielding(now.heap, now.segments[j])
  {
    forall j | 0 <= j < |was.segments| && j != i
      ensures Idle(was.heap, was.segments[j].index) <==> Idle(now.heap, now.segments[j].index)
      ensures Yielding(was.heap, was.segments[j]) == Yielding(now.heap, now.segments[j])
    {
      var s := was.segments[j];
      SourceIsLive(was, j);
      assert s.index.Some? ==> s.index.value in Pointers(s);
      assert s.source.Some? ==> s.source.value in Pointers(s);
      assert s.store.Some? ==> s.store.value in Pointers(s);
      assert s.floats.Some? ==> s.floats.value in Pointers(s);
    }
  }

  // --------------------------------------------------- segments that come and go

  lemma SegmentRemoved(m: Memory, i: nat)
    requires Owning(m) && i < |m.segments|
    ensures var now := m.(heap := m.heap - Pointers(m.segments[i]), segments := m.segments[..i] + m.segments[i + 1..]);
            && Owning(now)
            && forall j :: 0 <= j < |now.segments| ==> Untouched(m.heap, now.heap, now.segments[j])
  {
    hide SegmentKept, Borrows, Untouched, Pointers, Owned;
    var now := m.(heap := m.heap - Pointers(m.segments[i]), segments := m.segments[..i] + m.segments[i + 1..]);
    forall j | 0 <= j < |now.segments|
      ensures SegmentKept(now.heap, now.segments[j]) && Untouched(m.heap, now.heap, now.segments[j])
    {
      var k := if j < i then j else j + 1;
      assert now.segments[j] == m.segments[k] && k != i;
      PointersAreOwned(m, k);
      SameElsewhere(m.heap, now.heap, Pointers(m.segments[i]), m.segments[k]);
    }
    ResidentIsApart(m, i);
    ResidentElsewhere(m, now.heap, Pointers(m.segments[i]));
    OwnedWithout(m, now.heap, i);
    ApartWithout(m.segments, i);
  }

  lemma ApartWithout(segments: seq<Segment>, i: nat)
    requires Apart(segments) && i < |segments|
    ensures Apart(segments[..i] + segments[i + 1..])
  {
    hide Pointers;
    var now := segments[..i] + segments[i + 1..];
    forall j, k | 0 <= j < k < |now| ensures Pointers(now[j]) !! Pointers(now[k]) {
      assert now[j] == segments[if j < i then j else j + 1] && now[k] == segments[if k < i then k else k + 1];
    }
  }

  lemma OwnedWithout(m: Memory, heap: Heap, i: nat)
    requires Owning(m) && i < |m.segments|
    ensures Owned(m.(heap := heap, segments := m.segments[..i] + m.segments[i + 1..])) == Owned(m) - Pointers(m.segments[i])
  {
    hide SegmentKept, Pointers;
    var now := m.(heap := heap, segments := m.segments[..i] + m.segments[i + 1..]);
    ResidentIsApart(m, i);
    forall p ensures p in Owned(now) <==> p in Owned(m) - Pointers(m.segments[i]) {
      if j: nat :| j < |now.segments| && p in Pointers(now.segments[j]) {
        var k := if j < i then j else j + 1;
        assert p in Pointers(m.segments[k]);
      }
      if k: nat :| k < |m.segments| && k != i && p in Pointers(m.segments[k]) {
        var j := if k < i then k else k - 1;
        assert now.segments[j] == m.segments[k];
      }
    }
  }

  lemma BlankAppended(m: Memory)
    requires Kept(m)
    ensures Kept(m.(segments := m.segments + [NOTHING]))
  {
    hide Borrows;
    var now := m.(segments := m.segments + [NOTHING]);
    assert Owned(now) == Owned(m) by {
      forall p ensures p in Owned(now) <==> p in Owned(m) {
        if j: nat :| j < |m.segments| && p in Pointers(m.segments[j]) {
          assert now.segments[j] == m.segments[j];
        }
      }
    }
    assert Borrows(m.heap, m.codebook, m.rotation, NOTHING) by { BlankBorrows(m); }
  }

  lemma BlankBorrows(m: Memory)
    ensures Borrows(m.heap, m.codebook, m.rotation, NOTHING)
  {
  }

  lemma SegmentAppended(m: Memory, heap: Heap, t: Segment)
    requires Kept(m) && Elsewhere(m.heap, heap, {}) && heap.Keys == m.heap.Keys + Pointers(t) && Pointers(t) !! m.heap.Keys
    requires SegmentKept(heap, t) && Borrows(heap, m.codebook, m.rotation, t)
    ensures Kept(m.(heap := heap, segments := m.segments + [t]))
    ensures forall j :: 0 <= j < |m.segments| ==> Untouched(m.heap, heap, m.segments[j])
  {
    var blank := m.(segments := m.segments + [NOTHING]);
    var n := |m.segments|;
    BlankAppended(m);
    hide Kept, SegmentKept, Borrows, Untouched;
    KeptAfter(blank, heap, n, t);
    assert With(blank, heap, n, t) == m.(heap := heap, segments := m.segments + [t]);
    forall j | 0 <= j < n ensures Untouched(m.heap, heap, m.segments[j]) {
      assert blank.segments[j] == m.segments[j];
    }
  }

  // --------------------------------------------------------- one segment under way

  /** A segment being worked on, which owns `t` for now; the rest of the memory is m's. */
  ghost predicate Midway(m: Memory, i: nat, heap: Heap, t: Segment)
    requires i < |m.segments|
  {
    && Elsewhere(m.heap, heap, Pointers(m.segments[i]))
    && heap.Keys == m.heap.Keys - Pointers(m.segments[i]) + Pointers(t)
    && Pointers(t) * m.heap.Keys <= Pointers(m.segments[i])
    && Points(heap, t.store, IsStore) && Points(heap, t.floats, IsFloats)
    && Points(heap, t.source, IsSource) && Points(heap, t.index, IsIndex)
  }

  lemma MidwayStarts(m: Memory, i: nat)
    requires Owning(m) && i < |m.segments|
    ensures Midway(m, i, m.heap, m.segments[i])
  {
    SegmentFacts(m, i);
  }

  /** One of its pointers is replaced: the old object deleted, a new one made, or none. */
  lemma MidwayStore(m: Memory, i: nat, heap: Heap, t: Segment, p: nat, thing: Option<Thing>)
    requires i < |m.segments| && Midway(m, i, heap, t) && p !in heap && p !in m.heap
    requires thing.Some? ==> KindOf(thing.value) == IsStore
    ensures Midway(m, i, Put(heap - Pointed(t.store), p, thing), t.(store := if thing.Some? then Some(p) else None))
  {
    var now, u := Put(heap - Pointed(t.store), p, thing), t.(store := if thing.Some? then Some(p) else None);
    forall q ensures q in now.Keys <==> q in m.heap.Keys - Pointers(m.segments[i]) + Pointers(u) {
    }
  }

  lemma MidwayFloats(m: Memory, i: nat, heap: Heap, t: Segment, p: nat, thing: Option<Thing>)
    requires i < |m.segments| && Midway(m, i, heap, t) && p !in heap && p !in m.heap
    requires thing.Some? ==> KindOf(thing.value) == IsFloats
    ensures Midway(m, i, Put(heap - Pointed(t.floats), p, thing), t.(floats := if thing.Some? then Some(p) else None))
  {
    var now, u := Put(heap - Pointed(t.floats), p, thing), t.(floats := if thing.Some? then Some(p) else None);
    forall q ensures q in now.Keys <==> q in m.heap.Keys - Pointers(m.segments[i]) + Pointers(u) {
    }
  }

  lemma MidwaySource(m: Memory, i: nat, heap: Heap, t: Segment, p: nat, thing: Option<Thing>)
    requires i < |m.segments| && Midway(m, i, heap, t) && p !in heap && p !in m.heap
    requires thing.Some? ==> KindOf(thing.value) == IsSource
    ensures Midway(m, i, Put(heap - Pointed(t.source), p, thing), t.(source := if thing.Some? then Some(p) else None))
  {
    var now, u := Put(heap - Pointed(t.source), p, thing), t.(source := if thing.Some? then Some(p) else None);
    forall q ensures q in now.Keys <==> q in m.heap.Keys - Pointers(m.segments[i]) + Pointers(u) {
    }
  }

  lemma MidwayIndex(m: Memory, i: nat, heap: Heap, t: Segment, p: nat, thing: Option<Thing>)
    requires i < |m.segments| && Midway(m, i, heap, t) && p !in heap && p !in m.heap
    requires thing.Some? ==> KindOf(thing.value) == IsIndex
    ensures Midway(m, i, Put(heap - Pointed(t.index), p, thing), t.(index := if thing.Some? then Some(p) else None))
  {
    var now, u := Put(heap - Pointed(t.index), p, thing), t.(index := if thing.Some? then Some(p) else None);
    forall q ensures q in now.Keys <==> q in m.heap.Keys - Pointers(m.segments[i]) + Pointers(u) {
    }
  }

  /** A codebook that appears on the way is part of the rest of the memory. */
  lemma MidwayAppears(m: Memory, now: Memory, i: nat, heap: Heap, t: Segment, opq: bool)
    requires i < |m.segments| && Kept(m) && m.codebook.None? && Midway(m, i, heap, t) && Appeared(m, now, opq)
    requires (Pointed(now.codebook) + Pointed(now.rotation)) !! heap.Keys
    ensures Kept(now) && Midway(now, i, heap + Buffers(now.codebook, now.rotation), t)
    ensures forall j :: 0 <= j < |m.segments| ==> Untouched(m.heap, now.heap, m.segments[j])
  {
    AppearedIsKept(m, now, opq);
    PointersAreIn(m, i);
    hide Kept, Untouched, KindOf, Pointers;
    MidwayUnder(m, i, heap, t, Buffers(now.codebook, now.rotation));
  }

  lemma MidwayUnder(m: Memory, i: nat, heap: Heap, t: Segment, buffers: Heap)
    requires i < |m.segments| && Midway(m, i, heap, t) && Pointers(m.segments[i]) <= m.heap.Keys
    requires buffers.Keys !! heap.Keys && buffers.Keys !! m.heap.Keys
    ensures Midway(m.(heap := m.heap + buffers), i, heap + buffers, t)
  {
    hide KindOf, Pointers;
    MidwayPointers(m, i, heap, t);
    KeysUnder(m.heap.Keys, heap.Keys, buffers.Keys, Pointers(m.segments[i]), Pointers(t));
    assert (heap + buffers).Keys == heap.Keys + buffers.Keys && (m.heap + buffers).Keys == m.heap.Keys + buffers.Keys;
  }

  lemma KeysUnder(was: set<nat>, now: set<nat>, more: set<nat>, gone: set<nat>, mine: set<nat>)
    requires now == was - gone + mine && more !! was && more !! now && gone <= was && mine * was <= gone
    ensures now + more == was + more - gone + mine && mine * (was + more) <= gone
  {
  }

  lemma MidwayPointers(m: Memory, i: nat, heap: Heap, t: Segment)
    requires i < |m.segments| && Midway(m, i, heap, t)
    ensures Pointers(t) <= heap.Keys
    ensures Pointed(t.store) + Pointed(t.floats) + Pointed(t.source) + Pointed(t.index) <= heap.Keys
  {
  }

  lemma MidwayReleased(m: Memory, i: nat, heap: Heap, t: Segment, none: bool, p: nat)
    requires i < |m.segments| && Midway(m, i, heap, t) && p !in heap && p !in m.heap
    ensures Midway(m, i, heap - Pointed(t.source), t.(source := None))
    ensures Midway(m, i, heap - Pointed(t.source) - Pointed(t.floats), t.(source := None, floats := None))
  {
    hide Midway;
    MidwaySource(m, i, heap, t, p, None);
    MidwayFloats(m, i, heap - Pointed(t.source), t.(source := None), p, None);
  }

  lemma MidwayResident(m: Memory, i: nat, heap: Heap, t: Segment)
    requires Kept(m) && i < |m.segments| && Midway(m, i, heap, t)
    ensures ResidentKept(m.(heap := heap))
    ensures Pointed(t.store) <= heap.Keys && Pointed(t.floats) <= heap.Keys
    ensures Pointed(t.source) <= heap.Keys && Pointed(t.index) <= heap.Keys
  {
    KeptIsOwning(m);
    ResidentIsApart(m, i);
    ResidentElsewhere(m, heap, Pointers(m.segments[i]));
  }

  /** The memory around a segment under way, once a codebook has been asked for. */
  function Around(m: Memory, codebook: Option<nat>, rotation: Option<nat>): Memory {
    if m.codebook.Some? || codebook.None? then m
    else Memory(m.heap + Buffers(codebook, rotation), codebook, rotation, m.segments)
  }

  lemma MidwayEnsured(m: Memory, i: nat, was: Heap, now: Memory, t: Segment, opq: bool)
    requires Kept(m) && i < |m.segments| && Midway(m, i, was, t)
    requires now == m.(heap := was) || (m.codebook.None? && Appeared(m.(heap := was), now, opq))
    requires m.codebook.None? ==> (Pointed(now.codebook) + Pointed(now.rotation)) !! m.heap.Keys
    ensures var base := Around(m, now.codebook, now.rotation);
            && Kept(base) && base.segments == m.segments && base.codebook == now.codebook && base.rotation == now.rotation
            && Midway(base, i, now.heap, t)
            && (forall p :: p in was ==> p in now.heap && now.heap[p] == was[p])
            && base.heap.Keys <= m.heap.Keys + now.heap.Keys
            && forall j :: 0 <= j < |m.segments| ==> Untouched(m.heap, base.heap, m.segments[j])
  {
    if now == m.(heap := was) {
      RotationWithCodebook(m);
      UntouchedItself(m);
    } else {
      var base := Around(m, now.codebook, now.rotation);
      hide Kept, Midway, Untouched;
      MidwayAppears(m, base, i, was, t, opq);
    }
  }

  lemma RotationWithCodebook(m: Memory)
    requires Kept(m)
    ensures m.rotation.Some? ==> m.codebook.Some?
  {
  }

  lemma MidwayEnds(m: Memory, i: nat, heap: Heap, t: Segment)
    requires Kept(m) && i < |m.segments| && Midway(m, i, heap, t)
    requires SegmentKept(heap, t) && Borrows(heap, m.codebook, m.rotation, t)
    ensures Kept(With(m, heap, i, t)) && Framed(m, With(m, heap, i, t), i)
  {
    hide Kept, Framed, SegmentKept, Borrows;
    KeptAfter(m, heap, i, t);
  }

  // ------------------------------------------------------------------- the object

  class SharedCodebook {
    var heap: Heap
    var brk: nat
    var codebook: Option<nat>
    var rotation: Option<nat>
    var segments: seq<Segment>

    function Snapshot(): Memory
      reads this
    {
      Memory(heap, codebook, rotation, segments)
    }

    ghost predicate Bounded()
      reads this
    {
      forall p :: p in heap ==> p < brk
    }

    ghost predicate Valid()
      reads this
    {
      Kept(Snapshot()) && Bounded()
    }

    constructor ()
      ensures Valid() && codebook.None? && segments == []
    {
      heap, brk, codebook, rotation, segments := map[], 1, None, None, [];
    }

    method New(t: Thing) returns (p: nat)
      requires Bounded()
      modifies `heap, `brk
      ensures p == old(brk) && brk == p + 1 && p !in old(heap) && heap == old(heap)[p := t] && Bounded()
    {
      p := brk;
      heap, brk := heap[p := t], brk + 1;
    }

    /** Nothing is deleted twice; deleting NULL is allowed. */
    method Delete(p: Option<nat>)
      requires p.Some? ==> p.value in heap
      modifies `heap
      ensures heap == old(heap) - Pointed(p) && (old(Bounded()) ==> Bounded())
    {
      heap := heap - Pointed(p);
    }

    method Load(file: Sidecar, global: bool) returns (p: nat)
      requires Bounded()
      requires Points(heap, codebook, IsBuffer) && Points(heap, rotation, IsBuffer)
      modifies `heap, `brk
      ensures p == old(brk) && brk == p + 1 && p !in old(heap) && heap == old(heap)[p := Loaded(file, codebook, rotation, global)] && Bounded()
    {
      p := New(Loaded(file, codebook, rotation, global));
    }

    /** Delete the old store, load the new one; the source is left alone. */
    method ExchangeStore(i: nat, file: Sidecar, global: bool)
      requires Valid() && i < |segments| && Exchangeable(heap, segments[i])
      modifies `heap, `brk, `segments
      ensures Valid() && Framed(old(Snapshot()), Snapshot(), i)
      ensures segments[i] == old(segments[i]).(store := segments[i].store) && segments[i].store.Some?
      ensures segments[i].store.value in heap
      ensures heap[segments[i].store.value] == Loaded(file, codebook, rotation, global)
      ensures old(SourceAttached(heap, segments[i])) ==> (SourceAttached(heap, segments[i]) <==> !old(OverPq(heap, segments[i])))
    {
      ghost var m := Snapshot();
      LiveStore(m, i);
      assert ResidentKept(m);
      StoreExchanged(m, i, brk, Loaded(file, codebook, rotation, global));
      hide Kept, Framed, Exchangeable, SourceAttached, OverPq, Loaded;
      var s := segments[i];
      Delete(s.store);
      var p := Load(file, global);
      segments := segments[i := s.(store := Some(p))];
      assert Snapshot() == With(m, heap, i, segments[i]);
    }

    /** new, over the store the tier prescribes. */
    method NewSource(store: Option<nat>, floats: Option<nat>, none: bool) returns (source: Option<nat>)
      requires Bounded()
      modifies `heap, `brk
      ensures var t := TierSource(store, floats, none);
              source == (if t.Some? then Some(old(brk)) else None) && heap == Put(old(heap), old(brk), t)
      ensures Bounded() && brk >= old(brk)
    {
      source := None;
      if none && store.Some? {
        var p := New(PqSource(store.value));
        source := Some(p);
      } else if floats.Some? {
        var p := New(FloatSource(floats.value));
        source := Some(p);
      }
    }

    /** A token store exchanged together with the source and the graph above it. */
    method Reencode(i: nat, file: Sidecar, none: bool)
      requires Valid() && i < |segments|
      modifies `heap, `brk, `segments
      ensures Valid() && Framed(old(Snapshot()), Snapshot(), i)
      ensures Recoded(Snapshot(), i, old(segments[i]).floats, file, none)
    {
      hide Kept, Framed, SegmentKept, SourceAttached, Loaded, Owning, Pointers, Borrows, Recoded, TierSource;
      ghost var m := Snapshot();
      KeptIsOwning(m);
      SegmentFacts(m, i);
      ReencodedIs(m, i, brk, brk + 1, file, none);
      var s := segments[i];
      Delete(s.store);
      var p := Load(file, true);
      Delete(s.index);
      Delete(s.source);
      var source := NewSource(Some(p), s.floats, none);
      segments := segments[i := Segment(Some(p), s.floats, source, None)];
      assert Snapshot() == With(m, heap, i, segments[i]);
    }

    /** Rotation, then codebook, straight into the empty resident places. */
    method Train(t: Training, opq: bool) returns (failed: bool)
      requires Bounded() && codebook.None? && rotation.None?
      modifies `heap, `brk, `codebook, `rotation
      ensures Bounded() && brk >= old(brk) && (failed <==> !((opq ==> t.rotates) && t.trains))
      ensures failed ==> Snapshot() == old(Snapshot())
      ensures !failed ==> Appeared(old(Snapshot()), Snapshot(), opq)
      ensures !failed ==> forall p :: p in Pointed(codebook) + Pointed(rotation) ==> p >= old(brk)
    {
      hide Buffers;
      if opq {
        var r := New(Buffer);
        rotation := Some(r);
        if !t.rotates {
          Delete(rotation);
          rotation := None;
          assert heap == old(heap);
          return true;
        }
      }
      var c := New(Buffer);
      codebook := Some(c);
      if !t.trains {
        Delete(codebook);
        codebook := None;
        Delete(rotation);
        rotation := None;
        assert heap == old(heap);
        return true;
      }
      BuffersAre(old(heap), codebook, rotation);
      return false;
    }

    /** Train and persist a codebook, once; a failure leaves none. */
    method Ensure(t: Training, opq: bool) returns (failed: bool)
      requires Bounded() && ResidentKept(Snapshot())
      modifies `heap, `brk, `codebook, `rotation
      ensures Bounded() && brk >= old(brk)
      ensures failed <==> old(codebook).None? && !(Succeeds(t, opq) && t.saves)
      ensures failed || old(codebook).Some? ==> Snapshot() == old(Snapshot())
      ensures !failed && old(codebook).None? ==> Appeared(old(Snapshot()), Snapshot(), opq)
      ensures !failed && old(codebook).None? ==> forall p :: p in Pointed(codebook) + Pointed(rotation) ==> p >= old(brk)
    {
      if codebook.Some? {
        return false;
      }
      if !t.rows {
        return true;
      }
      failed := Train(t, opq);
      if !failed && !t.saves {
        Delete(codebook);
        codebook := None;
        Delete(rotation);
        rotation := None;
        assert heap == old(heap);
        failed := true;
      }
    }

    /** Which segments hold an intact encoding. */
    method Eligible() returns (had: seq<bool>)
      requires Owning(Snapshot())
      ensures |had| == |segments| && forall i :: 0 <= i < |had| ==> had[i] == Encoded(heap, segments[i])
    {
      hide Owning;
      had := [];
      for s := 0 to |segments|
        invariant |had| == s && forall i :: 0 <= i < s ==> had[i] == Encoded(heap, segments[i])
      {
        OwnedStore(Snapshot(), s);
        had := had + [segments[s].store.Some? && heap[segments[s].store.value].tokens > 0];
      }
    }

    /** Graph, source and store, in this order. */
    method DropStore(i: nat)
      requires Owning(Snapshot()) && Bounded() && i < |segments|
      modifies `heap, `segments
      ensures Owning(Snapshot()) && Bounded() && Framed(old(Snapshot()), Snapshot(), i)
      ensures segments[i] == Segment(None, old(segments[i]).floats, None, None)
    {
      hide Owning, Framed, SegmentKept, Untouched, Pointers;
      ghost var m := Snapshot();
      SegmentFacts(m, i);
      var s := segments[i];
      DroppedHere(heap, s);
      Delete(s.index);
      Delete(s.source);
      Delete(s.store);
      segments := segments[i := Segment(None, s.floats, None, None)];
      OneSegmentChanged(m, heap, i, segments[i]);
      assert Snapshot() == With(m, heap, i, segments[i]);
      FramedBy(m, heap, i, segments[i]);
    }

    /** Once the codebook they borrow is gone, the borrowers go. */
    method DropBorrowers()
      requires Owning(Snapshot()) && Bounded()
      modifies `heap, `segments
      ensures Valid() && |segments| == |old(segments)|
      ensures forall i :: 0 <= i < |segments| ==>
                && segments[i] == Unborrowed(old(heap), old(segments)[i])
                && (!Borrowing(old(heap), old(segments)[i]) ==> Untouched(old(heap), heap, segments[i]))
    {
      hide Owning, Framed, Untouched;
      ghost var m := Snapshot();
      UntouchedItself(m);
      for i := 0 to |segments|
        invariant Owning(Snapshot()) && Bounded() && |segments| == |m.segments|
        invariant forall j :: 0 <= j < i ==>
                    && segments[j] == Unborrowed(m.heap, m.segments[j])
                    && (!Borrowing(m.heap, m.segments[j]) ==> Untouched(m.heap, heap, segments[j]))
        invariant forall j :: i <= j < |segments| ==> segments[j] == m.segments[j] && Untouched(m.heap, heap, segments[j])
      {
        UntouchedStores(m.heap, heap, segments[i]);
        if Borrowing(heap, segments[i]) {
          ghost var was := Snapshot();
          DropStore(i);
          StillUntouched(m, was, Snapshot(), i);
        }
      }
      forall j | 0 <= j < |segments| ensures !Borrowing(heap, segments[j]) {
        if !Borrowing(m.heap, m.segments[j]) {
          UntouchedStores(m.heap, heap, segments[j]);
        }
      }
      NoneBorrow(Snapshot());
    }

    /** Encode again every segment that had an encoding; one that fails does not stop the rest. */
    method SecondPass(had: seq<bool>, outcomes: seq<Rewrite>, none: bool, dense: bool) returns (failed: bool)
      requires Valid() && |had| == |outcomes| == |segments| && (dense ==> AllBare(Snapshot()) && !none)
      modifies `heap, `brk, `segments
      ensures Valid() && |segments| == |old(segments)| && codebook == old(codebook) && rotation == old(rotation)
      ensures forall i :: 0 <= i < |segments| ==> PassedOver(old(Snapshot()), Snapshot(), i, had[i], outcomes[i], none)
      ensures failed <==> exists i :: 0 <= i < |had| && Counts(had[i], outcomes[i], dense)
    {
      hide Kept, Owning, Framed, Untouched, Recoded, Exchangeable, Loaded;
      ghost var m := Snapshot();
      KeptIsOwning(m);
      UntouchedItself(m);
      failed := false;
      for i := 0 to |segments|
        invariant Valid() && |segments| == |m.segments| && codebook == m.codebook && rotation == m.rotation
        invariant forall j :: 0 <= j < i ==> PassedOver(m, Snapshot(), j, had[j], outcomes[j], none)
        invariant forall j :: i <= j < |segments| ==> segments[j] == m.segments[j] && Untouched(m.heap, heap, m.segments[j])
        invariant failed <==> exists j :: 0 <= j < i && Counts(had[j], outcomes[j], dense)
      {
        if had[i] {
          match outcomes[i] {
            case NoPool => failed := failed || dense;
            case Fails => failed := true;
            case Written(file) =>
              ghost var was := Snapshot();
              if dense {
                assert Bare(m.segments[i]);
                BareIsExchangeable(heap, segments[i]);
                ExchangeStore(i, file, true);
              } else {
                Reencode(i, file, none);
              }
              StillUntouched(m, was, Snapshot(), i);
              if dense {
                BareRecoded(Snapshot(), i, file);
              }
              forall j | 0 <= j < i ensures PassedOver(m, Snapshot(), j, had[j], outcomes[j], none) {
                PassedOverStays(m, was, Snapshot(), i, j, had[j], outcomes[j], none);
              }
          }
        }
      }
    }

    /** Rotation, then codebook, for the time being owned by nobody else. */
    method TrainAside(t: Training, opq: bool) returns (failed: bool, c: Option<nat>, r: Option<nat>)
      requires Bounded()
      modifies `heap, `brk
      ensures Bounded() && (failed <==> !((opq ==> t.rotates) && t.trains))
      ensures failed ==> heap == old(heap)
      ensures !failed ==> c.Some? && (r.Some? <==> opq) && c != r
      ensures !failed ==> (Pointed(c) + Pointed(r)) !! old(heap).Keys && heap == old(heap) + Buffers(c, r)
    {
      hide Buffers;
      c, r := None, None;
      if opq {
        var p := New(Buffer);
        r := Some(p);
        if !t.rotates {
          Delete(r);
          assert heap == old(heap);
          return true, None, None;
        }
      }
      var p := New(Buffer);
      c := Some(p);
      if !t.trains {
        Delete(c);
        Delete(r);
        assert heap == old(heap);
        return true, None, None;
      }
      BuffersAre(old(heap), c, r);
      return false, c, r;
    }

    /** Free the resident buffers, put others (or none) in their place, drop the borrowers. */
    method Install(c: Option<nat>, r: Option<nat>, ghost m: Memory)
      requires Kept(m) && Snapshot() == m.(heap := m.heap + Buffers(c, r)) && Bounded()
      requires (Pointed(c) + Pointed(r)) !! m.heap.Keys && (r.Some? ==> c.Some? && c != r)
      modifies `heap, `codebook, `rotation, `segments
      ensures Valid() && codebook == c && rotation == r && |segments| == |m.segments|
      ensures forall i :: 0 <= i < |segments| ==> Unencoded(m, Snapshot(), i)
      ensures AllBare(m) ==> AllBare(Snapshot())
    {
      hide Kept, Owning, Untouched, Buffers, Unencoded, Borrowing;
      KeptIsOwning(m);
      ResidentIsOwned(m);
      RotationSurvives(m);
      Delete(codebook);
      codebook := c;
      Delete(rotation);
      rotation := r;
      assert heap == m.heap + Buffers(c, r) - Resident(m);
      ExchangedResident(m, heap, codebook, rotation);
      ghost var swapped := Snapshot();
      DropBorrowers();
      UntouchedUnborrowed(m, swapped, Snapshot());
      if AllBare(m) {
        UnborrowedIsBare(m, swapped, Snapshot());
      }
    }

    /**
     The token side: the new codebook is trained aside, so that a failure changes nothing.
     Once it is in place every borrower of the old one is gone before anything else runs.
     */
    method RebuildTokens(t: Training, outcomes: seq<Rewrite>, opq: bool, none: bool) returns (failed: bool)
      requires Valid() && |outcomes| == |segments|
      modifies this
      ensures Valid() && |segments| == |old(segments)|
      ensures !Succeeds(t, opq) ==> failed && Snapshot() == old(Snapshot())
      ensures Succeeds(t, opq) ==> codebook.Some? && codebook.value !in old(heap) && (rotation.Some? <==> opq)
      ensures Succeeds(t, opq) && !t.saves ==>
                failed && forall i :: 0 <= i < |segments| ==> Unencoded(old(Snapshot()), Snapshot(), i)
      ensures Succeeds(t, opq) && t.saves ==>
                && (failed <==> SomeCounts(old(Snapshot()), outcomes, false))
                && (failed <==> exists i :: 0 <= i < |outcomes| && outcomes[i].Fails? && old(Encoded(heap, segments[i])))
                && forall i :: 0 <= i < |segments| ==> Rebuilt(old(Snapshot()), Snapshot(), i, outcomes[i], none)
    {
      hide Kept, Owning, Recoded, Buffers, Unencoded, PassedOver, Rebuilt;
      ghost var m := Snapshot();
      KeptIsOwning(m);
      if !t.rows {
        return true;
      }
      var had := Eligible();
      var c, r;
      failed, c, r := TrainAside(t, opq);
      if failed {
        return true;
      }
      Install(c, r, m);
      ghost var dropped := Snapshot();
      if !t.saves {
        return true;
      }
      failed := SecondPass(had, outcomes, none, false);
      forall i | 0 <= i < |segments| ensures Rebuilt(m, Snapshot(), i, outcomes[i], none) {
        RebuiltThrough(m, dropped, Snapshot(), i, outcomes[i], none);
      }
    }

    /** The dense side: rows in hand, the old codebook goes first, and its borrowers with it. */
    method RebuildDense(t: Training, outcomes: seq<Rewrite>, opq: bool) returns (failed: bool)
      requires Valid() && |outcomes| == |segments| && AllBare(Snapshot())
      modifies this
      ensures Valid() && |segments| == |old(segments)| && AllBare(Snapshot())
      ensures !t.rows ==> failed && Snapshot() == old(Snapshot())
      ensures t.rows && !Succeeds(t, opq) ==> codebook.None?
      ensures Succeeds(t, opq) ==> codebook.Some? && (rotation.Some? <==> opq)
      ensures t.rows && !(Succeeds(t, opq) && t.saves) ==>
                failed && forall i :: 0 <= i < |segments| ==> Unencoded(old(Snapshot()), Snapshot(), i)
      ensures Succeeds(t, opq) && t.saves ==>
                && (failed <==> SomeCounts(old(Snapshot()), outcomes, true))
                && (failed <==> exists i :: 0 <= i < |outcomes| && !outcomes[i].Written? && old(Encoded(heap, segments[i])))
                && forall i :: 0 <= i < |segments| ==> Rebuilt(old(Snapshot()), Snapshot(), i, outcomes[i], false)
    {
      hide Kept, Owning, Recoded, Buffers, Unencoded, PassedOver, Rebuilt, Appeared;
      ghost var m := Snapshot();
      KeptIsOwning(m);
      if !t.rows {
        return true;
      }
      var had := Eligible();
      NoBuffers(heap);
      Install(None, None, m);
      ghost var dropped := Snapshot();
      failed := Train(t, opq);
      if failed {
        return true;
      }
      ghost var trained := Snapshot();
      UnencodedAppeared(m, dropped, trained, opq);
      if !t.saves {
        return true;
      }
      failed := SecondPass(had, outcomes, false, true);
      forall i | 0 <= i < |segments| ensures Rebuilt(m, Snapshot(), i, outcomes[i], false) && Bare(segments[i]) {
        RebuiltThrough(m, trained, Snapshot(), i, outcomes[i], false);
        PassedOverIsBare(trained, Snapshot(), i, had[i], outcomes[i]);
      }
    }

    /**
     Encode the segments that are not encoded yet, training the codebook on the way if
     there is none.  Sources are left alone, which is right for all but one kind of segment.
     */
    method Build(trainings: seq<Training>, outcomes: seq<Rewrite>, opq: bool, global: bool)
      requires Valid() && |trainings| == |outcomes| == |segments|
      modifies this
      ensures Valid() && |segments| == |old(segments)|
      ensures old(codebook).Some? ==> codebook == old(codebook) && rotation == old(rotation)
      ensures forall i :: 0 <= i < |segments| ==> Built(old(Snapshot()), Snapshot(), i, outcomes[i], global)
      ensures codebook.Some? <==>
                old(codebook).Some? || exists i :: 0 <= i < |segments| && Trains(old(Snapshot()), i, outcomes[i], trainings[i], opq, global)
      ensures old(Attached(Snapshot())) ==> (Attached(Snapshot()) <==> !BuildsUnderSource(old(Snapshot()), outcomes))
    {
      hide Kept, Owning, Framed, Untouched, Exchangeable, SourceAttached, Built, BuildsUnderSource, Attached;
      ghost var m := Snapshot();
      KeptIsOwning(m);
      UntouchedItself(m);
      for i := 0 to |segments|
        invariant Valid() && |segments| == |m.segments|
        invariant m.codebook.Some? ==> codebook == m.codebook && rotation == m.rotation
        invariant forall j :: 0 <= j < i ==> Built(m, Snapshot(), j, outcomes[j], global)
        invariant codebook.Some? <==>
                    m.codebook.Some? || exists j :: 0 <= j < i && Trains(m, j, outcomes[j], trainings[j], opq, global)
        invariant forall j :: i <= j < |segments| ==> segments[j] == m.segments[j] && Untouched(m.heap, heap, m.segments[j])
      {
        ghost var was := Snapshot();
        UntouchedStores(m.heap, heap, segments[i]);
        assert Trains(was, i, outcomes[i], trainings[i], opq, global) == Trains(m, i, outcomes[i], trainings[i], opq, global);
        BuildOne(i, trainings[i], outcomes[i], opq, global);
        BuildContinues(m, was, Snapshot(), i, outcomes, global);
      }
      if Attached(m) {
        BuildAttaches(m, Snapshot(), outcomes, global);
      }
    }

    method BuildOne(i: nat, t: Training, outcome: Rewrite, opq: bool, global: bool)
      requires Valid() && i < |segments|
      modifies this
      ensures Valid() && |segments| == |old(segments)|
      ensures old(codebook).Some? ==> codebook == old(codebook) && rotation == old(rotation)
      ensures Built(old(Snapshot()), Snapshot(), i, outcome, global)
      ensures codebook.Some? <==> old(codebook).Some? || Trains(old(Snapshot()), i, outcome, t, opq, global)
      ensures Builds(old(Snapshot()), i, outcome) ==>
                segments[i].store.value in heap && heap[segments[i].store.value] == Loaded(outcome.file, codebook, rotation, global)
      ensures forall j :: 0 <= j < |segments| && j != i ==>
                segments[j] == old(segments)[j] && Untouched(old(heap), heap, old(segments)[j])
    {
      hide Kept, Owning, Framed, Untouched, Exchangeable, SourceAttached, Loaded, OverPq, Appeared;
      ghost var m := Snapshot();
      KeptIsOwning(m);
      UntouchedItself(m);
      LiveStore(m, i);
      if outcome.NoPool? || (segments[i].store.Some? && heap[segments[i].store.value].tokens > 0) {
        return;
      }
      if global {
        ResidentOf(m);
        var failed := Ensure(t, opq);
      }
      ghost var ensured := Snapshot();
      EnsuredKeeps(m, ensured, opq);
      UntouchedStores(m.heap, heap, segments[i]);
      match outcome {
        case Written(file) =>
          Unencodable(ensured, i);
          ExchangeStore(i, file, global);
          LoadedTokens(file, codebook, rotation, global);
          OthersUntouched(m, ensured, Snapshot(), i);
        case _ =>
      }
    }

    /** Every source is asked for its size, so every source had better be attached. */
    method BuildTokenIndex(succeeds: seq<bool>, saves: seq<bool>)
      requires Valid() && Attached(Snapshot()) && |succeeds| == |saves| == |segments|
      modifies `heap, `brk, `segments
      ensures Valid() && Attached(Snapshot()) && |segments| == |old(segments)|
      ensures codebook == old(codebook) && rotation == old(rotation)
      ensures forall i :: 0 <= i < |segments| ==> segments[i] == old(segments)[i].(index := segments[i].index)
      ensures forall i :: 0 <= i < |segments| && succeeds[i] && saves[i] ==>
                (Idle(heap, segments[i].index) ==> segments[i].source.None? || Yielding(heap, segments[i]) == 0)
      ensures forall i :: 0 <= i < |segments| && !Idle(heap, segments[i].index) ==>
                && segments[i].source.Some? && segments[i].index.Some? && segments[i].index.value in heap
                && heap[segments[i].index.value] == TokenIndex(segments[i].source.value, Yielding(heap, segments[i]))
      ensures forall i :: 0 <= i < |segments| ==>
                !(succeeds[i] && saves[i]) || old(Yielding(heap, segments[i])) == 0 || old(!Idle(heap, segments[i].index)) ==>
                  segments[i] == old(segments)[i]
    {
      hide Kept, Owning, Framed, Untouched, SourceAttached, Attached, Idle, Yielding;
      ghost var m := Snapshot();
      for i := 0 to |segments|
        invariant Valid() && Attached(Snapshot()) && |segments| == |m.segments|
        invariant codebook == m.codebook && rotation == m.rotation
        invariant forall j :: 0 <= j < |segments| ==> segments[j] == m.segments[j].(index := segments[j].index)
        invariant forall j :: 0 <= j < i && succeeds[j] && saves[j] ==>
                    (Idle(heap, segments[j].index) ==> segments[j].source.None? || Yielding(heap, segments[j]) == 0)
        invariant forall j :: i <= j < |segments| ==>
                    && segments[j] == m.segments[j] && Yielding(heap, segments[j]) == Yielding(m.heap, m.segments[j])
                    && (Idle(heap, segments[j].index) <==> Idle(m.heap, m.segments[j].index))
        invariant forall j :: 0 <= j < i ==>
                    !(succeeds[j] && saves[j]) || Yielding(m.heap, m.segments[j]) == 0 || !Idle(m.heap, m.segments[j].index) ==>
                      segments[j] == m.segments[j]
      {
        ghost var was := Snapshot();
        BuildGraph(i, succeeds[i], saves[i]);
        GraphsStay(was, Snapshot(), i);
      }
      forall i | 0 <= i < |segments| && !Idle(heap, segments[i].index)
        ensures segments[i].source.Some? && segments[i].index.Some? && segments[i].index.value in heap
        ensures heap[segments[i].index.value] == TokenIndex(segments[i].source.value, Yielding(heap, segments[i]))
      {
        GraphIs(Snapshot(), i);
      }
    }

    method BuildGraph(i: nat, succeeds: bool, saves: bool)
      requires Valid() && Attached(Snapshot()) && i < |segments|
      modifies `heap, `brk, `segments
      ensures Valid() && Attached(Snapshot()) && Framed(old(Snapshot()), Snapshot(), i)
      ensures segments[i] == old(segments[i]).(index := segments[i].index)
      ensures succeeds && saves ==>
                (Idle(heap, segments[i].index) ==> segments[i].source.None? || Yielding(heap, segments[i]) == 0)
      ensures !(succeeds && saves) || old(Yielding(heap, segments[i])) == 0 || old(!Idle(heap, segments[i].index)) ==>
                segments[i] == old(segments[i])
    {
      hide Kept, Owning, Framed, Untouched, Attached, SegmentKept, SourceAttached, Yields;
      ghost var m := Snapshot();
      var s := segments[i];
      SourceIsLive(m, i);
      NotChanged(m, i);
      if s.source.None? || Yields(heap, heap[s.source.value]) == 0 {
        return;
      }
      if s.index.Some? && heap[s.index.value].nodes > 0 {
        return;
      }
      if !succeeds {
        return;
      }
      var idx := New(TokenIndex(s.source.value, Yields(heap, heap[s.source.value])));
      if !saves {
        Delete(Some(idx));
        assert heap == m.heap;
        return;
      }
      Delete(s.index);
      segments := segments[i := s.(index := Some(idx))];
      GraphExchanged(m, i, idx);
      assert Snapshot() == With(m, heap, i, segments[i]);
    }

    /** Inputs of a compaction: everything the segment owns, then its place in segments[]. */
    method Remove(i: nat)
      requires Valid() && i < |segments|
      modifies `heap, `segments
      ensures Valid() && codebook == old(codebook) && rotation == old(rotation)
      ensures segments == old(segments[..i] + segments[i + 1..])
      ensures forall j :: 0 <= j < |segments| ==> Untouched(old(heap), heap, segments[j])
    {
      hide Kept, Owning, Untouched, Borrows;
      ghost var m := Snapshot();
      KeptIsOwning(m);
      DeleteAll(segments[i], m, i);
      segments := segments[..i] + segments[i + 1..];
      SegmentRemoved(m, i);
      forall j | 0 <= j < |segments| ensures Borrows(heap, codebook, rotation, segments[j]) {
        UntouchedIsSame(m.heap, heap, segments[j]);
        BorrowsAt(m, if j < i then j else j + 1);
      }
      assert Kept(Snapshot()) by { OwningBorrows(Snapshot()); }
    }

    method DeleteAll(s: Segment, ghost m: Memory, ghost i: nat)
      requires Owning(m) && i < |m.segments| && heap == m.heap && s == m.segments[i]
      modifies `heap
      ensures heap == m.heap - Pointers(s) && (old(Bounded()) ==> Bounded())
    {
      hide Owning, SegmentKept;
      SegmentFacts(m, i);
      DeletedAll(m.heap, s);
      hide Pointers;
      Delete(s.floats);
      Delete(s.index);
      Delete(s.source);
      Delete(s.store);
    }

    /** The destructor: afterwards nothing is left. */
    method Destroy()
      requires Valid()
      modifies `heap, `codebook, `rotation
      ensures heap == map[]
    {
      hide Owning, Untouched, Borrows, Pointers;
      ghost var m := Snapshot();
      KeptIsOwning(m);
      ResidentIsOwned(m);
      RotationSurvives(m);
      NoBuffers(heap);
      Delete(codebook);
      codebook := None;
      Delete(rotation);
      rotation := None;
      assert heap == m.heap + Buffers(None, None) - Resident(m);
      ExchangedResident(m, heap, None, None);
      assert segments[0..] == segments;
      for which := 0 to |segments|
        invariant segments == m.segments && Owning(Memory(heap, None, None, segments[which..]))
      {
        ghost var left := Memory(heap, None, None, segments[which..]);
        SegmentFacts(left, 0);
        SegmentRemoved(left, 0);
        assert left.segments[..0] + left.segments[1..] == segments[which + 1..];
        DeleteAll(segments[which], left, 0);
      }
      NothingOwned(Memory(heap, None, None, segments[|segments|..]));
    }

    /** append_segment(): the compressed store first, for it decides what else is resident. */
    method Append(mvpq: bool, file: Sidecar, tokens: nat, intact: bool, none: bool, global: bool)
      requires Valid()
      modifies `heap, `brk, `segments
      ensures Valid() && codebook == old(codebook) && rotation == old(rotation) && |segments| == |old(segments)| + 1
      ensures segments[..|old(segments)|] == old(segments)
      ensures forall j :: 0 <= j < |old(segments)| ==> Untouched(old(heap), heap, segments[j])
      ensures var s := segments[|old(segments)|];
              && (s.store.Some? <==> mvpq && file.tokens > 0) && (s.store.Some? ==> Encoded(heap, s))
              && (s.floats.None? <==> none && s.store.Some?)
              && s.source.Some? && SourceAttached(heap, s) && (!intact ==> Idle(heap, s.index))
      ensures var s := segments[|old(segments)|];
              && (s.store.Some? ==> s.store.value in heap && heap[s.store.value] == Loaded(file, codebook, rotation, global))
              && (s.floats.Some? ==> s.floats.value in heap && heap[s.floats.value] == FloatStore(tokens))
              && s.source.value in heap && s.index.Some? && s.index.value in heap
              && heap[s.source.value] == (if none && s.store.Some? then PqSource(s.store.value) else FloatSource(s.floats.value))
              && heap[s.index.value] == TokenIndex(s.source.value,
                   if !intact then 0 else if none && mvpq && file.tokens > 0 then file.tokens else tokens)
    {
      hide Kept, Owning, Untouched, SegmentKept, Borrows, SourceAttached, Elsewhere, Pointers, Loaded, Encoded, Idle;
      ghost var m := Snapshot();
      KeptIsOwning(m);
      ResidentOf(m);
      var s := AppendObjects(mvpq, file, tokens, intact, none, global);
      segments := segments + [s];
      BorrowsAppended(heap, s, file, codebook, rotation, global, if s.store.Some? then Some(heap[s.store.value]) else None);
      SegmentAppended(m, heap, s);
    }

    /** Its stores, then what reads them. */
    method AppendObjects(mvpq: bool, file: Sidecar, tokens: nat, intact: bool, none: bool, global: bool) returns (s: Segment)
      requires Bounded() && ResidentKept(Snapshot())
      modifies `heap, `brk
      ensures Bounded() && SegmentKept(heap, s) && SourceAttached(heap, s) && Elsewhere(old(heap), heap, {})
      ensures heap.Keys == old(heap).Keys + Pointers(s) && Pointers(s) !! old(heap).Keys
      ensures (s.store.Some? <==> mvpq && file.tokens > 0) && (s.floats.None? <==> none && s.store.Some?)
      ensures s.store.Some? ==> s.store.value in heap && heap[s.store.value] == Loaded(file, codebook, rotation, global)
      ensures s.floats.Some? ==> s.floats.value in heap && heap[s.floats.value] == FloatStore(tokens)
      ensures s.source.Some? && s.source.value in heap && s.index.Some? && s.index.value in heap
      ensures heap[s.source.value] == (if none && s.store.Some? then PqSource(s.store.value) else FloatSource(s.floats.value))
      ensures heap[s.index.value] == TokenIndex(s.source.value,
                if !intact then 0 else if none && mvpq && file.tokens > 0 then file.tokens else tokens)
      ensures !intact ==> Idle(heap, s.index)
    {
      hide SegmentKept, SourceAttached, Elsewhere, Pointers, Loaded, TierSource, Yields, Idle, ResidentKept;
      ghost var m := Snapshot();
      LoadedTokens(file, codebook, rotation, global);
      var store := LoadIntact(mvpq, file, global);
      var floats: Option<nat> := None;
      if !(none && store.Some?) {
        var p := New(FloatStore(tokens));
        floats := Some(p);
      }
      ghost var c := brk;
      ghost var loaded := if store.Some? then Some(Loaded(file, codebook, rotation, global)) else None;
      TierHasSource(store, floats, none);
      var source := NewSource(store, floats, none);
      var idx := New(TokenIndex(source.value, if intact then Yields(heap, heap[source.value]) else 0));
      AppendedHere(m, store, loaded, floats, tokens, c, idx, none, intact);
      s := Segment(store, floats, source, Some(idx));
    }

    /** A degraded .mvpq is not kept. */
    method LoadIntact(mvpq: bool, file: Sidecar, global: bool) returns (store: Option<nat>)
      requires Bounded() && ResidentKept(Snapshot())
      modifies `heap, `brk
      ensures Bounded() && brk >= old(brk) && (store.Some? <==> mvpq && file.tokens > 0)
      ensures store.Some? ==> store.value !in old(heap) && store.value < brk
      ensures heap == Put(old(heap), if store.Some? then store.value else 0,
                          if store.Some? then Some(Loaded(file, codebook, rotation, global)) else None)
    {
      LoadedTokens(file, codebook, rotation, global);
      hide Loaded;
      store := None;
      if mvpq {
        var p := Load(file, global);
        if heap[p].tokens > 0 {
          return Some(p);
        }
        Delete(Some(p));
        assert heap == old(heap);
      }
    }

    /** The merged codes, encoded from the merged floats against the resident codebook. */
    method RefreshCodes(i: nat, was: Segment, t: Training, file: Sidecar, opq: bool, global: bool, ghost m: Memory)
      returns (u: Segment, ghost base: Memory)
      requires Kept(m) && i < |m.segments| && Snapshot() == m.(heap := heap) && Midway(m, i, heap, was) && Bounded()
      requires forall p :: p in m.heap ==> p < brk
      modifies `heap, `brk, `codebook, `rotation
      ensures Bounded() && (forall p :: p in base.heap ==> p < brk) && Kept(base) && base.segments == segments && Midway(base, i, heap, u)
      ensures base.codebook == codebook && base.rotation == rotation
      ensures old(codebook).Some? ==> codebook == old(codebook) && rotation == old(rotation)
      ensures forall j :: 0 <= j < |segments| ==> Untouched(m.heap, base.heap, segments[j])
      ensures u == was.(store := u.store) && u.store.Some? && u.store.value in heap
      ensures heap[u.store.value] == Loaded(file, codebook, rotation, global)
      ensures forall p :: p in old(heap) && p !in Pointed(was.store) ==> p in heap && heap[p] == old(heap)[p]
    {
      hide Kept, Owning, Untouched, Midway, Loaded, Appeared, Around, ResidentKept, Points;
      MidwayResident(m, i, heap, was);
      if global {
        var failed := Ensure(t, opq);
      }
      MidwayEnsured(m, i, old(heap), Snapshot(), was, opq);
      base := Around(m, codebook, rotation);
      MidwayResident(base, i, heap, was);
      LoadedIsStore(file, codebook, rotation, global);
      MidwayStore(base, i, heap, was, brk, Some(Loaded(file, codebook, rotation, global)));
      ResidentSurvives(base, i, heap, was);
      Delete(was.store);
      var p := Load(file, global);
      u := was.(store := Some(p));
    }

    /** The merged floats, then the merged codes -- or none, with nothing to encode. */
    method RefreshStores(i: nat, tokens: nat, mvpq: bool, t: Training, file: Sidecar, opq: bool, global: bool)
      returns (u: Segment, ghost base: Memory)
      requires Valid() && i < |segments| && Idle(heap, segments[i].index)
      modifies `heap, `brk, `codebook, `rotation
      ensures Bounded() && (forall p :: p in base.heap ==> p < brk) && Kept(base) && base.segments == segments && Midway(base, i, heap, u)
      ensures base.codebook == codebook && base.rotation == rotation
      ensures old(codebook).Some? ==> codebook == old(codebook) && rotation == old(rotation)
      ensures forall j :: 0 <= j < |segments| ==> Untouched(old(heap), base.heap, segments[j])
      ensures u.source == segments[i].source && u.index == segments[i].index && Idle(heap, u.index)
      ensures u.floats.Some? && u.floats.value in heap && heap[u.floats.value] == FloatStore(tokens)
      ensures u.store.Some? <==> mvpq && tokens > 0
      ensures u.store.Some? ==> u.store.value in heap && heap[u.store.value] == Loaded(file, codebook, rotation, global)
    {
      hide Kept, Owning, Untouched, Midway, Loaded;
      ghost var m := Snapshot();
      KeptIsOwning(m);
      UntouchedItself(m);
      MidwayStarts(m, i);
      MidwayResident(m, i, heap, segments[i]);
      IndexIsApart(m, i);
      u, base := segments[i], m;
      MidwayFloats(m, i, heap, u, brk, Some(FloatStore(tokens)));
      Delete(u.floats);
      var f := New(FloatStore(tokens));
      u := u.(floats := Some(f));
      MidwayResident(m, i, heap, u);
      if mvpq && tokens > 0 {
        u, base := RefreshCodes(i, u, t, file, opq, global, m);
      } else {
        MidwayStore(m, i, heap, u, brk, None);
        Delete(u.store);
        u := u.(store := None);
      }
    }

    /** The old source goes; in the NONE tier the floats go with it. */
    method ReleaseSource(i: nat, was: Segment, none: bool, ghost base: Memory) returns (u: Segment)
      requires i < |base.segments| && Midway(base, i, heap, was) && Bounded() && brk !in base.heap && Kept(base)
      modifies `heap
      ensures Bounded() && brk !in heap && Midway(base, i, heap, u)
      ensures u == was.(source := None, floats := if none && was.store.Some? then None else was.floats)
      ensures forall p :: p in old(heap) && p !in Pointed(was.source) + Dropped(was, none) ==> p in heap && heap[p] == old(heap)[p]
    {
      hide Kept, Midway;
      KindsDiffer(base, i, heap, was);
      MidwayReleased(base, i, heap, was, none, brk);
      Delete(was.source);
      u := was.(source := None);
      if none && u.store.Some? {
        Delete(u.floats);
        u := u.(floats := None);
      }
    }

    /** The source over the final stores. */
    method RefreshSource(i: nat, was: Segment, none: bool, ghost base: Memory) returns (u: Segment)
      requires i < |base.segments| && Midway(base, i, heap, was) && Bounded() && forall p :: p in base.heap ==> p < brk
      requires was.floats.Some? && Kept(base)
      modifies `heap, `brk
      ensures Bounded() && (forall p :: p in base.heap ==> p < brk) && Midway(base, i, heap, u)
      ensures u.store == was.store && u.index == was.index && u.source.Some? && u.source.value in heap
      ensures if none && was.store.Some? then u.floats == None && heap[u.source.value] == PqSource(was.store.value)
              else u.floats == was.floats && heap[u.source.value] == FloatSource(was.floats.value)
      ensures forall p :: p in old(heap) && p !in Pointed(was.source) + Dropped(was, none) ==> p in heap && heap[p] == old(heap)[p]
    {
      hide Kept, Owning, Midway, ResidentKept, Points, Pointers, KindOf;
      u := ReleaseSource(i, was, none, base);
      TierIsSource(u.store, u.floats, none);
      MidwaySource(base, i, heap, u, brk, TierSource(u.store, u.floats, none));
      assert heap - Pointed(u.source) == heap;
      var source := NewSource(u.store, u.floats, none);
      u := u.(source := source);
    }

    /** The graph over the final source; without one the old, empty graph stays. */
    method RefreshGraph(i: nat, was: Segment, succeeds: bool, saves: bool, ghost base: Memory) returns (u: Segment)
      requires i < |base.segments| && Midway(base, i, heap, was) && Bounded() && forall p :: p in base.heap ==> p < brk
      requires was.source.Some? && SourceAttached(heap, was) && Idle(heap, was.index)
      modifies `heap, `brk
      ensures Bounded() && Midway(base, i, heap, u) && u == was.(index := u.index)
      ensures SegmentKept(heap, u) && SourceAttached(heap, u) && Yielding(heap, u) == Yielding(old(heap), was)
      ensures forall codebook, rotation :: Borrows(old(heap), codebook, rotation, was) ==> Borrows(heap, codebook, rotation, u)
      ensures Encoded(heap, u) <==> Encoded(old(heap), was)
      ensures succeeds && saves ==> (Idle(heap, u.index) ==> Yielding(heap, u) == 0)
      ensures OverPq(heap, u) <==> OverPq(old(heap), was)
      ensures var n := old(Yielding(heap, was));
              if n > 0 && succeeds && saves
              then u.index.Some? && u.index.value in heap && heap[u.index.value] == TokenIndex(was.source.value, n)
              else u == was && heap == old(heap)
      ensures forall p :: p in old(heap) && p !in Pointed(was.index) ==> p in heap && heap[p] == old(heap)[p]
    {
      IdleIsKept(base, i, heap, was);
      hide Midway, SegmentKept, Yields, Borrows, SourceAttached, OverPq, Encoded;
      u := was;
      var n := Yields(heap, heap[was.source.value]);
      if n > 0 && succeeds {
        var idx := New(TokenIndex(was.source.value, n));
        if !saves {
          Delete(Some(idx));
          assert heap == old(heap);
          return;
        }
        GraphMidway(base, i, old(heap), was, idx);
        Delete(was.index);
        u := was.(index := Some(idx));
      }
    }

    /**
     The compaction's output in this session: floats, codes, source and graph, in the one
     order in which each is built over what stays.
     */
    method RefreshOutput(i: nat, tokens: nat, mvpq: bool, t: Training, file: Sidecar, opq: bool, global: bool,
                         none: bool, succeeds: bool, saves: bool)
      requires Valid() && i < |segments| && Idle(heap, segments[i].index)
      modifies this
      ensures Valid() && |segments| == |old(segments)|
      ensures old(codebook).Some? ==> codebook == old(codebook) && rotation == old(rotation)
      ensures forall j :: 0 <= j < |segments| && j != i ==>
                segments[j] == old(segments)[j] && Untouched(old(heap), heap, segments[j])
      ensures SourceAttached(heap, segments[i]) && segments[i].source.Some?
      ensures segments[i].store.Some? <==> mvpq && tokens > 0
      ensures Encoded(heap, segments[i]) <==> mvpq && tokens > 0 && file.tokens > 0
      ensures OverPq(heap, segments[i]) <==> none && mvpq && tokens > 0
      ensures succeeds && saves && Idle(heap, segments[i].index) ==> Yielding(heap, segments[i]) == 0
      ensures var s := segments[i];
              && (s.store.Some? ==> s.store.value in heap && heap[s.store.value] == Loaded(file, codebook, rotation, global))
              && (s.floats.None? <==> none && mvpq && tokens > 0)
              && (s.floats.Some? ==> s.floats.value in heap && heap[s.floats.value] == FloatStore(tokens))
              && s.source.value in heap
              && heap[s.source.value] == (if none && mvpq && tokens > 0 then PqSource(s.store.value) else FloatSource(s.floats.value))
      ensures var s, n := segments[i], if none && mvpq && tokens > 0 then file.tokens else tokens;
              if n > 0 && succeeds && saves
              then s.index.Some? && s.index.value in heap && heap[s.index.value] == TokenIndex(s.source.value, n)
              else s.index == old(segments[i]).index
    {
      hide Kept, Owning, Untouched, Midway, Loaded, Borrows, SegmentKept, SourceAttached, OverPq, Encoded, Idle;
      ghost var m := Snapshot();
      LoadedTokens(file, codebook, rotation, global);
      ghost var base;
      var u;
      u, base := RefreshStores(i, tokens, mvpq, t, file, opq, global);
      LoadedTokens(file, codebook, rotation, global);
      ghost var stored, was := heap, u;
      u := RefreshSource(i, u, none, base);
      Refreshed(base, i, stored, heap, was, u, file, codebook, rotation, global, none);
      KindsDiffer(base, i, heap, u);
      u := RefreshGraph(i, u, succeeds, saves, base);
      segments := segments[i := u];
      MidwayEnds(base, i, heap, u);
      assert Snapshot() == With(base, heap, i, u);
      OthersUntouched(m, base, Snapshot(), i);
    }
  }

  /**
   A merged segment in the NONE tier whose .mvpq could not be written keeps a degraded
   store, and a source over it; the next build replaces that store under the source.
   */
  method DetachedSource() returns (side: SharedCodebook)
    ensures fresh(side) && side.Valid() && !Attached(side.Snapshot())
  {
    side := new SharedCodebook();
    var training := Training(true, true, true, true);
    side.Append(true, Sidecar(0, false), 5, false, true, false);
    side.RefreshOutput(0, 5, true, training, Sidecar(0, false), false, false, true, true, true);
    ghost var m := side.Snapshot();
    assert Attached(m);
    assert Builds(m, 0, Written(Sidecar(5, false))) && OverPq(m.heap, m.segments[0]);
    side.Build([training], [Written(Sidecar(5, false))], false, false);
  }
}
