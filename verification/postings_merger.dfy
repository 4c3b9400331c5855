/** merge_index()'s loop over one term's impact-ordered lists, cursor by cursor. */
module PostingsMerger {
  import opened PostingLists
  import opened PostingsMerge

  /**
   One engine's decompressed list.  `limit` is the number of postings stored: the trim
   point of a pruned index, or the document frequency.
   */
  datatype Input = Input(present: bool, raw: seq<int>, limit: nat, documents: nat)

  /** The list holds those groups: as many as it takes to reach the limit. */
  ghost predicate Holds(i: Input, s: Source) {
    && i.documents == s.documents
    && WellFormed(s.buckets, s.documents)
    && if i.present then
         && Encode(s.buckets) <= i.raw
         && i.limit <= Postings(s.buckets)
         && (forall k :: 0 <= k < |s.buckets| ==> Postings(s.buckets[..k]) < i.limit)
       else s.buckets == []
  }

  ghost predicate AllHold(inputs: seq<Input>, sources: seq<Source>) {
    |inputs| == |sources| && forall e :: 0 <= e < |inputs| ==> Holds(inputs[e], sources[e])
  }

  /** Any list an engine can have, whatever lies behind it, with the limit anywhere in its last group. */
  lemma ListsAreHeld(buckets: seq<Bucket>, documents: nat, rest: seq<int>, limit: nat)
    requires WellFormed(buckets, documents) && buckets != []
    requires Postings(buckets[..|buckets| - 1]) < limit <= Postings(buckets)
    ensures Holds(Input(true, Encode(buckets) + rest, limit, documents), Source(buckets, documents))
    ensures Holds(Input(false, rest, limit, documents), Source([], documents))
  {
    hide WellFormed, Postings;
    forall k | 0 <= k < |buckets| ensures Postings(buckets[..k]) < limit {
      PostingsGrow(buckets, k, |buckets| - 1);
    }
    NothingIsWellFormed(documents);
    hide Encode;
    assert Encode(buckets) <= Encode(buckets) + rest;
  }

  lemma NothingIsWellFormed(documents: nat)
    ensures WellFormed([], documents)
  {
  }

  /** How many of the groups have a frequency above tf. */
  function Above(buckets: seq<Bucket>, tf: nat): (k: nat)
    ensures k <= |buckets|
  {
    if buckets == [] then 0
    else if buckets[|buckets| - 1].tf > tf then |buckets| else Above(buckets[..|buckets| - 1], tf)
  }

  lemma {:induction false} AboveSplits(buckets: seq<Bucket>, documents: nat, tf: nat)
    requires WellFormed(buckets, documents)
    ensures var k := Above(buckets, tf);
            && (forall i :: 0 <= i < k ==> buckets[i].tf > tf)
            && (forall i :: k <= i < |buckets| ==> buckets[i].tf <= tf)
  {
    if buckets != [] {
      AboveSplits(buckets[..|buckets| - 1], documents, tf);
    }
  }

  lemma {:induction false} CutIsUnique(buckets: seq<Bucket>, tf: nat, k: nat)
    requires k <= |buckets|
    requires forall i :: 0 <= i < k ==> buckets[i].tf > tf
    requires forall i :: k <= i < |buckets| ==> buckets[i].tf <= tf
    ensures Above(buckets, tf) == k
  {
    if k < |buckets| {
      CutIsUnique(buckets[..|buckets| - 1], tf, k);
    }
  }

  lemma {:induction false} NoGroup(buckets: seq<Bucket>, tf: nat)
    requires forall i :: 0 <= i < |buckets| ==> buckets[i].tf != tf
    ensures DocidsAt(buckets, tf) == []
  {
    if buckets != [] {
      NoGroup(buckets[..|buckets| - 1], tf);
    }
  }

  /** The next group, if any, has frequency tf exactly when the list posts documents at tf. */
  lemma NextGroup(buckets: seq<Bucket>, documents: nat, tf: nat)
    requires WellFormed(buckets, documents) && tf > 0
    ensures var k := Above(buckets, tf);
            if k < |buckets| && buckets[k].tf == tf
            then DocidsAt(buckets, tf) == buckets[k].docids && Above(buckets, tf - 1) == k + 1
            else DocidsAt(buckets, tf) == [] && Above(buckets, tf - 1) == k
  {
    var k := Above(buckets, tf);
    AboveSplits(buckets, documents, tf);
    DocidsAtIs(buckets, documents, tf);
    if k < |buckets| && buckets[k].tf == tf {
      CutIsUnique(buckets, tf - 1, k + 1);
    } else {
      assert k < |buckets| ==> forall i :: k < i < |buckets| ==> buckets[i].tf < buckets[k].tf;
      CutIsUnique(buckets, tf - 1, k);
      NoGroup(buckets, tf);
    }
  }

  /** Where the cursor and its moving end stand once the groups above tf were copied. */
  ghost predicate Stands(i: Input, s: Source, tf: nat, at: nat, end: int) {
    i.present ==> var k := Above(s.buckets, tf);
      at == |Encode(s.buckets[..k])| && end == i.limit + 2 * k
  }

  /** The moving end is ahead of the cursor exactly while groups are left. */
  lemma MoreToRead(i: Input, s: Source, tf: nat, at: nat, end: int)
    requires Holds(i, s) && Stands(i, s, tf, at, end) && i.present
    ensures end > at <==> Above(s.buckets, tf) < |s.buckets|
  {
    var k := Above(s.buckets, tf);
    hide WellFormed, Encode, Postings;
    EncodedLength(s.buckets[..k]);
    if k == |s.buckets| {
      assert s.buckets[..k] == s.buckets;
    }
  }

  lemma PrefixSlice(raw: seq<int>, list: seq<int>, from: nat, to: nat)
    requires list <= raw && from <= to <= |list|
    ensures raw[from..to] == list[from..to]
  {
  }

  lemma BucketParts(b: Bucket)
    ensures |EncodeBucket(b)| == |b.docids| + 2 && EncodeBucket(b)[0] == b.tf
    ensures EncodeBucket(b)[1..] == Deltas(b.docids, 0) + [0]
  {
  }

  /** What the cursor sees where a group is left to read. */
  lemma MeetsGroup(i: Input, s: Source, tf: nat, at: nat, end: int)
    requires Holds(i, s) && Stands(i, s, tf, at, end) && i.present
    requires Above(s.buckets, tf) < |s.buckets|
    ensures var k := Above(s.buckets, tf);
            var n := |s.buckets[k].docids|;
            && at + n + 2 <= |i.raw| && i.raw[at] == s.buckets[k].tf
            && i.raw[at + 1..at + n + 2] == Deltas(s.buckets[k].docids, 0) + [0]
            && |Encode(s.buckets[..k + 1])| == at + n + 2
  {
    hide WellFormed, Encode, EncodeBucket, Postings;
    var k := Above(s.buckets, tf);
    var next := at + |s.buckets[k].docids| + 2;
    EncodedAt(s.buckets, k);
    PrefixSlice(i.raw, Encode(s.buckets), at, next);
    BucketParts(s.buckets[k]);
    assert i.raw[at] == i.raw[at..next][0];
    assert i.raw[at + 1..next] == i.raw[at..next][1..];
  }

  lemma FirstGap(docids: seq<nat>, offset: nat, last: nat)
    requires docids != []
    ensures Deltas(docids, 0)[0] == docids[0]
    ensures Shift(docids, offset)[..1] == [docids[0] + offset]
    ensures Deltas(Shift(docids, offset)[..1], last) == [docids[0] + offset - last]
  {
    DeltaAt(docids, 0, 0);
    assert Shift(docids, offset)[..1][..0] == [];
  }

  /** Only the first gap of an engine's share differs; the later ones are its own. */
  lemma NextGap(docids: seq<nat>, offset: nat, last: nat, n: nat)
    requires Ascending(docids) && docids != [] && docids[0] > 0 && 0 < n < |docids|
    ensures var shifted, gap := Shift(docids, offset), Deltas(docids, 0)[n];
            && gap > 0 && shifted[n] == shifted[n - 1] + gap
            && Deltas(shifted[..n + 1], last) == Deltas(shifted[..n], last) + [gap]
  {
    var shifted := Shift(docids, offset);
    DeltaAt(docids, 0, n);
    assert Last(docids[..n], 0) == docids[n - 1] < docids[n];
    hide Ascending, Shift;
    assert shifted[..n + 1][..n] == shifted[..n];
  }

  method Put(out: array<int>, at: nat, value: int)
    requires at < out.Length
    modifies out
    ensures out[..at + 1] == old(out[..at]) + [value]
  {
    out[at] := value;
  }

  /**
   One engine's share of a group: only its first docid is re-based, since the gaps
   between its own documents do not change.
   */
  method CopyGroup(raw: seq<int>, from: nat, ghost docids: seq<nat>, offset: nat, last: nat, out: array<int>, start: nat)
    returns (at: nat, previous: nat, current: nat)
    requires docids != [] && Ascending(docids) && docids[0] > 0
    requires from + |docids| < |raw| && raw[from..from + |docids| + 1] == Deltas(docids, 0) + [0]
    requires start + |docids| <= out.Length
    modifies out
    ensures at == from + |docids| + 1 && current == start + |docids|
    ensures previous == Last(Shift(docids, offset), last)
    ensures out[..current] == old(out[..start]) + Deltas(Shift(docids, offset), last)
  {
    hide Ascending, Deltas, Shift;
    ghost var shifted := Shift(docids, offset);
    FirstGap(docids, offset, last);
    GapAt(raw, from, docids, 0);
    GapAt(raw, from, docids, 1);
    Put(out, start, raw[from] + offset - last);
    previous := raw[from] + offset;
    at, current := from + 1, start + 1;
    ghost var n := 1;
    assert previous == shifted[..1][0];
    while raw[at] != 0
      invariant 1 <= n <= |docids| && at == from + n && current == start + n
      invariant raw[at] == if n < |docids| then Deltas(docids, 0)[n] else 0
      invariant previous == shifted[n - 1]
      invariant out[..current] == old(out[..start]) + Deltas(shifted[..n], last)
      decreases |docids| - n
    {
      NextGap(docids, offset, last, n);
      GapAt(raw, from, docids, n + 1);
      previous := previous + raw[at];
      Put(out, current, raw[at]);
      at, current, n := at + 1, current + 1, n + 1;
    }
    NoEarlyEnd(docids, n);
    assert shifted[..n] == shifted;
    at := at + 1;
  }

  lemma NoEarlyEnd(docids: seq<nat>, n: nat)
    requires Ascending(docids) && docids != [] && docids[0] > 0
    ensures n < |docids| ==> Deltas(docids, 0)[n] > 0
  {
    DeltasArePositive(docids, 0);
  }

  lemma GapAt(raw: seq<int>, from: nat, docids: seq<nat>, n: nat)
    requires from + |docids| < |raw| && raw[from..from + |docids| + 1] == Deltas(docids, 0) + [0]
    requires n <= |docids|
    ensures raw[from + n] == if n < |docids| then Deltas(docids, 0)[n] else 0
  {
    assert raw[from + n] == raw[from..from + |docids| + 1][n];
  }

  // ---------------------------------------------------------------- one frequency

  /** The engine has a group with frequency tf, and it is the next one. */
  predicate Has(s: Source, tf: nat) {
    var k := Above(s.buckets, tf);
    k < |s.buckets| && s.buckets[k].tf == tf
  }

  /** The cursor once the engine was asked whether it takes part at tf. */
  ghost predicate Asked(i: Input, s: Source, tf: nat, at: nat, end: int, takesPart: bool) {
    && takesPart == Has(s, tf)
    && (i.present ==>
          var k := Above(s.buckets, tf);
          && at == |Encode(s.buckets[..k])| + (if takesPart then 1 else 0)
          && end == i.limit + 2 * k + (if takesPart then 2 else 0))
  }

  lemma AskedNothing(i: Input, s: Source, tf: nat, at: nat, end: int)
    requires Holds(i, s) && tf > 0 && Asked(i, s, tf, at, end, false)
    ensures Stands(i, s, tf - 1, at, end) && DocidsAt(s.buckets, tf) == []
  {
    NextGroup(s.buckets, s.documents, tf);
  }

  lemma AskedGroup(i: Input, s: Source, tf: nat, at: nat, end: int)
    requires Holds(i, s) && tf > 0 && Asked(i, s, tf, at, end, true)
    ensures var docids := DocidsAt(s.buckets, tf);
            && i.present && docids != [] && Ascending(docids) && docids[0] > 0
            && at + |docids| < |i.raw| && i.raw[at..at + |docids| + 1] == Deltas(docids, 0) + [0]
            && Stands(i, s, tf - 1, at + |docids| + 1, end)
  {
    NextGroup(s.buckets, s.documents, tf);
    var k := Above(s.buckets, tf);
    assert s.buckets[k].docids != [] && Ascending(s.buckets[k].docids) && Between(s.buckets[k].docids, 0, s.documents);
    hide WellFormed, Encode, Deltas, Above, DocidsAt, Ascending;
    MeetsGroup(i, s, tf, at - 1, end - 2);
  }

  lemma Answer(i: Input, s: Source, tf: nat, at: nat, end: int)
    requires Holds(i, s) && Stands(i, s, tf, at, end)
    ensures i.present && end > at ==> at < |i.raw|
    ensures (i.present && end > at && i.raw[at] == tf) <==> Has(s, tf)
    ensures !Has(s, tf) ==> Asked(i, s, tf, at, end, false)
    ensures Has(s, tf) ==> Asked(i, s, tf, at + 1, end + 2, true)
  {
    hide WellFormed, Encode, EncodeBucket, Deltas, Postings, Above;
    if i.present {
      MoreToRead(i, s, tf, at, end);
      if Above(s.buckets, tf) < |s.buckets| {
        MeetsGroup(i, s, tf, at, end);
      }
    }
  }

  /** Ask every engine whether its next group has frequency tf. */
  method Ask(inputs: seq<Input>, ghost sources: seq<Source>, tf: nat, at: seq<nat>, ends: seq<int>)
    returns (cursors: seq<nat>, moved: seq<int>, shouldProcess: seq<bool>, processThis: bool)
    requires AllHold(inputs, sources) && |at| == |ends| == |inputs|
    requires forall e :: 0 <= e < |inputs| ==> Stands(inputs[e], sources[e], tf, at[e], ends[e])
    ensures |cursors| == |moved| == |shouldProcess| == |inputs|
    ensures forall e :: 0 <= e < |inputs| ==> Asked(inputs[e], sources[e], tf, cursors[e], moved[e], shouldProcess[e])
    ensures processThis <==> exists e :: 0 <= e < |inputs| && shouldProcess[e]
  {
    hide Holds, Stands, Asked, Has;
    cursors, moved, shouldProcess, processThis := at, ends, [], false;
    for engine := 0 to |inputs|
      invariant |cursors| == |moved| == |inputs| && |shouldProcess| == engine
      invariant forall e :: 0 <= e < engine ==> Asked(inputs[e], sources[e], tf, cursors[e], moved[e], shouldProcess[e])
      invariant forall e :: engine <= e < |inputs| ==> cursors[e] == at[e] && moved[e] == ends[e]
      invariant processThis <==> exists e :: 0 <= e < engine && shouldProcess[e]
    {
      Answer(inputs[engine], sources[engine], tf, at[engine], ends[engine]);
      var takesPart := inputs[engine].present && moved[engine] > cursors[engine] && inputs[engine].raw[cursors[engine]] == tf;
      if takesPart {
        moved := moved[engine := moved[engine] + 2];
        cursors := cursors[engine := cursors[engine] + 1];
        processThis := true;
      }
      shouldProcess := shouldProcess + [takesPart];
    }
  }

  lemma {:induction false} JoinedGrows(sources: seq<Source>, tf: nat, m: nat, n: nat)
    requires m <= n <= |sources|
    ensures JoinedAt(sources, tf, m) <= JoinedAt(sources, tf, n)
    decreases n
  {
    if m < n {
      JoinedGrows(sources, tf, m, n - 1);
    }
  }

  lemma JoinedNext(sources: seq<Source>, tf: nat, e: nat)
    requires e < |sources|
    ensures var so, mine := JoinedAt(sources, tf, e), Shift(DocidsAt(sources[e].buckets, tf), Offset(sources, e));
            && JoinedAt(sources, tf, e + 1) == so + mine
            && Deltas(so + mine, 0) == Deltas(so, 0) + Deltas(mine, Last(so, 0))
            && Last(so + mine, 0) == Last(mine, Last(so, 0))
            && (DocidsAt(sources[e].buckets, tf) == [] ==> so + mine == so)
    ensures Offset(sources, e + 1) == Offset(sources, e) + sources[e].documents
  {
    var so, mine := JoinedAt(sources, tf, e), Shift(DocidsAt(sources[e].buckets, tf), Offset(sources, e));
    DeltasSplit(so, mine, 0);
  }

  /** The group for one frequency, engine after engine. */
  method EmitGroup(inputs: seq<Input>, ghost sources: seq<Source>, tf: nat, at: seq<nat>, ghost ends: seq<int>,
                   shouldProcess: seq<bool>, out: array<int>, start: nat)
    returns (cursors: seq<nat>, current: nat)
    requires AllHold(inputs, sources) && |at| == |ends| == |shouldProcess| == |inputs| && tf > 0
    requires forall e :: 0 <= e < |inputs| ==> Asked(inputs[e], sources[e], tf, at[e], ends[e], shouldProcess[e])
    requires start + |JoinedAt(sources, tf, |sources|)| + 2 <= out.Length
    modifies out
    ensures |cursors| == |inputs|
    ensures forall e :: 0 <= e < |inputs| ==> Stands(inputs[e], sources[e], tf - 1, cursors[e], ends[e])
    ensures current == start + |JoinedAt(sources, tf, |sources|)| + 2
    ensures out[..current] == old(out[..start]) + EncodeBucket(Bucket(tf, JoinedAt(sources, tf, |sources|)))
  {
    hide Holds, Stands, Asked, Deltas, Shift, DocidsAt, Ascending, Last, JoinedAt, Offset;
    Put(out, start, tf);
    current := start + 1;
    cursors := at;
    var previous, offset: nat := 0, 0;
    EmptyJoin(sources, tf);
    for engine := 0 to |inputs|
      invariant |cursors| == |inputs|
      invariant forall e :: 0 <= e < engine ==> Stands(inputs[e], sources[e], tf - 1, cursors[e], ends[e])
      invariant forall e :: engine <= e < |inputs| ==> cursors[e] == at[e]
      invariant offset == Offset(sources, engine) && previous == Last(JoinedAt(sources, tf, engine), 0)
      invariant current == start + 1 + |JoinedAt(sources, tf, engine)| && current < out.Length
      invariant out[..current] == old(out[..start]) + [tf] + Deltas(JoinedAt(sources, tf, engine), 0)
    {
      JoinedNext(sources, tf, engine);
      JoinedGrows(sources, tf, engine + 1, |sources|);
      SameDocuments(inputs, sources, engine);
      if shouldProcess[engine] {
        AskedGroup(inputs[engine], sources[engine], tf, at[engine], ends[engine]);
        ghost var docids := DocidsAt(sources[engine].buckets, tf);
        ShiftLength(docids, offset);
        var next;
        next, previous, current := CopyGroup(inputs[engine].raw, cursors[engine], docids, offset, previous, out, current);
        cursors := cursors[engine := next];
      } else {
        AskedNothing(inputs[engine], sources[engine], tf, at[engine], ends[engine]);
      }
      offset := offset + inputs[engine].documents;
    }
    Put(out, current, 0);
    current := current + 1;
  }

  lemma EmptyJoin(sources: seq<Source>, tf: nat)
    ensures JoinedAt(sources, tf, 0) == [] && Deltas([], 0) == [] && Last([], 0) == 0 && Offset(sources, 0) == 0
  {
  }

  lemma SameDocuments(inputs: seq<Input>, sources: seq<Source>, e: nat)
    requires AllHold(inputs, sources) && e < |inputs|
    ensures inputs[e].documents == sources[e].documents && Holds(inputs[e], sources[e])
  {
  }

  lemma ShiftLength(docids: seq<nat>, offset: nat)
    ensures |Shift(docids, offset)| == |docids|
  {
  }

  // ------------------------------------------------------------------ the whole term

  lemma {:induction false} NoneJoined(inputs: seq<Input>, sources: seq<Source>, tf: nat, cursors: seq<nat>, ends: seq<int>,
                                      shouldProcess: seq<bool>, n: nat)
    requires AllHold(inputs, sources) && |cursors| == |ends| == |shouldProcess| == |inputs| && tf > 0 && n <= |inputs|
    requires forall e :: 0 <= e < |inputs| ==> Asked(inputs[e], sources[e], tf, cursors[e], ends[e], shouldProcess[e])
    requires forall e :: 0 <= e < |inputs| ==> !shouldProcess[e]
    ensures JoinedAt(sources, tf, n) == []
  {
    hide Holds, Asked, DocidsAt;
    if n > 0 {
      NoneJoined(inputs, sources, tf, cursors, ends, shouldProcess, n - 1);
      SameDocuments(inputs, sources, n - 1);
      AskedNothing(inputs[n - 1], sources[n - 1], tf, cursors[n - 1], ends[n - 1]);
    }
  }

  lemma {:induction false} SomeJoined(inputs: seq<Input>, sources: seq<Source>, tf: nat, cursors: seq<nat>, ends: seq<int>,
                                      shouldProcess: seq<bool>, e: nat)
    requires AllHold(inputs, sources) && |cursors| == |ends| == |shouldProcess| == |inputs| && tf > 0 && e < |inputs|
    requires Asked(inputs[e], sources[e], tf, cursors[e], ends[e], shouldProcess[e]) && shouldProcess[e]
    ensures JoinedAt(sources, tf, |sources|) != []
  {
    hide Holds, Asked, DocidsAt, Deltas;
    SameDocuments(inputs, sources, e);
    AskedGroup(inputs[e], sources[e], tf, cursors[e], ends[e]);
    ShiftLength(DocidsAt(sources[e].buckets, tf), Offset(sources, e));
    JoinedGrows(sources, tf, e + 1, |sources|);
  }

  lemma StartsAtTop(i: Input, s: Source)
    requires Holds(i, s)
    ensures Stands(i, s, MAX_TF, 0, i.limit)
  {
    CutIsUnique(s.buckets, MAX_TF, 0);
  }

  /** The list so far and one more frequency. */
  lemma EncodeNext(sources: seq<Source>, tf: nat)
    requires Sound(sources) && 1 <= tf <= MAX_TF
    ensures var so, docids := Encode(MergedDown(sources, tf + 1)), JoinedAt(sources, tf, |sources|);
            && Encode(MergedDown(sources, tf)) == (if docids == [] then so else so + EncodeBucket(Bucket(tf, docids)))
            && (docids != [] ==> |so| + |docids| + 2 <= 510 + Offset(sources, |sources|))
  {
    var so, docids := MergedDown(sources, tf + 1), JoinedAt(sources, tf, |sources|);
    MergedDownIs(sources, tf);
    FitsBuffer(MergedDown(sources, tf), Offset(sources, |sources|));
    hide EncodeBucket, JoinedAt, WellFormed;
    if docids == [] {
      assert MergedDown(sources, tf) == so;
    } else {
      var b := Bucket(tf, docids);
      assert MergedDown(sources, tf) == so + [b];
      EncodeSplits(so, [b]);
      assert [b][..0] == [];
      assert Encode([b]) == EncodeBucket(b);
      BucketParts(b);
    }
  }

  lemma HoldIsSound(inputs: seq<Input>, sources: seq<Source>)
    requires AllHold(inputs, sources)
    ensures Sound(sources)
  {
    hide WellFormed;
    forall e | 0 <= e < |sources| ensures WellFormed(sources[e].buckets, sources[e].documents) {
      assert Holds(inputs[e], sources[e]);
    }
  }

  ghost predicate AllStand(inputs: seq<Input>, sources: seq<Source>, tf: nat, at: seq<nat>, ends: seq<int>)
    requires |inputs| == |sources|
  {
    |at| == |ends| == |inputs| && forall e :: 0 <= e < |inputs| ==> Stands(inputs[e], sources[e], tf, at[e], ends[e])
  }

  /** One frequency of the countdown: a group when some engine has it, nothing otherwise. */
  method MergeFrequency(inputs: seq<Input>, ghost sources: seq<Source>, tf: nat, at: seq<nat>, ends: seq<int>,
                        out: array<int>, start: nat)
    returns (cursors: seq<nat>, moved: seq<int>, length: nat)
    requires AllHold(inputs, sources) && AllStand(inputs, sources, tf, at, ends) && 1 <= tf <= MAX_TF
    requires start + (if JoinedAt(sources, tf, |sources|) == [] then 0 else |JoinedAt(sources, tf, |sources|)| + 2) <= out.Length
    modifies out
    ensures AllStand(inputs, sources, tf - 1, cursors, moved)
    ensures length <= out.Length
    ensures var docids := JoinedAt(sources, tf, |sources|);
            out[..length] == old(out[..start]) + if docids == [] then [] else EncodeBucket(Bucket(tf, docids))
  {
    hide Holds, Stands, Asked, EncodeBucket, JoinedAt;
    var shouldProcess, processThis;
    cursors, moved, shouldProcess, processThis := Ask(inputs, sources, tf, at, ends);
    length := start;
    if processThis {
      ghost var e :| 0 <= e < |inputs| && shouldProcess[e];
      SomeJoined(inputs, sources, tf, cursors, moved, shouldProcess, e);
      cursors, length := EmitGroup(inputs, sources, tf, cursors, moved, shouldProcess, out, length);
    } else {
      NoneJoined(inputs, sources, tf, cursors, moved, shouldProcess, |inputs|);
      forall e | 0 <= e < |inputs| ensures Stands(inputs[e], sources[e], tf - 1, cursors[e], moved[e]) {
        SameDocuments(inputs, sources, e);
        AskedNothing(inputs[e], sources[e], tf, cursors[e], moved[e]);
      }
    }
  }

  lemma AllStart(inputs: seq<Input>, sources: seq<Source>, at: seq<nat>, ends: seq<int>)
    requires AllHold(inputs, sources) && |at| == |ends| == |inputs|
    requires forall e :: 0 <= e < |inputs| ==> at[e] == 0 && ends[e] == inputs[e].limit
    ensures AllStand(inputs, sources, MAX_TF, at, ends)
  {
    hide Holds, Stands;
    forall e | 0 <= e < |inputs| ensures Stands(inputs[e], sources[e], MAX_TF, at[e], ends[e]) {
      SameDocuments(inputs, sources, e);
      StartsAtTop(inputs[e], sources[e]);
    }
  }

  /**
   Merging a term: a buffer of 510 integers and one for each document is never overrun,
   and what it then holds is the encoding of the merged list.
   */
  method MergeTerm(inputs: seq<Input>, ghost sources: seq<Source>, out: array<int>) returns (length: nat)
    requires AllHold(inputs, sources)
    requires out.Length == 510 + Offset(sources, |sources|)
    modifies out
    ensures length <= out.Length && out[..length] == Encode(Merged(sources))
  {
    hide AllHold, AllStand, EncodeBucket, JoinedAt, Sound, Offset, Encode;
    HoldIsSound(inputs, sources);
    SameLength(inputs, sources);
    var at: seq<nat> := seq(|inputs|, i => 0);
    var ends: seq<int> := seq(|inputs|, i requires 0 <= i < |inputs| => inputs[i].limit);
    AllStart(inputs, sources, at, ends);
    EncodeNothing(sources);
    length := 0;
    for tf := MAX_TF + 1 downto 1
      invariant AllStand(inputs, sources, tf - 1, at, ends)
      invariant length <= out.Length && out[..length] == Encode(MergedDown(sources, tf))
    {
      EncodeNext(sources, tf);
      at, ends, length := MergeFrequency(inputs, sources, tf, at, ends, out, length);
    }
  }

  lemma SameLength(inputs: seq<Input>, sources: seq<Source>)
    requires AllHold(inputs, sources)
    ensures |inputs| == |sources|
  {
  }

  lemma EncodeNothing(sources: seq<Source>)
    ensures Encode(MergedDown(sources, MAX_TF + 1)) == []
  {
  }
}
