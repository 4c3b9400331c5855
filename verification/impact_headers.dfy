/**
 The other encoding of a posting list: a header of three sections -- frequencies,
 document counts, positions -- over the bare gaps; and the merge loop that writes it.
 */
module ImpactHeaders {
  import opened PostingLists
  import opened PostingsMerge
  import opened PostingsMerger

  const NUM_OF_QUANTUMS := 0x10000

  /** The gaps of all groups, one after the other. */
  function Flat(buckets: seq<Bucket>): seq<int> {
    if buckets == [] then []
    else Flat(buckets[..|buckets| - 1]) + Deltas(buckets[|buckets| - 1].docids, 0)
  }

  /** The header's sections, however far apart they lie. */
  datatype Header = Header(values: seq<int>, counts: seq<int>, offsets: seq<int>)

  ghost predicate Describes(h: Header, postings: seq<int>, q: nat, b: Bucket) {
    && q < |h.values| && q < |h.counts| && q < |h.offsets|
    && h.values[q] == b.tf && h.counts[q] == |b.docids|
    && 0 <= h.offsets[q] && h.offsets[q] + |b.docids| <= |postings|
    && postings[h.offsets[q]..h.offsets[q] + |b.docids|] == Deltas(b.docids, 0)
  }

  ghost predicate DescribesAll(h: Header, postings: seq<int>, buckets: seq<Bucket>) {
    && |h.values| == |h.counts| == |h.offsets| == |buckets|
    && forall q :: 0 <= q < |buckets| ==> Describes(h, postings, q, buckets[q])
  }

  /** Every position and count stays inside the postings. */
  ghost predicate InBounds(h: Header, postings: seq<int>) {
    && |h.values| == |h.counts| == |h.offsets|
    && forall q :: 0 <= q < |h.offsets| ==> 0 <= h.offsets[q] <= h.offsets[q] + h.counts[q] <= |postings|
  }

  /** Reading a list back through its header. */
  ghost function DecodeHeader(h: Header, postings: seq<int>, q: nat): (r: seq<Decoded>)
    requires InBounds(h, postings) && q <= |h.values|
    decreases |h.values| - q
  {
    if q == |h.values| then []
    else
      [Decoded(h.values[q], Summed(postings[h.offsets[q]..h.offsets[q] + h.counts[q]], 0))] + DecodeHeader(h, postings, q + 1)
  }

  lemma DescribedInBounds(h: Header, postings: seq<int>, buckets: seq<Bucket>)
    requires DescribesAll(h, postings, buckets)
    ensures InBounds(h, postings)
  {
    forall q | 0 <= q < |h.offsets| ensures 0 <= h.offsets[q] <= h.offsets[q] + h.counts[q] <= |postings| {
      assert Describes(h, postings, q, buckets[q]);
    }
  }

  lemma {:induction false} DecodeDescribed(h: Header, postings: seq<int>, buckets: seq<Bucket>, q: nat)
    requires DescribesAll(h, postings, buckets) && q <= |buckets| && InBounds(h, postings)
    ensures DecodeHeader(h, postings, q) == Plain(buckets[q..])
    decreases |buckets| - q
  {
    hide Deltas, Summed, Plain;
    if q < |buckets| {
      assert Describes(h, postings, q, buckets[q]);
      DecodeDescribed(h, postings, buckets, q + 1);
      SummedDeltas(buckets[q].docids, 0);
    }
    PlainFrom(buckets, q);
  }

  lemma PlainFrom(buckets: seq<Bucket>, q: nat)
    requires q <= |buckets|
    ensures Plain(buckets[q..]) == if q == |buckets| then []
                                   else [Decoded(buckets[q].tf, buckets[q].docids)] + Plain(buckets[q + 1..])
  {
  }

  /** Both encodings of a well-formed list read back as the same list. */
  lemma EncodingsAgree(h: Header, postings: seq<int>, buckets: seq<Bucket>, documents: nat)
    requires WellFormed(buckets, documents) && DescribesAll(h, postings, buckets)
    ensures InBounds(h, postings)
    ensures DecodeHeader(h, postings, 0) == Decode(Encode(buckets), 0) == Plain(buckets)
  {
    DescribedInBounds(h, postings, buckets);
    DecodeDescribed(h, postings, buckets, 0);
    DecodeEncode(buckets, documents, 0);
    assert buckets[..0] == [] && buckets[0..] == buckets;
  }

  // ------------------------------------------------- making the sections contiguous

  /** Move `used` integers down in place, lowest first; the rest stays as it was. */
  method MoveDown(header: array<int>, to: nat, from: nat, used: nat)
    requires to <= from && from + used <= header.Length
    modifies header
    ensures header[to..to + used] == old(header[from..from + used])
    ensures header[..to] == old(header[..to])
    ensures to + used <= from ==> header[to + used..] == old(header[to + used..])
    ensures header[from + used..] == old(header[from + used..])
  {
    for quantum := 0 to used
      invariant header[..to] == old(header[..to])
      invariant header[to..to + quantum] == old(header[from..from + quantum])
      invariant header[from + quantum..] == old(header[from + quantum..])
      invariant to + used <= from ==> header[to + used..] == old(header[to + used..])
    {
      assert header[from + quantum..][0] == old(header[from + quantum..])[0];
      header[to + quantum] := header[from + quantum];
      assert header[to..to + quantum + 1] == header[to..to + quantum] + [header[to + quantum]];
    }
  }

  function Sections(header: seq<int>, stride: nat, used: nat): Header
    requires used <= stride && 3 * stride <= |header|
  {
    Header(header[..used], header[stride..stride + used], header[2 * stride..2 * stride + used])
  }

  lemma SliceOfSlice(s: seq<int>, a: nat, b: nat, c: nat, d: nat)
    requires a <= b <= |s| && c <= d <= b - a
    ensures s[a..b][c..d] == s[a + c..a + d]
  {
    var x, y := s[a..b][c..d], s[a + c..a + d];
    forall i | 0 <= i < |x| ensures x[i] == y[i] {
      assert x[i] == s[a..b][c + i] == s[a + (c + i)];
    }
  }

  lemma ClosedUp(was: seq<int>, middle: seq<int>, now: seq<int>, used: nat, stride: nat)
    requires |was| == |middle| == |now| == 3 * stride && used <= stride
    requires middle[..used] == was[..used] && middle[used..used + used] == was[stride..stride + used]
    requires middle[stride + used..] == was[stride + used..]
    requires now[..2 * used] == middle[..2 * used]
    requires now[2 * used..2 * used + used] == middle[2 * stride..2 * stride + used]
    ensures Sections(now[..3 * used], used, used) == Sections(was, stride, used)
  {
    var two, three := 2 * used, 3 * used;
    SubSlice(now, middle, 0, two, 0, used);
    SubSlice(now, middle, 0, two, used, two);
    SliceOfSlice(now, 0, three, 0, used);
    SliceOfSlice(now, 0, three, used, two);
    SliceOfSlice(now, 0, three, two, three);
    SubSlice(middle, was, stride + used, 3 * stride, stride - used, stride);
  }

  /** Two lists that agree on a stretch agree inside it. */
  lemma SubSlice(s: seq<int>, t: seq<int>, a: nat, b: nat, c: nat, d: nat)
    requires a <= b <= |s| && b <= |t| && c <= d <= b - a && s[a..b] == t[a..b]
    ensures s[a + c..a + d] == t[a + c..a + d]
  {
    SliceOfSlice(s, a, b, c, d);
    SliceOfSlice(t, a, b, c, d);
  }

  /**
   The sections, NUM_OF_QUANTUMS apart while a list is merged, are moved up against each
   other in place.  Nothing still needed is overwritten, even where a section is moved
   over its own beginning.
   */
  method CloseUp(header: array<int>, used: nat, stride: nat)
    requires header.Length == 3 * stride && used <= stride
    modifies header
    ensures Sections(header[..3 * used], used, used) == old(Sections(header[..], stride, used))
  {
    ghost var was := header[..];
    MoveDown(header, used, stride, used);
    ghost var middle := header[..];
    assert header[stride + used..] == middle[stride + used..] && old(header[stride + used..]) == was[stride + used..];
    MoveDown(header, 2 * used, 2 * stride, used);
    ghost var now := header[..];
    assert header[..3 * used] == now[..3 * used] && header[..2 * used] == now[..2 * used];
    ClosedUp(was, middle, now, used, stride);
  }

  // ------------------------------------------------------------------ merging

  /** One engine's header and postings, when it has the term. */
  datatype HeaderInput = HeaderInput(present: bool, header: Header, postings: seq<int>, documents: nat)

  ghost predicate HoldsHeader(i: HeaderInput, s: Source) {
    && i.documents == s.documents
    && WellFormed(s.buckets, s.documents)
    && if i.present then DescribesAll(i.header, i.postings, s.buckets) else s.buckets == []
  }

  ghost predicate AllHoldHeaders(inputs: seq<HeaderInput>, sources: seq<Source>) {
    |inputs| == |sources| && forall e :: 0 <= e < |inputs| ==> HoldsHeader(inputs[e], sources[e])
  }

  /** Every engine has consumed its groups above tf. */
  ghost predicate AllConsumed(sources: seq<Source>, tf: nat, processed: seq<nat>) {
    |processed| == |sources| && forall e :: 0 <= e < |sources| ==> processed[e] == Above(sources[e].buckets, tf)
  }

  lemma HeaderAnswer(i: HeaderInput, s: Source, tf: nat)
    requires HoldsHeader(i, s) && tf > 0
    ensures var k := Above(s.buckets, tf);
            && (i.present ==> |i.header.values| == |i.header.counts| == |i.header.offsets| == |s.buckets|)
            && ((i.present && k < |i.header.values| && i.header.values[k] == tf) <==> Has(s, tf))
            && Above(s.buckets, tf - 1) == k + (if Has(s, tf) then 1 else 0)
            && (!Has(s, tf) ==> DocidsAt(s.buckets, tf) == [])
  {
    NextGroup(s.buckets, s.documents, tf);
    var k := Above(s.buckets, tf);
    if i.present && k < |s.buckets| {
      assert Describes(i.header, i.postings, k, s.buckets[k]);
    }
  }

  lemma HeaderGroup(i: HeaderInput, s: Source, tf: nat)
    requires HoldsHeader(i, s) && tf > 0 && Has(s, tf)
    ensures var k, docids := Above(s.buckets, tf), DocidsAt(s.buckets, tf);
            && i.present && docids != [] && Ascending(docids) && docids[0] > 0
            && k < |i.header.counts| && k < |i.header.offsets| && i.header.counts[k] == |docids|
            && 0 <= i.header.offsets[k] && i.header.offsets[k] + |docids| <= |i.postings|
            && i.postings[i.header.offsets[k]..i.header.offsets[k] + |docids|] == Deltas(docids, 0)
  {
    NextGroup(s.buckets, s.documents, tf);
    var k := Above(s.buckets, tf);
    assert Describes(i.header, i.postings, k, s.buckets[k]);
    assert s.buckets[k].docids != [] && Ascending(s.buckets[k].docids) && Between(s.buckets[k].docids, 0, s.documents);
  }

  /** A decompressed run of gaps, of which only the first is re-based. */
  method CopyQuantum(chunk: seq<int>, ghost docids: seq<nat>, offset: nat, last: nat, out: array<int>, start: nat)
    returns (previous: nat, current: nat)
    requires docids != [] && Ascending(docids) && docids[0] > 0 && chunk == Deltas(docids, 0)
    requires start + |docids| <= out.Length
    modifies out
    ensures current == start + |docids| && previous == Last(Shift(docids, offset), last)
    ensures out[..current] == old(out[..start]) + Deltas(Shift(docids, offset), last)
  {
    hide Ascending, Deltas, Shift;
    ghost var shifted := Shift(docids, offset);
    FirstGap(docids, offset, last);
    ChunkLength(docids);
    Put(out, start, chunk[0] + offset - last);
    previous := chunk[0] + offset;
    current := start + 1;
    assert previous == shifted[..1][0];
    for document := 1 to |chunk|
      invariant current == start + document && previous == shifted[document - 1]
      invariant out[..current] == old(out[..start]) + Deltas(shifted[..document], last)
    {
      NextGap(docids, offset, last, document);
      previous := previous + chunk[document];
      Put(out, current, chunk[document]);
      current := current + 1;
    }
    assert shifted[..|chunk|] == shifted;
  }

  lemma ChunkLength(docids: seq<nat>)
    ensures |Deltas(docids, 0)| == |docids|
  {
  }

  /** Ask every engine whether its next group has frequency tf. */
  method AskHeaders(inputs: seq<HeaderInput>, ghost sources: seq<Source>, tf: nat, processed: seq<nat>)
    returns (shouldProcess: seq<bool>, processThis: bool)
    requires AllHoldHeaders(inputs, sources) && AllConsumed(sources, tf, processed) && tf > 0
    ensures |shouldProcess| == |inputs|
    ensures forall e :: 0 <= e < |inputs| ==> shouldProcess[e] == Has(sources[e], tf)
    ensures processThis <==> exists e :: 0 <= e < |inputs| && shouldProcess[e]
  {
    hide HoldsHeader, Has, Above;
    shouldProcess, processThis := [], false;
    for engine := 0 to |inputs|
      invariant |shouldProcess| == engine
      invariant forall e :: 0 <= e < engine ==> shouldProcess[e] == Has(sources[e], tf)
      invariant processThis <==> exists e :: 0 <= e < engine && shouldProcess[e]
    {
      var i := inputs[engine];
      assert HoldsHeader(i, sources[engine]);
      HeaderAnswer(i, sources[engine], tf);
      var takesPart := i.present && processed[engine] < |i.header.values| && i.header.values[processed[engine]] == tf;
      processThis := processThis || takesPart;
      shouldProcess := shouldProcess + [takesPart];
    }
  }

  /** The group for one frequency: its gaps to `out`, its size to the header's slot. */
  method EmitQuantum(inputs: seq<HeaderInput>, ghost sources: seq<Source>, tf: nat, processed: seq<nat>,
                     shouldProcess: seq<bool>, out: array<int>, start: nat, header: array<int>, slot: nat)
    returns (consumed: seq<nat>, current: nat)
    requires AllHoldHeaders(inputs, sources) && AllConsumed(sources, tf, processed) && tf > 0
    requires |shouldProcess| == |inputs| && forall e :: 0 <= e < |inputs| ==> shouldProcess[e] == Has(sources[e], tf)
    requires start + |JoinedAt(sources, tf, |sources|)| <= out.Length && slot < header.Length && out != header
    modifies out, header
    ensures AllConsumed(sources, tf - 1, consumed)
    ensures current == start + |JoinedAt(sources, tf, |sources|)|
    ensures out[..current] == old(out[..start]) + Deltas(JoinedAt(sources, tf, |sources|), 0)
    ensures header[..] == old(header[..])[slot := old(header[slot]) + |JoinedAt(sources, tf, |sources|)|]
  {
    hide HoldsHeader, Deltas, Shift, DocidsAt, Ascending, Last, JoinedAt, Offset, Has, Above;
    current, consumed := start, processed;
    var previous, offset: nat := 0, 0;
    EmptyJoin(sources, tf);
    for engine := 0 to |inputs|
      invariant |consumed| == |inputs|
      invariant forall e :: 0 <= e < engine ==> consumed[e] == Above(sources[e].buckets, tf - 1)
      invariant forall e :: engine <= e < |inputs| ==> consumed[e] == processed[e]
      invariant offset == Offset(sources, engine) && previous == Last(JoinedAt(sources, tf, engine), 0)
      invariant current == start + |JoinedAt(sources, tf, engine)| <= out.Length
      invariant out[..current] == old(out[..start]) + Deltas(JoinedAt(sources, tf, engine), 0)
      invariant header[..] == old(header[..])[slot := old(header[slot]) + |JoinedAt(sources, tf, engine)|]
    {
      JoinedNext(sources, tf, engine);
      JoinedGrows(sources, tf, engine + 1, |sources|);
      assert HoldsHeader(inputs[engine], sources[engine]);
      HeaderAnswer(inputs[engine], sources[engine], tf);
      SameSize(inputs[engine], sources[engine]);
      if shouldProcess[engine] {
        HeaderGroup(inputs[engine], sources[engine], tf);
        ghost var docids := DocidsAt(sources[engine].buckets, tf);
        ShiftLength(docids, offset);
        var quantum := consumed[engine];
        var number := inputs[engine].header.counts[quantum];
        var from := inputs[engine].header.offsets[quantum];
        header[slot] := header[slot] + number;
        previous, current := CopyQuantum(inputs[engine].postings[from..from + number], docids, offset, previous, out, current);
        consumed := consumed[engine := quantum + 1];
      }
      offset := offset + inputs[engine].documents;
    }
  }

  lemma SameSize(i: HeaderInput, s: Source)
    requires HoldsHeader(i, s)
    ensures i.documents == s.documents
  {
  }

  // ------------------------------------------------------------ the header so far

  lemma DescribesLonger(h: Header, postings: seq<int>, more: seq<int>, q: nat, b: Bucket)
    requires Describes(h, postings, q, b)
    ensures Describes(h, postings + more, q, b)
  {
    var from, to := h.offsets[q], h.offsets[q] + |b.docids|;
    assert (postings + more)[from..to] == postings[from..to];
  }

  function Extended(h: Header, tf: nat, count: nat, offset: nat): Header {
    Header(h.values + [tf], h.counts + [count], h.offsets + [offset])
  }

  /** One more group: its gaps at the end of the postings, one more entry in each section. */
  lemma DescribesNext(h: Header, postings: seq<int>, buckets: seq<Bucket>, b: Bucket)
    requires DescribesAll(h, postings, buckets)
    ensures DescribesAll(Extended(h, b.tf, |b.docids|, |postings|), postings + Deltas(b.docids, 0), buckets + [b])
  {
    var h', all, gaps := Extended(h, b.tf, |b.docids|, |postings|), buckets + [b], Deltas(b.docids, 0);
    forall q | 0 <= q < |all| ensures Describes(h', postings + gaps, q, all[q]) {
      if q < |buckets| {
        DescribesLonger(h, postings, gaps, q, buckets[q]);
      } else {
        assert (postings + gaps)[|postings|..|postings| + |gaps|] == gaps;
      }
    }
  }

  /** The header array as the merge leaves it after `used` groups: the rest still zero. */
  ghost predicate Blank(header: seq<int>, stride: nat, used: nat) {
    |header| == 3 * stride && forall q :: stride + used <= q < 2 * stride ==> header[q] == 0
  }

  lemma SectionsNext(was: seq<int>, stride: nat, used: nat, tf: nat, count: nat, offset: nat)
    requires used < stride && Blank(was, stride, used)
    ensures var now := was[used := tf][stride + used := count][2 * stride + used := offset];
            && Sections(now, stride, used + 1) == Extended(Sections(was, stride, used), tf, count, offset)
            && Blank(now, stride, used + 1)
  {
    var now := was[used := tf][stride + used := count][2 * stride + used := offset];
    assert now[..used + 1] == was[..used] + [tf];
    assert now[stride..stride + used + 1] == was[stride..stride + used] + [count];
    assert now[2 * stride..2 * stride + used + 1] == was[2 * stride..2 * stride + used] + [offset];
  }

  /** What one frequency adds: nothing, or a group. */
  lemma MergedNext(sources: seq<Source>, tf: nat)
    requires Sound(sources) && 1 <= tf <= MAX_TF
    ensures var so, docids := MergedDown(sources, tf + 1), JoinedAt(sources, tf, |sources|);
            && MergedDown(sources, tf) == (if docids == [] then so else so + [Bucket(tf, docids)])
            && |MergedDown(sources, tf)| <= MAX_TF
            && |so| < NUM_OF_QUANTUMS
            && |Encode(MergedDown(sources, tf))| <= 510 + Offset(sources, |sources|)
  {
    hide JoinedAt;
    MergedDownIs(sources, tf);
    FewBuckets(MergedDown(sources, tf), Offset(sources, |sources|));
    FitsBuffer(MergedDown(sources, tf), Offset(sources, |sources|));
  }

  lemma {:induction false} FlatIsShorter(buckets: seq<Bucket>)
    ensures |Flat(buckets)| <= |Encode(buckets)|
  {
    if buckets != [] {
      FlatIsShorter(buckets[..|buckets| - 1]);
    }
  }

  lemma FlatNext(so: seq<Bucket>, b: Bucket)
    ensures Flat(so + [b]) == Flat(so) + Deltas(b.docids, 0)
    ensures |Flat(so + [b])| == |Flat(so)| + |b.docids|
  {
    assert (so + [b])[..|so|] == so;
  }

  lemma NoneHave(sources: seq<Source>, inputs: seq<HeaderInput>, tf: nat, processed: seq<nat>, n: nat)
    requires AllHoldHeaders(inputs, sources) && AllConsumed(sources, tf, processed) && tf > 0 && n <= |sources|
    requires forall e :: 0 <= e < |sources| ==> !Has(sources[e], tf)
    ensures JoinedAt(sources, tf, n) == [] && AllConsumed(sources, tf - 1, processed)
  {
    hide HoldsHeader, DocidsAt, Has, Above;
    forall e | 0 <= e < |sources|
      ensures DocidsAt(sources[e].buckets, tf) == [] && Above(sources[e].buckets, tf - 1) == Above(sources[e].buckets, tf)
    {
      assert HoldsHeader(inputs[e], sources[e]);
      HeaderAnswer(inputs[e], sources[e], tf);
    }
    NothingJoined(sources, tf, n);
  }

  lemma {:induction false} NothingJoined(sources: seq<Source>, tf: nat, n: nat)
    requires n <= |sources| && forall e :: 0 <= e < |sources| ==> DocidsAt(sources[e].buckets, tf) == []
    ensures JoinedAt(sources, tf, n) == []
  {
    if n > 0 {
      NothingJoined(sources, tf, n - 1);
    }
  }

  lemma OneHas(sources: seq<Source>, inputs: seq<HeaderInput>, tf: nat, e: nat)
    requires AllHoldHeaders(inputs, sources) && tf > 0 && e < |sources| && Has(sources[e], tf)
    ensures JoinedAt(sources, tf, |sources|) != []
  {
    hide HoldsHeader, DocidsAt, Has, Deltas;
    assert HoldsHeader(inputs[e], sources[e]);
    HeaderGroup(inputs[e], sources[e], tf);
    ShiftLength(DocidsAt(sources[e].buckets, tf), Offset(sources, e));
    JoinedGrows(sources, tf, e + 1, |sources|);
  }

  /** The state of the merge between two frequencies. */
  ghost predicate Progress(sources: seq<Source>, tf: nat, header: seq<int>, used: nat, postings: seq<int>) {
    var so := MergedDown(sources, tf);
    && used == |so| && used <= NUM_OF_QUANTUMS && Blank(header, NUM_OF_QUANTUMS, used)
    && postings == Flat(so)
    && DescribesAll(Sections(header, NUM_OF_QUANTUMS, used), postings, so)
  }

  lemma ProgressNext(sources: seq<Source>, tf: nat, header: seq<int>, used: nat, postings: seq<int>)
    requires Sound(sources) && 1 <= tf <= MAX_TF && Progress(sources, tf + 1, header, used, postings)
    ensures var docids := JoinedAt(sources, tf, |sources|);
            && used < NUM_OF_QUANTUMS && 2 * NUM_OF_QUANTUMS + used < |header| && header[NUM_OF_QUANTUMS + used] == 0
            && (docids == [] ==> Progress(sources, tf, header, used, postings))
            && (docids != [] ==>
                  && |postings| + |docids| <= 510 + Offset(sources, |sources|)
                  && Progress(sources, tf,
                              header[used := tf][NUM_OF_QUANTUMS + used := |docids|][2 * NUM_OF_QUANTUMS + used := |postings|],
                              used + 1, postings + Deltas(docids, 0)))
  {
    hide Sound, JoinedAt, MergedDown, Describes, DescribesAll, Encode, Flat, Deltas, Sections, Extended;
    var so, docids := MergedDown(sources, tf + 1), JoinedAt(sources, tf, |sources|);
    MergedNext(sources, tf);
    if docids != [] {
      var b := Bucket(tf, docids);
      FlatNext(so, b);
      FlatIsShorter(so + [b]);
      SectionsNext(header, NUM_OF_QUANTUMS, used, tf, |docids|, |postings|);
      DescribesNext(Sections(header, NUM_OF_QUANTUMS, used), postings, so, b);
    }
  }

  lemma ThreeUpdates(was: seq<int>, middle: seq<int>, used: nat, tf: int, count: int, offset: int)
    requires 2 * NUM_OF_QUANTUMS + used < |was| && used < NUM_OF_QUANTUMS && was[NUM_OF_QUANTUMS + used] == 0
    requires middle == was[used := tf][NUM_OF_QUANTUMS + used := was[used := tf][NUM_OF_QUANTUMS + used] + count]
    ensures middle[2 * NUM_OF_QUANTUMS + used := offset]
         == was[used := tf][NUM_OF_QUANTUMS + used := count][2 * NUM_OF_QUANTUMS + used := offset]
  {
  }

  /** One frequency of the countdown. */
  method MergeQuantum(inputs: seq<HeaderInput>, ghost sources: seq<Source>, tf: nat, processed: seq<nat>,
                      out: array<int>, start: nat, header: array<int>, used: nat)
    returns (consumed: seq<nat>, current: nat, quantums: nat)
    requires AllHoldHeaders(inputs, sources) && Sound(sources) && AllConsumed(sources, tf, processed) && 1 <= tf <= MAX_TF
    requires out.Length == 510 + Offset(sources, |sources|) && out != header && start <= out.Length
    requires Progress(sources, tf + 1, header[..], used, out[..start])
    modifies out, header
    ensures AllConsumed(sources, tf - 1, consumed) && current <= out.Length
    ensures Progress(sources, tf, header[..], quantums, out[..current])
  {
    hide HoldsHeader, Has, JoinedAt, Deltas, Sound, Progress, AllConsumed, Offset;
    ProgressNext(sources, tf, header[..], used, out[..start]);
    var shouldProcess, processThis := AskHeaders(inputs, sources, tf, processed);
    consumed, current, quantums := processed, start, used;
    if processThis {
      ghost var e :| 0 <= e < |inputs| && shouldProcess[e];
      OneHas(sources, inputs, tf, e);
      ghost var was := header[..];
      header[used] := tf;
      assert header[..] == was[used := tf];
      consumed, current := EmitQuantum(inputs, sources, tf, processed, shouldProcess, out, start, header, NUM_OF_QUANTUMS + used);
      ghost var middle := header[..];
      ThreeUpdates(was, middle, used, tf, |JoinedAt(sources, tf, |sources|)|, start);
      header[2 * NUM_OF_QUANTUMS + used] := start;
      assert header[..] == middle[2 * NUM_OF_QUANTUMS + used := start];
      quantums := used + 1;
    } else {
      NoneHave(sources, inputs, tf, processed, |sources|);
    }
  }

  lemma ProgressStarts(sources: seq<Source>, header: seq<int>)
    requires |header| == 3 * NUM_OF_QUANTUMS && forall i :: 0 <= i < |header| ==> header[i] == 0
    ensures Progress(sources, MAX_TF + 1, header, 0, [])
  {
  }

  lemma ConsumedStarts(inputs: seq<HeaderInput>, sources: seq<Source>, processed: seq<nat>)
    requires AllHoldHeaders(inputs, sources) && |processed| == |sources|
    requires forall e :: 0 <= e < |processed| ==> processed[e] == 0
    ensures AllConsumed(sources, MAX_TF, processed) && Sound(sources)
  {
    forall e | 0 <= e < |sources| ensures Above(sources[e].buckets, MAX_TF) == 0 && WellFormed(sources[e].buckets, sources[e].documents) {
      assert HoldsHeader(inputs[e], sources[e]);
      CutIsUnique(sources[e].buckets, MAX_TF, 0);
    }
  }

  lemma ProgressEnds(sources: seq<Source>, header: seq<int>, used: nat, postings: seq<int>)
    requires Progress(sources, 1, header, used, postings)
    ensures used == |Merged(sources)| && used <= NUM_OF_QUANTUMS && |header| == 3 * NUM_OF_QUANTUMS
    ensures DescribesAll(Sections(header, NUM_OF_QUANTUMS, used), postings, Merged(sources))
  {
  }

  /**
   Merging a term under impact headers: in the same buffer, and with the header's
   sections closed up, the result describes the same merged list.
   */
  method MergeHeaders(inputs: seq<HeaderInput>, ghost sources: seq<Source>, out: array<int>, header: array<int>)
    returns (length: nat, quantums: nat)
    requires AllHoldHeaders(inputs, sources)
    requires out.Length == 510 + Offset(sources, |sources|) && header.Length == 3 * NUM_OF_QUANTUMS && out != header
    modifies out, header
    ensures length <= out.Length && quantums == |Merged(sources)| <= NUM_OF_QUANTUMS
    ensures DescribesAll(Sections(header[..3 * quantums], quantums, quantums), out[..length], Merged(sources))
    ensures var values, counts, offsets :=
              header[..quantums], header[quantums..2 * quantums], header[2 * quantums..3 * quantums];
            forall q :: 0 <= q < quantums ==>
              && values[q] == Merged(sources)[q].tf && counts[q] == |Merged(sources)[q].docids|
              && 0 <= offsets[q] <= offsets[q] + counts[q] <= length
              && out[offsets[q]..offsets[q] + counts[q]] == Deltas(Merged(sources)[q].docids, 0)
  {
    hide HoldsHeader, Progress, AllConsumed, Sound, DescribesAll, Merged, Offset, Sections;
    for i := 0 to header.Length
      invariant forall j :: 0 <= j < i ==> header[j] == 0
    {
      header[i] := 0;
    }
    var processed: seq<nat> := seq(|inputs|, i => 0);
    ConsumedStarts(inputs, sources, processed);
    ProgressStarts(sources, header[..]);
    length, quantums := 0, 0;
    assert out[..0] == [];
    for tf := MAX_TF + 1 downto 1
      invariant AllConsumed(sources, tf - 1, processed) && length <= out.Length
      invariant Progress(sources, tf, header[..], quantums, out[..length])
    {
      processed, length, quantums := MergeQuantum(inputs, sources, tf, processed, out, length, header, quantums);
    }
    ProgressEnds(sources, header[..], quantums, out[..length]);
    ghost var postings := out[..length];
    CloseUp(header, quantums, NUM_OF_QUANTUMS);
    assert out[..length] == postings;
    HeaderPlaces(header[..], out[..length], Merged(sources), quantums);
  }

  /** The first section holds the frequencies, the second the counts, the third the positions. */
  lemma HeaderPlaces(header: seq<int>, postings: seq<int>, buckets: seq<Bucket>, n: nat)
    requires |header| >= 3 * n && DescribesAll(Sections(header[..3 * n], n, n), postings, buckets)
    ensures |buckets| == n
    ensures var values, counts, offsets := header[..n], header[n..2 * n], header[2 * n..3 * n];
            forall q :: 0 <= q < n ==>
              && values[q] == buckets[q].tf && counts[q] == |buckets[q].docids|
              && 0 <= offsets[q] <= offsets[q] + counts[q] <= |postings|
              && postings[offsets[q]..offsets[q] + counts[q]] == Deltas(buckets[q].docids, 0)
  {
    var h := Sections(header[..3 * n], n, n);
    assert h.values == header[..n] && h.counts == header[n..2 * n] && h.offsets == header[2 * n..3 * n];
    forall q | 0 <= q < n ensures Describes(h, postings, q, buckets[q]) {
    }
  }

  /** Decoding what either merge loop wrote gives the same list: the merged one. */
  lemma BothMergesAgree(sources: seq<Source>, header: seq<int>, postings: seq<int>, raw: seq<int>)
    requires Sound(sources) && 3 * |Merged(sources)| <= |header|
    requires raw == Encode(Merged(sources))
    requires DescribesAll(Sections(header, |Merged(sources)|, |Merged(sources)|), postings, Merged(sources))
    ensures InBounds(Sections(header, |Merged(sources)|, |Merged(sources)|), postings)
    ensures DecodeHeader(Sections(header, |Merged(sources)|, |Merged(sources)|), postings, 0) == Decode(raw, 0)
    ensures Decode(raw, 0) == Plain(Merged(sources))
  {
    MergedIsWellFormed(sources);
    EncodingsAgree(Sections(header, |Merged(sources)|, |Merged(sources)|), postings, Merged(sources), Offset(sources, |sources|));
  }
}
