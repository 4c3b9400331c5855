/**
 Merging one term's posting lists from several engines: what the merged list is, that
 it is again a well-formed list, and that the merge buffer holds it.
 */
module PostingsMerge {
  import opened Sequences
  import opened PostingLists

  /** One engine's list for the term ([] when it does not have the term), and its size. */
  datatype Source = Source(buckets: seq<Bucket>, documents: nat)

  ghost predicate Sound(sources: seq<Source>) {
    forall e :: 0 <= e < |sources| ==> WellFormed(sources[e].buckets, sources[e].documents)
  }

  /** The documents of the engines before e, by which engine e's docids are shifted. */
  function Offset(sources: seq<Source>, e: nat): (r: nat)
    requires e <= |sources|
  {
    if e == 0 then 0 else Offset(sources, e - 1) + sources[e - 1].documents
  }

  /** The engines' documents follow one another without a gap: each docid up to their sum is some engine's. */
  lemma {:induction false} OffsetsPartition(sources: seq<Source>, n: nat, d: nat) returns (e: nat)
    requires n <= |sources| && 1 <= d <= Offset(sources, n)
    ensures e < n && Offset(sources, e) < d <= Offset(sources, e) + sources[e].documents
    decreases n
  {
    if d > Offset(sources, n - 1) {
      e := n - 1;
    } else {
      e := OffsetsPartition(sources, n - 1, d);
    }
  }

  function DocidsAt(buckets: seq<Bucket>, tf: nat): (r: seq<nat>) {
    if buckets == [] then []
    else if buckets[|buckets| - 1].tf == tf then buckets[|buckets| - 1].docids
    else DocidsAt(buckets[..|buckets| - 1], tf)
  }

  function Shift(docids: seq<nat>, offset: nat): (r: seq<nat>)
    ensures |r| == |docids| && forall i :: 0 <= i < |r| ==> r[i] == docids[i] + offset
  {
    seq(|docids|, i requires 0 <= i < |docids| => docids[i] + offset)
  }

  /** The documents of the first n engines in which the term occurs tf times. */
  function JoinedAt(sources: seq<Source>, tf: nat, n: nat): (r: seq<nat>)
    requires n <= |sources|
  {
    if n == 0 then []
    else JoinedAt(sources, tf, n - 1) + Shift(DocidsAt(sources[n - 1].buckets, tf), Offset(sources, n - 1))
  }

  function BucketAt(sources: seq<Source>, tf: nat): (r: seq<Bucket>) {
    var docids := JoinedAt(sources, tf, |sources|);
    if docids == [] then [] else [Bucket(tf, docids)]
  }

  /** The merged groups for the frequencies from MAX_TF down to tf. */
  function MergedDown(sources: seq<Source>, tf: nat): (r: seq<Bucket>)
    decreases MAX_TF + 1 - tf
  {
    if tf > MAX_TF then [] else MergedDown(sources, tf + 1) + BucketAt(sources, tf)
  }

  function Merged(sources: seq<Source>): seq<Bucket> {
    MergedDown(sources, 1)
  }

  /** Document d has frequency tf. */
  ghost predicate Posts(buckets: seq<Bucket>, d: nat, tf: nat) {
    exists i :: 0 <= i < |buckets| && buckets[i].tf == tf && d in buckets[i].docids
  }

  // -------------------------------------------------------------- one frequency

  lemma {:induction false} DocidsAtIs(buckets: seq<Bucket>, documents: nat, tf: nat)
    requires WellFormed(buckets, documents)
    ensures Ascending(DocidsAt(buckets, tf)) && Between(DocidsAt(buckets, tf), 0, documents)
    ensures forall d :: d in DocidsAt(buckets, tf) <==> Posts(buckets, d, tf)
    ensures forall i :: 0 <= i < |buckets| && buckets[i].tf == tf ==> DocidsAt(buckets, tf) == buckets[i].docids
    ensures DocidsAt(buckets, tf) != [] ==> 1 <= tf <= MAX_TF
  {
    if buckets != [] {
      var n := |buckets| - 1;
      ShorterIsWellFormed(buckets, documents);
      DocidsAtIs(buckets[..n], documents, tf);
      forall d ensures Posts(buckets, d, tf) <==> Posts(buckets[..n], d, tf) || (buckets[n].tf == tf && d in buckets[n].docids) {
        PostsShorter(buckets, d, tf);
      }
      hide Posts;
      if buckets[n].tf == tf {
        PostedBefore(buckets, documents, tf);
      }
      hide WellFormed;
    }
  }

  lemma ShorterIsWellFormed(buckets: seq<Bucket>, documents: nat)
    requires WellFormed(buckets, documents) && buckets != []
    ensures var n := |buckets| - 1;
            && WellFormed(buckets[..n], documents) && 1 <= buckets[n].tf <= MAX_TF
            && Ascending(buckets[n].docids) && Between(buckets[n].docids, 0, documents)
  {
  }

  /** Earlier groups have higher frequencies. */
  lemma PostedBefore(buckets: seq<Bucket>, documents: nat, tf: nat)
    requires WellFormed(buckets, documents) && buckets != [] && buckets[|buckets| - 1].tf == tf
    ensures var so := buckets[..|buckets| - 1];
            && (forall i :: 0 <= i < |so| ==> so[i].tf != tf) && forall d :: !Posts(so, d, tf)
  {
  }

  lemma PostsShorter(buckets: seq<Bucket>, d: nat, tf: nat)
    requires buckets != []
    ensures var n := |buckets| - 1;
            Posts(buckets, d, tf) <==> Posts(buckets[..n], d, tf) || (buckets[n].tf == tf && d in buckets[n].docids)
  {
    var n := |buckets| - 1;
    if Posts(buckets[..n], d, tf) {
      var i :| 0 <= i < n && buckets[..n][i].tf == tf && d in buckets[..n][i].docids;
      assert buckets[i].tf == tf && d in buckets[i].docids;
    }
    if Posts(buckets, d, tf) && !(buckets[n].tf == tf && d in buckets[n].docids) {
      var i :| 0 <= i < |buckets| && buckets[i].tf == tf && d in buckets[i].docids;
      assert buckets[..n][i].tf == tf && d in buckets[..n][i].docids;
    }
  }

  /** Engine e posts the document that becomes d. */
  ghost predicate Contributes(sources: seq<Source>, e: nat, d: nat, tf: nat)
    requires e < |sources|
  {
    d > Offset(sources, e) && Posts(sources[e].buckets, d - Offset(sources, e), tf)
  }

  lemma ShiftedHas(docids: seq<nat>, offset: nat, d: nat)
    ensures d in Shift(docids, offset) <==> d >= offset && d - offset in docids
  {
    if d >= offset && d - offset in docids {
      var i :| 0 <= i < |docids| && docids[i] == d - offset;
      assert Shift(docids, offset)[i] == d;
    }
  }

  lemma ShiftedRange(docids: seq<nat>, offset: nat, documents: nat)
    requires Ascending(docids) && Between(docids, 0, documents)
    ensures Ascending(Shift(docids, offset)) && Between(Shift(docids, offset), offset, offset + documents)
  {
  }

  lemma AscendingJoin(a: seq<nat>, b: seq<nat>, low: nat, middle: nat, high: nat)
    requires Ascending(a) && Ascending(b) && Between(a, low, middle) && Between(b, middle, high) && low <= middle <= high
    ensures Ascending(a + b) && Between(a + b, low, high)
  {
  }

  /** Each engine's documents land in a range of their own. */
  lemma {:induction false} JoinedAscends(sources: seq<Source>, tf: nat, n: nat)
    requires Sound(sources) && n <= |sources|
    ensures Ascending(JoinedAt(sources, tf, n)) && Between(JoinedAt(sources, tf, n), 0, Offset(sources, n))
  {
    if n > 0 {
      var src, o := sources[n - 1], Offset(sources, n - 1);
      assert WellFormed(src.buckets, src.documents);
      hide Ascending, Between, Posts, Shift, DocidsAt, WellFormed, Sound;
      JoinedAscends(sources, tf, n - 1);
      DocidsAtIs(src.buckets, src.documents, tf);
      ShiftedRange(DocidsAt(src.buckets, tf), o, src.documents);
      AscendingJoin(JoinedAt(sources, tf, n - 1), Shift(DocidsAt(src.buckets, tf), o), 0, o, o + src.documents);
    }
  }

  lemma {:induction false} JoinedHas(sources: seq<Source>, tf: nat, n: nat, d: nat)
    requires Sound(sources) && n <= |sources|
    ensures d in JoinedAt(sources, tf, n) <==> exists e :: 0 <= e < n && Contributes(sources, e, d, tf)
  {
    if n > 0 {
      JoinedHas(sources, tf, n - 1, d);
      ShiftedHas(DocidsAt(sources[n - 1].buckets, tf), Offset(sources, n - 1), d);
      ContributesIs(sources, n - 1, d, tf);
      hide Shift, DocidsAt, Contributes, Sound;
    }
  }

  lemma ContributesIs(sources: seq<Source>, e: nat, d: nat, tf: nat)
    requires Sound(sources) && e < |sources|
    ensures Contributes(sources, e, d, tf) <==>
              d >= Offset(sources, e) && d - Offset(sources, e) in DocidsAt(sources[e].buckets, tf)
    ensures Contributes(sources, e, d, tf) ==>
              Offset(sources, e) < d <= Offset(sources, e) + sources[e].documents && 1 <= tf <= MAX_TF
  {
    DocidsAtIs(sources[e].buckets, sources[e].documents, tf);
  }

  lemma {:induction false} OffsetGrows(sources: seq<Source>, a: nat, b: nat)
    requires a <= b <= |sources|
    ensures Offset(sources, a) <= Offset(sources, b)
    ensures a < b ==> Offset(sources, a) + sources[a].documents <= Offset(sources, b)
    decreases b
  {
    if a < b {
      OffsetGrows(sources, a, b - 1);
    }
  }

  lemma OneEngine(sources: seq<Source>, e: nat, f: nat, d: nat, s: nat, t: nat)
    requires Sound(sources) && e < |sources| && f < |sources|
    requires Contributes(sources, e, d, s) && Contributes(sources, f, d, t)
    ensures e == f && s == t
  {
    ContributesIs(sources, e, d, s);
    ContributesIs(sources, f, d, t);
    if e < f {
      OffsetGrows(sources, e, f);
    } else if f < e {
      OffsetGrows(sources, f, e);
    } else {
      PostedOnce(sources[e], d - Offset(sources, e), s, t);
    }
  }

  /** Different engines' documents keep different docids. */
  lemma OffsetsAreApart(sources: seq<Source>, e: nat, f: nat, d: nat)
    requires e < |sources| && f < |sources|
    requires Offset(sources, e) < d <= Offset(sources, e) + sources[e].documents
    requires Offset(sources, f) < d <= Offset(sources, f) + sources[f].documents
    ensures e == f
  {
    if e < f {
      OffsetGrows(sources, e, f);
    } else if f < e {
      OffsetGrows(sources, f, e);
    }
  }

  /** A merged docid belongs to one engine, so it has one frequency. */
  lemma OneFrequency(sources: seq<Source>, s: nat, t: nat, d: nat)
    requires Sound(sources)
    requires d in JoinedAt(sources, s, |sources|) && d in JoinedAt(sources, t, |sources|)
    ensures s == t
  {
    hide Sound, Contributes, JoinedAt;
    JoinedHas(sources, s, |sources|, d);
    JoinedHas(sources, t, |sources|, d);
    var e :| 0 <= e < |sources| && Contributes(sources, e, d, s);
    var f :| 0 <= f < |sources| && Contributes(sources, f, d, t);
    OneEngine(sources, e, f, d, s, t);
  }

  lemma PostedOnce(src: Source, d: nat, s: nat, t: nat)
    requires WellFormed(src.buckets, src.documents) && Posts(src.buckets, d, s) && Posts(src.buckets, d, t)
    ensures s == t
  {
  }

  // ------------------------------------------------------------ the merged list

  /** The groups from tf up: well formed, each the join for its frequency, none missing. */
  ghost predicate Groups(sources: seq<Source>, tf: nat, r: seq<Bucket>) {
    && WellFormed(r, Offset(sources, |sources|))
    && (forall i :: 0 <= i < |r| ==> r[i].tf >= tf && r[i].docids == JoinedAt(sources, r[i].tf, |sources|))
    && (forall t: nat :: tf <= t <= MAX_TF && JoinedAt(sources, t, |sources|) != [] ==> HasGroup(r, t))
  }

  ghost predicate HasGroup(r: seq<Bucket>, tf: nat) {
    exists i :: 0 <= i < |r| && r[i].tf == tf
  }

  lemma {:induction false} MergedDownIs(sources: seq<Source>, tf: nat)
    requires Sound(sources) && tf >= 1
    ensures Groups(sources, tf, MergedDown(sources, tf))
    decreases MAX_TF + 1 - tf
  {
    hide Groups, Sound, BucketAt, WellFormed, JoinedAt;
    if tf <= MAX_TF {
      MergedDownIs(sources, tf + 1);
      AnotherGroup(sources, tf, MergedDown(sources, tf + 1));
      assert MergedDown(sources, tf) == MergedDown(sources, tf + 1) + BucketAt(sources, tf);
    } else {
      NoGroups(sources, tf);
      assert MergedDown(sources, tf) == [];
    }
  }

  lemma NoGroups(sources: seq<Source>, tf: nat)
    requires tf > MAX_TF
    ensures Groups(sources, tf, [])
  {
  }

  lemma AnotherGroup(sources: seq<Source>, tf: nat, so: seq<Bucket>)
    requires Sound(sources) && 1 <= tf <= MAX_TF && Groups(sources, tf + 1, so)
    ensures Groups(sources, tf, so + BucketAt(sources, tf))
  {
    var r := so + BucketAt(sources, tf);
    assert forall i :: 0 <= i < |so| ==> r[i] == so[i];
    hide Sound, JoinedAt, Between, Ascending, WellFormed;
    JoinedAscends(sources, tf, |sources|);
    forall i, d | 0 <= i < |so| && d in so[i].docids ensures d !in JoinedAt(sources, tf, |sources|) {
      if d in JoinedAt(sources, tf, |sources|) { OneFrequency(sources, so[i].tf, tf, d); }
    }
    AddsLowest(so, Offset(sources, |sources|), BucketAt(sources, tf), tf);
    forall t: nat | tf <= t <= MAX_TF && JoinedAt(sources, t, |sources|) != [] ensures HasGroup(r, t) {
      if t == tf {
        assert r[|so|].tf == tf;
      } else {
        assert HasGroup(so, t);
        var i :| 0 <= i < |so| && so[i].tf == t;
        assert r[i].tf == t;
      }
    }
  }

  lemma AddsLowest(so: seq<Bucket>, documents: nat, more: seq<Bucket>, tf: nat)
    requires WellFormed(so, documents) && |more| <= 1
    requires forall i :: 0 <= i < |so| ==> so[i].tf > tf
    requires more != [] ==> more[0].tf == tf && 1 <= tf <= MAX_TF && more[0].docids != []
    requires more != [] ==> Ascending(more[0].docids) && Between(more[0].docids, 0, documents)
    requires more != [] ==> forall i, d :: 0 <= i < |so| && d in so[i].docids ==> d !in more[0].docids
    ensures WellFormed(so + more, documents)
  {
  }

  /** The merge is closed: its output is a well-formed list of the combined collection. */
  lemma MergedIsWellFormed(sources: seq<Source>)
    requires Sound(sources)
    ensures WellFormed(Merged(sources), Offset(sources, |sources|))
  {
    MergedDownIs(sources, 1);
  }

  /** ... and it posts exactly what the engines post, docids shifted, frequencies kept. */
  lemma MergedPosts(sources: seq<Source>, d: nat, tf: nat)
    requires Sound(sources)
    ensures Posts(Merged(sources), d, tf) <==> exists e :: 0 <= e < |sources| && Contributes(sources, e, d, tf)
  {
    var r := Merged(sources);
    MergedDownIs(sources, 1);
    JoinedHas(sources, tf, |sources|, d);
    forall e | 0 <= e < |sources| && Contributes(sources, e, d, tf) ensures 1 <= tf <= MAX_TF {
      ContributesIs(sources, e, d, tf);
    }
    hide Sound, WellFormed, Contributes, JoinedAt, MergedDown;
    if d in JoinedAt(sources, tf, |sources|) {
      assert HasGroup(r, tf);
      var i :| 0 <= i < |r| && r[i].tf == tf;
      assert d in r[i].docids;
    }
  }

  // ------------------------------------------------------------------ the buffer

  function AllDocids(buckets: seq<Bucket>): (r: set<nat>) {
    set i, d | 0 <= i < |buckets| && d in buckets[i].docids :: d
  }

  function UpTo(n: nat): (r: set<nat>)
    ensures |r| == n && forall d :: d in r <==> 0 < d <= n
  {
    if n == 0 then {} else UpTo(n - 1) + {n}
  }

  lemma AscendingIsDistinct(docids: seq<nat>)
    requires Ascending(docids)
    ensures Distinct(docids)
  {
  }

  lemma AllDocidsNext(buckets: seq<Bucket>, documents: nat)
    requires WellFormed(buckets, documents) && buckets != []
    ensures var n := |buckets| - 1;
            && AllDocids(buckets) == AllDocids(buckets[..n]) + Elements(buckets[n].docids)
            && AllDocids(buckets[..n]) !! Elements(buckets[n].docids)
            && WellFormed(buckets[..n], documents) && Ascending(buckets[n].docids)
  {
    var n := |buckets| - 1;
    forall d | d in AllDocids(buckets) ensures d in AllDocids(buckets[..n]) + Elements(buckets[n].docids) {
      var i :| 0 <= i < |buckets| && d in buckets[i].docids;
      if i < n { assert buckets[..n][i] == buckets[i]; }
    }
    forall d | d in AllDocids(buckets[..n]) ensures d in AllDocids(buckets) && d !in Elements(buckets[n].docids) {
      var i :| 0 <= i < n && d in buckets[..n][i].docids;
      assert d in buckets[i].docids;
    }
  }

  lemma {:induction false} PostingsAreDocuments(buckets: seq<Bucket>, documents: nat)
    requires WellFormed(buckets, documents)
    ensures Postings(buckets) == |AllDocids(buckets)|
  {
    if buckets == [] {
      assert AllDocids(buckets) == {};
    } else {
      var n := |buckets| - 1;
      AllDocidsNext(buckets, documents);
      hide WellFormed, Ascending, AllDocids, Elements;
      PostingsAreDocuments(buckets[..n], documents);
      AscendingIsDistinct(buckets[n].docids);
      DistinctCounts(buckets[n].docids);
    }
  }

  lemma {:induction false} FewBuckets(buckets: seq<Bucket>, documents: nat)
    requires WellFormed(buckets, documents)
    ensures |buckets| <= MAX_TF
    ensures buckets != [] ==> |buckets| + buckets[|buckets| - 1].tf <= MAX_TF + 1
  {
    if buckets != [] {
      var n := |buckets| - 1;
      FewBuckets(buckets[..n], documents);
      assert 1 <= buckets[n].tf <= MAX_TF && (n > 0 ==> buckets[n].tf < buckets[n - 1].tf);
    }
  }

  /** An encoded list takes one integer per document and two per frequency at most. */
  lemma FitsBuffer(buckets: seq<Bucket>, documents: nat)
    requires WellFormed(buckets, documents)
    ensures |Encode(buckets)| <= 510 + documents
  {
    EncodedLength(buckets);
    FewBuckets(buckets, documents);
    PostingsAreDocuments(buckets, documents);
    assert AllDocids(buckets) <= UpTo(documents);
    SubsetCounts(AllDocids(buckets), UpTo(documents));
  }
}
