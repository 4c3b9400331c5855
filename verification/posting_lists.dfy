/**
 Impact-ordered postings: documents grouped by term frequency, highest first, each
 group written as the frequency, the docids difference encoded, and a 0.
 */
module PostingLists {

  /** All documents (numbered from 1) in which a term occurs tf times. */
  datatype Bucket = Bucket(tf: nat, docids: seq<nat>)

  const MAX_TF := 255

  function Last(docids: seq<nat>, previous: nat): nat {
    if docids == [] then previous else docids[|docids| - 1]
  }

  ghost predicate Ascending(docids: seq<nat>) {
    forall i, j :: 0 <= i < j < |docids| ==> docids[i] < docids[j]
  }

  ghost predicate Between(docids: seq<nat>, low: nat, high: nat) {
    forall i :: 0 <= i < |docids| ==> low < docids[i] <= high
  }

  /** A posting list of a collection with that many documents. */
  ghost predicate WellFormed(buckets: seq<Bucket>, documents: nat) {
    && (forall i :: 0 <= i < |buckets| ==> 1 <= buckets[i].tf <= MAX_TF && buckets[i].docids != [])
    && (forall i :: 0 <= i < |buckets| ==> Ascending(buckets[i].docids) && Between(buckets[i].docids, 0, documents))
    && (forall i, j :: 0 <= i < j < |buckets| ==> buckets[i].tf > buckets[j].tf)
    && (forall i, j, d :: 0 <= i < j < |buckets| && d in buckets[i].docids ==> d !in buckets[j].docids)
  }

  /** Frequencies of one byte, descending; documents from 1 on, ascending, each in one group. */
  lemma WellFormedIs(buckets: seq<Bucket>, documents: nat)
    ensures WellFormed(buckets, documents) <==>
              && (forall i :: 0 <= i < |buckets| ==> 1 <= buckets[i].tf <= 255 && |buckets[i].docids| > 0)
              && (forall i, k :: 0 <= i < |buckets| && 0 <= k < |buckets[i].docids| ==> 1 <= buckets[i].docids[k] <= documents)
              && (forall i, k, l :: 0 <= i < |buckets| && 0 <= k < l < |buckets[i].docids| ==>
                    buckets[i].docids[k] < buckets[i].docids[l])
              && (forall i, j :: 0 <= i < j < |buckets| ==> buckets[i].tf > buckets[j].tf)
              && (forall i, j, d :: 0 <= i < j < |buckets| && d in buckets[i].docids ==> d !in buckets[j].docids)
  {
  }

  // ------------------------------------------------------------------ encoding

  function Deltas(docids: seq<nat>, previous: nat): (r: seq<int>)
    ensures |r| == |docids|
  {
    if docids == [] then []
    else
      var n := |docids| - 1;
      Deltas(docids[..n], previous) + [docids[n] - Last(docids[..n], previous)]
  }

  function EncodeBucket(b: Bucket): seq<int> {
    [b.tf] + Deltas(b.docids, 0) + [0]
  }

  function Encode(buckets: seq<Bucket>): seq<int> {
    if buckets == [] then []
    else Encode(buckets[..|buckets| - 1]) + EncodeBucket(buckets[|buckets| - 1])
  }

  function Postings(buckets: seq<Bucket>): nat {
    if buckets == [] then 0
    else Postings(buckets[..|buckets| - 1]) + |buckets[|buckets| - 1].docids|
  }

  lemma PostingsNext(buckets: seq<Bucket>, k: nat)
    requires k < |buckets|
    ensures Postings(buckets[..k + 1]) == Postings(buckets[..k]) + |buckets[k].docids|
  {
    assert buckets[..k + 1][..k] == buckets[..k];
  }

  lemma {:induction false} PostingsGrow(buckets: seq<Bucket>, a: nat, b: nat)
    requires a <= b <= |buckets|
    ensures Postings(buckets[..a]) <= Postings(buckets[..b])
    decreases b
  {
    if a < b {
      PostingsGrow(buckets, a, b - 1);
      PostingsNext(buckets, b - 1);
    }
  }

  /** Behind the groups before comes the frequency, then the first docid and the gaps, then a 0. */
  lemma EncodesGroup(buckets: seq<Bucket>, tf: nat, docids: seq<nat>) returns (gaps: seq<int>)
    requires docids != []
    ensures Encode(buckets + [Bucket(tf, docids)]) == Encode(buckets) + ([tf] + gaps + [0])
    ensures |gaps| == |docids| && gaps[0] == docids[0]
    ensures forall k :: 1 <= k < |docids| ==> gaps[k] + docids[k - 1] == docids[k]
  {
    var all := buckets + [Bucket(tf, docids)];
    assert all[..|all| - 1] == buckets;
    gaps := Deltas(docids, 0);
    DeltaAt(docids, 0, 0);
    forall k | 1 <= k < |docids| ensures gaps[k] + docids[k - 1] == docids[k] {
      DeltaAt(docids, 0, k);
    }
  }

  lemma {:induction false} EncodedLength(buckets: seq<Bucket>)
    ensures |Encode(buckets)| == Postings(buckets) + 2 * |buckets|
  {
    if buckets != [] {
      EncodedLength(buckets[..|buckets| - 1]);
    }
  }

  lemma {:induction false} EncodeSplits(a: seq<Bucket>, b: seq<Bucket>)
    ensures Encode(a + b) == Encode(a) + Encode(b)
  {
    hide Encode, EncodeBucket;
    EncodeLast(b);
    EncodeLast(a + b);
    if b == [] {
      assert a + b == a;
    } else {
      var n := |b| - 1;
      EncodeSplits(a, b[..n]);
      assert (a + b)[..|a + b| - 1] == a + b[..n] && (a + b)[|a + b| - 1] == b[n];
    }
  }

  lemma EncodeLast(s: seq<Bucket>)
    ensures Encode(s) == if s == [] then [] else Encode(s[..|s| - 1]) + EncodeBucket(s[|s| - 1])
  {
  }

  /** Only the gaps between neighbours are written, and they are never 0. */
  lemma {:induction false} DeltasArePositive(docids: seq<nat>, previous: nat)
    requires Ascending(docids) && (docids != [] ==> docids[0] > previous)
    ensures forall i :: 0 <= i < |docids| ==> Deltas(docids, previous)[i] > 0
  {
    if docids != [] {
      var n := |docids| - 1;
      DeltasArePositive(docids[..n], previous);
    }
  }

  lemma {:induction false} DeltaAt(docids: seq<nat>, previous: nat, i: nat)
    requires i < |docids|
    ensures Deltas(docids, previous)[i] == docids[i] - Last(docids[..i], previous)
  {
    var n := |docids| - 1;
    if i < n {
      DeltaAt(docids[..n], previous, i);
      assert docids[..n][..i] == docids[..i];
    }
  }

  lemma {:induction false} DeltasSplit(a: seq<nat>, b: seq<nat>, previous: nat)
    ensures Deltas(a + b, previous) == Deltas(a, previous) + Deltas(b, Last(a, previous))
  {
    if b == [] {
      assert a + b == a;
    } else {
      var n := |b| - 1;
      DeltasSplit(a, b[..n], previous);
      assert (a + b)[..|a + b| - 1] == a + b[..n];
    }
  }

  // ------------------------------------------------------------------ decoding

  /** The docids a run of gaps stands for. */
  function Summed(gaps: seq<int>, previous: int): (r: seq<int>)
    ensures |r| == |gaps|
  {
    if gaps == [] then []
    else
      var n := |gaps| - 1;
      var so := Summed(gaps[..n], previous);
      so + [gaps[n] + if n == 0 then previous else so[n - 1]]
  }

  lemma {:induction false} SummedDeltas(docids: seq<nat>, previous: nat)
    ensures Summed(Deltas(docids, previous), previous) == docids
  {
    if docids != [] {
      var n := |docids| - 1;
      SummedDeltas(docids[..n], previous);
      assert Deltas(docids, previous)[..n] == Deltas(docids[..n], previous);
    }
  }

  /** How far the current group reaches: up to the next 0. */
  function GapsFrom(raw: seq<int>, at: nat): (n: nat)
    requires at <= |raw|
    ensures at + n <= |raw|
    ensures forall i :: at <= i < at + n ==> raw[i] != 0
    ensures at + n < |raw| ==> raw[at + n] == 0
    decreases |raw| - at
  {
    if at == |raw| || raw[at] == 0 then 0 else 1 + GapsFrom(raw, at + 1)
  }

  datatype Decoded = Decoded(tf: int, docids: seq<int>)

  /** Reading a list the way the search engine does: groups end at a 0. */
  function Decode(raw: seq<int>, at: nat): (r: seq<Decoded>)
    requires at <= |raw|
    decreases |raw| - at
  {
    if at == |raw| then []
    else
      var n := GapsFrom(raw, at + 1);
      [Decoded(raw[at], Summed(raw[at + 1..at + 1 + n], 0))]
        + Decode(raw, if at + 1 + n < |raw| then at + 2 + n else |raw|)
  }

  function Plain(buckets: seq<Bucket>): (r: seq<Decoded>)
    ensures |r| == |buckets|
  {
    seq(|buckets|, i requires 0 <= i < |buckets| => Decoded(buckets[i].tf, buckets[i].docids))
  }

  /** Where the k-th bucket lies in the encoded list. */
  lemma EncodedAt(buckets: seq<Bucket>, k: nat)
    requires k < |buckets|
    ensures var at, next := |Encode(buckets[..k])|, |Encode(buckets[..k + 1])|;
            && next == at + |buckets[k].docids| + 2 && next <= |Encode(buckets)|
            && Encode(buckets)[at..next] == EncodeBucket(buckets[k])
  {
    var now, rest := buckets[..k + 1], buckets[k + 1..];
    assert buckets == now + rest && now[..k] == buckets[..k];
    EncodeSplits(now, rest);
    hide EncodeBucket;
    assert Encode(now) == Encode(buckets[..k]) + EncodeBucket(buckets[k]);
    assert |EncodeBucket(buckets[k])| == |buckets[k].docids| + 2 by { BucketLength(buckets[k]); }
  }

  lemma BucketLength(b: Bucket)
    ensures |EncodeBucket(b)| == |b.docids| + 2
  {
  }

  lemma {:induction false} GapsReach(raw: seq<int>, at: nat, n: nat)
    requires at + n < |raw| && raw[at + n] == 0
    requires forall i :: at <= i < at + n ==> raw[i] != 0
    ensures GapsFrom(raw, at) == n
    decreases n
  {
    if n > 0 {
      GapsReach(raw, at + 1, n - 1);
    }
  }

  lemma DecodeBucket(raw: seq<int>, at: nat, b: Bucket)
    requires at + |b.docids| + 2 <= |raw| && raw[at..at + |b.docids| + 2] == EncodeBucket(b)
    requires Ascending(b.docids) && (b.docids != [] ==> b.docids[0] > 0)
    ensures Decode(raw, at) == [Decoded(b.tf, b.docids)] + Decode(raw, at + |b.docids| + 2)
  {
    hide EncodeBucket, Deltas, Summed, Decode, GapsFrom;
    DeltasArePositive(b.docids, 0);
    BucketParts(raw, at, b);
    GapsReach(raw, at + 1, |b.docids|);
    DecodeGroup(raw, at, |b.docids|);
    SummedDeltas(b.docids, 0);
  }

  lemma DecodeGroup(raw: seq<int>, at: nat, n: nat)
    requires at + 1 + n < |raw| && GapsFrom(raw, at + 1) == n
    ensures Decode(raw, at) == [Decoded(raw[at], Summed(raw[at + 1..at + 1 + n], 0))] + Decode(raw, at + n + 2)
  {
  }

  lemma BucketParts(raw: seq<int>, at: nat, b: Bucket)
    requires at + |b.docids| + 2 <= |raw| && raw[at..at + |b.docids| + 2] == EncodeBucket(b)
    ensures raw[at] == b.tf && raw[at + |b.docids| + 1] == 0
    ensures raw[at + 1..at + 1 + |b.docids|] == Deltas(b.docids, 0)
    ensures forall i :: at + 1 <= i < at + 1 + |b.docids| ==> raw[i] == Deltas(b.docids, 0)[i - at - 1]
  {
    hide Deltas;
    var n, e := |b.docids|, EncodeBucket(b);
    assert raw[at..at + n + 2][0] == e[0] && raw[at..at + n + 2][n + 1] == e[n + 1];
    forall i | at + 1 <= i < at + 1 + n ensures raw[i] == Deltas(b.docids, 0)[i - at - 1] {
      assert raw[at..at + n + 2][i - at] == e[i - at];
    }
  }

  /** Decoding an encoded list gives the list back. */
  lemma {:induction false} DecodeEncode(buckets: seq<Bucket>, documents: nat, k: nat)
    requires WellFormed(buckets, documents) && k <= |buckets|
    ensures |Encode(buckets[..k])| <= |Encode(buckets)|
    ensures Decode(Encode(buckets), |Encode(buckets[..k])|) == Plain(buckets[k..])
    decreases |buckets| - k
  {
    hide Encode, EncodeBucket, Decode, Deltas;
    if k < |buckets| {
      EncodedAt(buckets, k);
      DecodeBucket(Encode(buckets), |Encode(buckets[..k])|, buckets[k]);
      DecodeEncode(buckets, documents, k + 1);
      assert Plain(buckets[k..]) == [Decoded(buckets[k].tf, buckets[k].docids)] + Plain(buckets[k + 1..]);
    } else {
      assert buckets[..k] == buckets;
      DecodeNothing(Encode(buckets));
    }
  }

  lemma DecodeNothing(raw: seq<int>)
    ensures Decode(raw, |raw|) == []
  {
  }
}
