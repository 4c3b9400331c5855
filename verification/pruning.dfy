/** Static pruning of an impact-ordered list: the loop of write_postings(). */
module Pruning {
  import opened PostingLists
  import opened PostingsMerge

  /** The first `point` postings in list order: frequencies downwards, docids upwards. */
  function Pruned(buckets: seq<Bucket>, point: nat): (r: seq<Bucket>) {
    if buckets == [] then []
    else
      var n := |buckets| - 1;
      var before, b := Postings(buckets[..n]), buckets[n];
      if before >= point then Pruned(buckets[..n], point)
      else if before + |b.docids| <= point then buckets
      else buckets[..n] + [Bucket(b.tf, b.docids[..point - before])]
  }

  /** The point falls inside the k-th group. */
  lemma {:induction false} PrunedIs(buckets: seq<Bucket>, point: nat, k: nat)
    requires k < |buckets| && Postings(buckets[..k]) < point <= Postings(buckets[..k]) + |buckets[k].docids|
    ensures Pruned(buckets, point)
         == buckets[..k] + [Bucket(buckets[k].tf, buckets[k].docids[..point - Postings(buckets[..k])])]
    decreases |buckets|
  {
    var n := |buckets| - 1;
    if k < n {
      PostingsGrow(buckets, k + 1, n);
      PostingsNext(buckets, k);
      assert buckets[..n][..k] == buckets[..k];
      PrunedIs(buckets[..n], point, k);
    } else {
      var b := buckets[n];
      if point - Postings(buckets[..n]) == |b.docids| {
        assert b.docids[..|b.docids|] == b.docids;
        assert buckets == buckets[..n] + [b];
      }
    }
  }

  lemma {:induction false} PrunedKeeps(buckets: seq<Bucket>, point: nat)
    requires point <= Postings(buckets)
    ensures Postings(Pruned(buckets, point)) == point
  {
    if buckets != [] {
      var n := |buckets| - 1;
      var before, b := Postings(buckets[..n]), buckets[n];
      if before >= point {
        PrunedKeeps(buckets[..n], point);
      } else if before + |b.docids| > point {
        var r := Pruned(buckets, point);
        assert r[..n] == buckets[..n];
      }
    }
  }

  /** Dropped postings rank below kept ones: by frequency, then by docid. */
  ghost predicate RanksBelow(d: nat, tf: nat, kept: seq<Bucket>) {
    forall e: nat, t: nat :: Posts(kept, e, t) ==> t > tf || (t == tf && e < d)
  }

  lemma PostsSplit(buckets: seq<Bucket>, b: Bucket, d: nat, tf: nat)
    ensures Posts(buckets + [b], d, tf) <==> Posts(buckets, d, tf) || (b.tf == tf && d in b.docids)
  {
    var all := buckets + [b];
    if Posts(all, d, tf) {
      var i :| 0 <= i < |all| && all[i].tf == tf && d in all[i].docids;
      if i < |buckets| { assert buckets[i].tf == tf && d in buckets[i].docids; }
    }
    if Posts(buckets, d, tf) {
      var i :| 0 <= i < |buckets| && buckets[i].tf == tf && d in buckets[i].docids;
      assert all[i].tf == tf && d in all[i].docids;
    }
    if b.tf == tf && d in b.docids {
      assert all[|buckets|].tf == tf;
    }
  }

  /** Every posting of a list comes from groups above its last one. */
  lemma PostsAbove(buckets: seq<Bucket>, documents: nat, d: nat, tf: nat)
    requires WellFormed(buckets, documents) && buckets != [] && Posts(buckets[..|buckets| - 1], d, tf)
    ensures tf > buckets[|buckets| - 1].tf
  {
    var n := |buckets| - 1;
    var i :| 0 <= i < n && buckets[..n][i].tf == tf && d in buckets[..n][i].docids;
    assert buckets[i].tf > buckets[n].tf;
  }

  lemma CutDocids(docids: seq<nat>, m: nat, d: nat)
    requires Ascending(docids) && m <= |docids|
    ensures d in docids[..m] ==> d in docids
    ensures d in docids && d !in docids[..m] ==> forall e :: e in docids[..m] ==> e < d
  {
    if d in docids && d !in docids[..m] {
      assert docids == docids[..m] + docids[m..];
      var i :| 0 <= i < |docids[m..]| && docids[m..][i] == d;
      forall e | e in docids[..m] ensures e < d {
        var j :| 0 <= j < m && docids[..m][j] == e;
        assert docids[j] < docids[m + i];
      }
    }
  }

  /**
   Pruning keeps postings of the list only, stays well formed, and drops no posting that
   ranks above one it keeps.
   */
  lemma {:induction false} PrunedKeepsTop(buckets: seq<Bucket>, documents: nat, point: nat, d: nat, tf: nat)
    requires WellFormed(buckets, documents)
    ensures Posts(Pruned(buckets, point), d, tf) ==> Posts(buckets, d, tf)
    ensures Posts(buckets, d, tf) && !Posts(Pruned(buckets, point), d, tf) ==> RanksBelow(d, tf, Pruned(buckets, point))
  {
    if buckets != [] {
      var n := |buckets| - 1;
      var before, b := Postings(buckets[..n]), buckets[n];
      assert buckets == buckets[..n] + [b];
      PostsSplit(buckets[..n], b, d, tf);
      if before >= point {
        PrunedKeepsTop(buckets[..n], documents, point, d, tf);
        if Posts(buckets, d, tf) && !Posts(buckets[..n], d, tf) {
          forall e: nat, t: nat | Posts(Pruned(buckets, point), e, t) ensures t > tf {
            PrunedKeepsTop(buckets[..n], documents, point, e, t);
            PostsAbove(buckets, documents, e, t);
          }
        }
      } else if before + |b.docids| > point {
        CutLast(buckets, documents, point - before, d, tf);
      }
    }
  }

  lemma CutLast(buckets: seq<Bucket>, documents: nat, m: nat, d: nat, tf: nat)
    requires WellFormed(buckets, documents) && buckets != [] && m <= |buckets[|buckets| - 1].docids|
    ensures var n := |buckets| - 1;
            var cut := buckets[..n] + [Bucket(buckets[n].tf, buckets[n].docids[..m])];
            && (Posts(cut, d, tf) ==> Posts(buckets, d, tf))
            && (Posts(buckets, d, tf) && !Posts(cut, d, tf) ==> RanksBelow(d, tf, cut))
  {
    var n := |buckets| - 1;
    var b, c := buckets[n], Bucket(buckets[n].tf, buckets[n].docids[..m]);
    var cut := buckets[..n] + [c];
    assert buckets == buckets[..n] + [b];
    PostsSplit(buckets[..n], b, d, tf);
    PostsSplit(buckets[..n], c, d, tf);
    CutDocids(b.docids, m, d);
    if Posts(buckets, d, tf) && !Posts(cut, d, tf) {
      forall e: nat, t: nat | Posts(cut, e, t) ensures t > tf || (t == tf && e < d) {
        PostsSplit(buckets[..n], c, e, t);
        if Posts(buckets[..n], e, t) {
          PostsAbove(buckets, documents, e, t);
        }
      }
    }
  }

  lemma {:induction false} PrunedIsWellFormed(buckets: seq<Bucket>, documents: nat, point: nat)
    requires WellFormed(buckets, documents)
    ensures WellFormed(Pruned(buckets, point), documents)
  {
    hide WellFormed;
    if buckets != [] {
      var n := |buckets| - 1;
      var before, b := Postings(buckets[..n]), buckets[n];
      if before >= point {
        PrefixIsWellFormed(buckets, documents, n);
        PrunedIsWellFormed(buckets[..n], documents, point);
      } else if before + |b.docids| > point {
        CutIsWellFormed(buckets, documents, point - before);
      }
    }
  }

  lemma PrefixIsWellFormed(buckets: seq<Bucket>, documents: nat, n: nat)
    requires WellFormed(buckets, documents) && n <= |buckets|
    ensures WellFormed(buckets[..n], documents)
  {
  }

  lemma CutIsWellFormed(buckets: seq<Bucket>, documents: nat, m: nat)
    requires WellFormed(buckets, documents) && buckets != [] && 0 < m <= |buckets[|buckets| - 1].docids|
    ensures var n := |buckets| - 1;
            WellFormed(buckets[..n] + [Bucket(buckets[n].tf, buckets[n].docids[..m])], documents)
  {
    var n := |buckets| - 1;
    var b := buckets[n];
    PrefixIsWellFormed(buckets, documents, n);
    AddsLowest(buckets[..n], documents, [Bucket(b.tf, b.docids[..m])], b.tf);
  }

  // ------------------------------------------------------------------ the loop

  /** Where the cursor stands after m postings of the k-th group. */
  ghost predicate Inside(buckets: seq<Bucket>, k: nat, m: nat, used: nat, current: nat)
    requires k < |buckets|
  {
    && m <= |buckets[k].docids|
    && used == Postings(buckets[..k]) + m
    && current == |Encode(buckets[..k])| + 1 + m
  }

  lemma InsideReads(buckets: seq<Bucket>, documents: nat, k: nat, m: nat, used: nat, current: nat)
    requires WellFormed(buckets, documents) && k < |buckets| && Inside(buckets, k, m, used, current)
    ensures current < |Encode(buckets)|
    ensures Encode(buckets)[current] == 0 <==> m == |buckets[k].docids|
    ensures |Encode(buckets[..k + 1])| == |Encode(buckets[..k])| + |buckets[k].docids| + 2
  {
    hide Encode, Postings;
    var b, at := buckets[k], |Encode(buckets[..k])|;
    EncodedAt(buckets, k);
    DeltasArePositive(b.docids, 0);
    var group := Encode(buckets)[at..at + |b.docids| + 2];
    assert Encode(buckets)[current] == group[1 + m] == EncodeBucket(b)[1 + m];
  }

  lemma EncodeOneMore(so: seq<Bucket>, b: Bucket)
    ensures Encode(so + [b]) == Encode(so) + EncodeBucket(b)
  {
    assert (so + [b])[..|so|] == so;
  }

  lemma EncodedPrefix(buckets: seq<Bucket>, k: nat, n: nat)
    requires k < |buckets| && n <= |buckets[k].docids| + 2
    ensures |EncodeBucket(buckets[k])| == |buckets[k].docids| + 2
    ensures |Encode(buckets[..k])| + n <= |Encode(buckets)|
    ensures Encode(buckets)[..|Encode(buckets[..k])| + n] == Encode(buckets[..k]) + EncodeBucket(buckets[k])[..n]
  {
    hide Encode, EncodeBucket;
    BucketLength(buckets[k]);
    EncodeSplits(buckets[..k], buckets[k..]);
    EncodeSplits([buckets[k]], buckets[k + 1..]);
    EncodeOne(buckets[k]);
    assert buckets == buckets[..k] + buckets[k..] && buckets[k..] == [buckets[k]] + buckets[k + 1..];
    PrefixOfThree(Encode(buckets[..k]), EncodeBucket(buckets[k]), Encode(buckets[k + 1..]), n);
  }

  lemma EncodeOne(b: Bucket)
    ensures Encode([b]) == EncodeBucket(b)
  {
    assert [b][..0] == [];
  }

  lemma PrefixOfThree(a: seq<int>, b: seq<int>, c: seq<int>, n: nat)
    requires n <= |b|
    ensures (a + (b + c))[..|a| + n] == a + b[..n]
  {
  }

  lemma CutBucket(b: Bucket, m: nat)
    requires m <= |b.docids|
    ensures EncodeBucket(b)[..1 + m] + [0] == EncodeBucket(Bucket(b.tf, b.docids[..m]))
  {
    DeltasSplit(b.docids[..m], b.docids[m..], 0);
    assert b.docids == b.docids[..m] + b.docids[m..];
    assert EncodeBucket(b)[..1 + m] == [b.tf] + Deltas(b.docids, 0)[..m];
  }

  /** The list up to the cursor, closed by a 0, is the pruned list. */
  lemma InsideEncodes(buckets: seq<Bucket>, documents: nat, k: nat, m: nat, used: nat, current: nat)
    requires WellFormed(buckets, documents) && k < |buckets| && Inside(buckets, k, m, used, current) && m > 0
    ensures current <= |Encode(buckets)|
    ensures Encode(buckets)[..current] + [0] == Encode(Pruned(buckets, used))
  {
    hide WellFormed, Encode, EncodeBucket, Postings, Pruned;
    EncodedPrefix(buckets, k, 1 + m);
    PrunedIs(buckets, used, k);
    EncodeOneMore(buckets[..k], Bucket(buckets[k].tf, buckets[k].docids[..m]));
    CutBucket(buckets[k], m);
  }

  /**
   Static pruning: exactly `point` postings are kept, and the shortened list is closed.
   With a point of 0 only the closing 0 is left, which is not an encoded list.
   */
  method Prune(raw: array<int>, length: nat, ghost buckets: seq<Bucket>, ghost documents: nat, point: nat)
    returns (kept: nat)
    requires WellFormed(buckets, documents) && length <= raw.Length && raw[..length] == Encode(buckets)
    requires point < Postings(buckets)
    modifies raw
    ensures kept <= raw.Length
    ensures point > 0 ==> raw[..kept] == Encode(Pruned(buckets, point))
    ensures point == 0 ==> raw[..kept] == [0]
  {
    hide WellFormed, Encode, Postings, Pruned;
    ghost var list := raw[..length];
    var current, used: nat := 0, 0;
    ghost var k: nat, m: nat := 0, 0;
    StartsEmpty(buckets, point);
    while used < point
      invariant raw[..length] == list && used <= point
      invariant used < point ==>
                  k < |buckets| && used == Postings(buckets[..k]) && current == |Encode(buckets[..k])|
      invariant used == point > 0 ==> k < |buckets| && m > 0 && Inside(buckets, k, m, used, current)
      invariant point == 0 ==> current == 0
      decreases point - used
    {
      current := current + 1;
      m := 0;
      InsideReads(buckets, documents, k, m, used, current);
      GroupIsThere(buckets, documents, k);
      while raw[current] != 0 && used < point
        invariant raw[..length] == list && used <= point && current < length
        invariant k < |buckets| && Inside(buckets, k, m, used, current)
        invariant list[current] == 0 <==> m == |buckets[k].docids|
        decreases length - current
      {
        assert raw[..length][current] == list[current];
        used := used + 1;
        m := m + 1;
        current := current + 1;
        InsideReads(buckets, documents, k, m, used, current);
      }
      assert raw[..length][current] == list[current];
      if used < point {
        InsideReads(buckets, documents, k, m, used, current);
        PostingsNext(buckets, k);
        MoreGroups(buckets, k + 1, point);
        current := current + 1;
        k := k + 1;
      }
    }
    if point > 0 {
      InsideReads(buckets, documents, k, m, used, current);
      InsideEncodes(buckets, documents, k, m, used, current);
      assert raw[..current] == raw[..length][..current] == list[..current];
    } else {
      EncodeIsLonger(buckets);
    }
    raw[current] := 0;
    kept := current + 1;
  }

  lemma StartsEmpty(buckets: seq<Bucket>, point: nat)
    requires point < Postings(buckets)
    ensures buckets != [] && Postings(buckets[..0]) == 0 && |Encode(buckets[..0])| == 0
  {
  }

  lemma MoreGroups(buckets: seq<Bucket>, k: nat, point: nat)
    requires k <= |buckets| && Postings(buckets[..k]) < point < Postings(buckets)
    ensures k < |buckets|
  {
    assert buckets[..|buckets|] == buckets;
  }

  lemma GroupIsThere(buckets: seq<Bucket>, documents: nat, k: nat)
    requires WellFormed(buckets, documents) && k < |buckets|
    ensures |buckets[k].docids| > 0
  {
    assert buckets[k].docids != [];
  }

  lemma EncodeIsLonger(buckets: seq<Bucket>)
    ensures |Encode(buckets)| >= Postings(buckets)
  {
    EncodedLength(buckets);
  }
}
