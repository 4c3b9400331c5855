/** search_hybrid_impl(): reciprocal rank fusion of two ranked lists. */
module Fusion {
  import opened Sequences
  import opened SegmentModel
  import opened Rankings

  const RANK_CONSTANT := 60.0

  /** What the document in place i (from 0) of a list gains. */
  function Reciprocal(i: nat): (r: real)
    ensures r > 0.0
  {
    1.0 / (RANK_CONSTANT + (i + 1) as real)
  }

  /** The first place is worth 1/61, each later one less; two places are worth more than either. */
  lemma ReciprocalIs(i: nat, j: nat)
    ensures Reciprocal(i) == 1.0 / (61 + i) as real
    ensures i < j ==> Reciprocal(i) > Reciprocal(j)
    ensures Reciprocal(i) + Reciprocal(j) > Reciprocal(i) && Reciprocal(i) + Reciprocal(j) > Reciprocal(j)
  {
    if i < j {
      Inverts((61 + i) as real, (61 + j) as real);
    }
  }

  lemma Inverts(a: real, b: real)
    requires 0.0 < a < b
    ensures 1.0 / a > 1.0 / b
  {
    assert 1.0 / a - 1.0 / b == (b - a) / (a * b);
    assert a * b > 0.0;
  }

  /** What a list contributes to a document's fused score. */
  function Share(list: seq<Loc>, d: Loc): (r: real) {
    if list == [] then 0.0
    else if list[|list| - 1] == d then Reciprocal(|list| - 1)
    else Share(list[..|list| - 1], d)
  }

  function LocOf(h: Hit): Loc {
    Loc(h.generation, h.docid)
  }

  /** The documents of either list, each once, with the sum of its shares. */
  ghost predicate Fuses(fused: seq<Hit>, lexical: seq<Loc>, vector: seq<Loc>) {
    && Unique(fused)
    && (forall h :: h in fused ==> (LocOf(h) in lexical || LocOf(h) in vector))
    && (forall d :: d in lexical || d in vector ==> HasDocument(fused, d))
    && (forall h :: h in fused ==> h.score == Share(lexical, LocOf(h)) + Share(vector, LocOf(h)))
  }

  ghost predicate HasDocument(fused: seq<Hit>, d: Loc) {
    exists i :: 0 <= i < |fused| && LocOf(fused[i]) == d
  }

  lemma {:induction false} ShareIs(list: seq<Loc>, d: Loc)
    ensures d !in list ==> Share(list, d) == 0.0
    ensures Distinct(list) ==> forall i :: 0 <= i < |list| && list[i] == d ==> Share(list, d) == Reciprocal(i)
  {
    if list != [] {
      ShareIs(list[..|list| - 1], d);
    }
  }

  lemma ShareAt(list: seq<Loc>, d: Loc)
    requires Distinct(list)
    ensures d !in list ==> Share(list, d) == 0.0
    ensures forall i: nat :: i < |list| && list[i] == d ==> Share(list, d) == 1.0 / (61 + i) as real
  {
    ShareIs(list, d);
    forall i: nat | i < |list| && list[i] == d ensures Share(list, d) == 1.0 / (61 + i) as real {
      ReciprocalIs(i, i);
    }
  }

  lemma ShareNext(list: seq<Loc>, n: nat, d: Loc)
    requires n < |list| && Distinct(list)
    ensures Share(list[..n + 1], d) == Share(list[..n], d) + (if d == list[n] then Reciprocal(n) else 0.0)
  {
    ShareIs(list[..n], d);
    assert list[..n + 1][..n] == list[..n];
  }

  /** The fused set so far, in the first `count` places of the array. */
  ghost predicate FusedSoFar(fused: seq<Hit>, lexical: seq<Loc>, vector: seq<Loc>) {
    Fuses(fused, lexical, vector) && |fused| <= |lexical| + |vector|
  }

  lemma AddsLexical(fused: seq<Hit>, lexical: seq<Loc>, n: nat)
    requires n < |lexical| && Distinct(lexical) && FusedSoFar(fused, lexical[..n], []) && |fused| == n
    ensures FusedSoFar(fused + [Hit(Reciprocal(n), lexical[n].generation, lexical[n].docid)], lexical[..n + 1], [])
  {
    var h := Hit(Reciprocal(n), lexical[n].generation, lexical[n].docid);
    var more := fused + [h];
    assert lexical[..n + 1] == lexical[..n] + [lexical[n]];
    forall x | x in more ensures x.score == Share(lexical[..n + 1], LocOf(x)) + Share([], LocOf(x)) {
      ShareNext(lexical, n, LocOf(x));
      ShareIs(lexical[..n], LocOf(x));
    }
    HasMore(fused, h);
  }

  lemma HasMore(fused: seq<Hit>, h: Hit)
    ensures forall d :: HasDocument(fused + [h], d) <==> HasDocument(fused, d) || d == LocOf(h)
  {
    var more := fused + [h];
    forall d | HasDocument(fused, d) ensures HasDocument(more, d) {
      var i :| 0 <= i < |fused| && LocOf(fused[i]) == d;
      assert LocOf(more[i]) == d;
    }
    assert more[|fused|] == h;
  }

  /** A document of the vector list that is fused already gains its share. */
  lemma AddsToFused(fused: seq<Hit>, lexical: seq<Loc>, vector: seq<Loc>, n: nat, at: nat)
    requires n < |vector| && Distinct(vector) && FusedSoFar(fused, lexical, vector[..n])
    requires at < |fused| && LocOf(fused[at]) == vector[n]
    ensures FusedSoFar(fused[at := fused[at].(score := fused[at].score + Reciprocal(n))], lexical, vector[..n + 1])
  {
    var more := fused[at := fused[at].(score := fused[at].score + Reciprocal(n))];
    assert vector[..n + 1] == vector[..n] + [vector[n]];
    forall i | 0 <= i < |more| ensures more[i].score == Share(lexical, LocOf(more[i])) + Share(vector[..n + 1], LocOf(more[i])) {
      ShareNext(vector, n, LocOf(more[i]));
      assert fused[i] in fused;
      assert i != at ==> LocOf(fused[i]) != LocOf(fused[at]);
    }
    forall d | d in lexical || d in vector[..n + 1] ensures HasDocument(more, d) {
      assert HasDocument(fused, d) by {
        assert fused[at] in fused;
      }
      var i :| 0 <= i < |fused| && LocOf(fused[i]) == d;
      assert LocOf(more[i]) == d;
    }
    forall h | h in more ensures LocOf(h) in lexical || LocOf(h) in vector[..n + 1] {
      var i :| 0 <= i < |more| && more[i] == h;
      assert LocOf(h) == LocOf(fused[i]) && fused[i] in fused;
    }
  }

  /** A document only the vector list has joins the fused set. */
  lemma AddsVector(fused: seq<Hit>, lexical: seq<Loc>, vector: seq<Loc>, n: nat)
    requires n < |vector| && Distinct(vector) && FusedSoFar(fused, lexical, vector[..n])
    requires forall i :: 0 <= i < |fused| ==> LocOf(fused[i]) != vector[n]
    ensures FusedSoFar(fused + [Hit(Reciprocal(n), vector[n].generation, vector[n].docid)], lexical, vector[..n + 1])
  {
    var h := Hit(Reciprocal(n), vector[n].generation, vector[n].docid);
    var more := fused + [h];
    assert vector[..n + 1] == vector[..n] + [vector[n]];
    assert !HasDocument(fused, vector[n]);
    forall x | x in more ensures x.score == Share(lexical, LocOf(x)) + Share(vector[..n + 1], LocOf(x)) {
      ShareNext(vector, n, LocOf(x));
      ShareIs(lexical, LocOf(x));
      ShareIs(vector[..n], LocOf(x));
    }
    HasMore(fused, h);
  }

  method FuseLexical(fused: array<Hit>, lexical: seq<Loc>) returns (count: nat)
    requires Distinct(lexical) && |lexical| <= fused.Length
    modifies fused
    ensures count == |lexical| && FusedSoFar(fused[..count], lexical, [])
  {
    hide FusedSoFar;
    count := 0;
    FusesNothing();
    assert lexical[..0] == [] && fused[..0] == [];
    for which := 0 to |lexical|
      invariant count == which && FusedSoFar(fused[..count], lexical[..which], [])
    {
      AddsLexical(fused[..count], lexical, which);
      ghost var was := fused[..count];
      fused[count] := Hit(Reciprocal(which), lexical[which].generation, lexical[which].docid);
      count := count + 1;
      assert fused[..count] == was + [fused[count - 1]];
    }
    assert lexical[..|lexical|] == lexical;
  }

  lemma FusesNothing()
    ensures FusedSoFar([], [], [])
  {
  }

  /** Look the document up; add to it, or append it. */
  method FuseOne(fused: array<Hit>, count: nat, ghost lexical: seq<Loc>, vector: seq<Loc>, which: nat) returns (now: nat)
    requires which < |vector| && Distinct(vector) && count <= fused.Length
    requires FusedSoFar(fused[..count], lexical, vector[..which])
    requires |lexical| + |vector| <= fused.Length
    modifies fused
    ensures now <= fused.Length && FusedSoFar(fused[..now], lexical, vector[..which + 1])
  {
    hide FusedSoFar;
    var contribution := Reciprocal(which);
    ghost var was := fused[..count];
    for other := 0 to count
      invariant fused[..count] == was
      invariant forall i :: 0 <= i < other ==> LocOf(was[i]) != vector[which]
    {
      if fused[other].generation == vector[which].generation && fused[other].docid == vector[which].docid {
        assert was[other] == fused[other];
        AddsToFused(was, lexical, vector, which, other);
        fused[other] := fused[other].(score := fused[other].score + contribution);
        assert fused[..count] == was[other := fused[other]];
        return count;
      }
    }
    AddsVector(was, lexical, vector, which);
    FusedLength(was, lexical, vector[..which]);
    fused[count] := Hit(contribution, vector[which].generation, vector[which].docid);
    now := count + 1;
    assert fused[..now] == was + [fused[count]];
  }

  lemma FusedLength(fused: seq<Hit>, lexical: seq<Loc>, vector: seq<Loc>)
    requires FusedSoFar(fused, lexical, vector)
    ensures |fused| <= |lexical| + |vector| && Fuses(fused, lexical, vector)
  {
  }

  /** The best topK of the union of both lists, in order; no more than there are. */
  ghost predicate IsFusion(results: seq<Hit>, lexical: seq<Loc>, vector: seq<Loc>, topK: nat) {
    exists union ::
      && Fuses(union, lexical, vector) && |union| <= 2 * topK
      && Sorted(Sort(union)) && (forall h :: h in Sort(union) <==> h in union)
      && |results| == (if |union| < topK then |union| else topK) && results <= Sort(union)
  }

  /**
   Fusion in an array of 2 * topK candidates, which is never overrun.  Published are the
   best topK of the union, in order, none twice.
   */
  method Fuse(lexical: seq<Loc>, vector: seq<Loc>, topK: nat) returns (results: seq<Hit>)
    requires Distinct(lexical) && Distinct(vector) && |lexical| <= topK && |vector| <= topK
    ensures IsFusion(results, lexical, vector, topK)
    ensures forall i, j :: 0 <= i < j < |results| ==>
              results[i].score >= results[j].score && LocOf(results[i]) != LocOf(results[j])
    ensures forall h :: h in results ==> LocOf(h) in lexical || LocOf(h) in vector
    ensures forall h, i: nat :: h in results && i < |lexical| && lexical[i] == LocOf(h) && LocOf(h) !in vector ==>
              h.score == 1.0 / (61 + i) as real
    ensures forall h, j: nat :: h in results && j < |vector| && vector[j] == LocOf(h) && LocOf(h) !in lexical ==>
              h.score == 1.0 / (61 + j) as real
    ensures forall h, i: nat, j: nat :: h in results && i < |lexical| && j < |vector| && lexical[i] == vector[j] == LocOf(h) ==>
              h.score == 1.0 / (61 + i) as real + 1.0 / (61 + j) as real
    ensures |results| <= topK
    ensures forall d :: (d in lexical || d in vector) && (forall h :: h in results ==> LocOf(h) != d) ==>
              |results| == topK && forall h :: h in results ==> h.score >= Share(lexical, d) + Share(vector, d)
  {
    hide FusedSoFar, Fuses, Sorted, Share, IsFusion, Reciprocal, LocOf;
    var fused, count := FuseBoth(lexical, vector, topK);
    TopIsFusion(fused[..count], lexical, vector, topK);
    FusionIs(Sort(fused[..count])[..if count < topK then count else topK], lexical, vector, topK);
    var sorted := Sort(fused[..count]);
    results := sorted[..if count < topK then count else topK];
  }

  /** Both lists in one array of candidates. */
  method FuseBoth(lexical: seq<Loc>, vector: seq<Loc>, topK: nat) returns (fused: array<Hit>, count: nat)
    requires Distinct(lexical) && Distinct(vector) && |lexical| <= topK && |vector| <= topK
    ensures count <= fused.Length == 2 * topK && Fuses(fused[..count], lexical, vector)
  {
    hide FusedSoFar, Fuses, Share;
    fused := new Hit[topK * 2](_ => Hit(0.0, 0, 0));
    count := FuseLexical(fused, lexical);
    assert vector[..0] == [];
    for which := 0 to |vector|
      invariant 0 <= count <= fused.Length && FusedSoFar(fused[..count], lexical, vector[..which])
    {
      count := FuseOne(fused, count, lexical, vector, which);
    }
    assert vector[..|vector|] == vector;
    FusedLength(fused[..count], lexical, vector);
  }

  /** What a fusion holds and leaves out, document by document. */
  lemma FusionIs(results: seq<Hit>, lexical: seq<Loc>, vector: seq<Loc>, topK: nat)
    requires Distinct(lexical) && Distinct(vector) && IsFusion(results, lexical, vector, topK)
    ensures forall i, j :: 0 <= i < j < |results| ==>
              results[i].score >= results[j].score && LocOf(results[i]) != LocOf(results[j])
    ensures forall h :: h in results ==> LocOf(h) in lexical || LocOf(h) in vector
    ensures forall h, i: nat :: h in results && i < |lexical| && lexical[i] == LocOf(h) && LocOf(h) !in vector ==>
              h.score == 1.0 / (61 + i) as real
    ensures forall h, j: nat :: h in results && j < |vector| && vector[j] == LocOf(h) && LocOf(h) !in lexical ==>
              h.score == 1.0 / (61 + j) as real
    ensures forall h, i: nat, j: nat :: h in results && i < |lexical| && j < |vector| && lexical[i] == vector[j] == LocOf(h) ==>
              h.score == 1.0 / (61 + i) as real + 1.0 / (61 + j) as real
    ensures |results| <= topK
    ensures forall d :: (d in lexical || d in vector) && (forall h :: h in results ==> LocOf(h) != d) ==>
              |results| == topK && forall h :: h in results ==> h.score >= Share(lexical, d) + Share(vector, d)
  {
    FusionHolds(results, lexical, vector, topK);
    hide IsFusion, Share, LocOf;
    forall h | h in results
      ensures forall i: nat :: i < |lexical| && lexical[i] == LocOf(h) && LocOf(h) !in vector ==>
                h.score == 1.0 / (61 + i) as real
      ensures forall j: nat :: j < |vector| && vector[j] == LocOf(h) && LocOf(h) !in lexical ==>
                h.score == 1.0 / (61 + j) as real
      ensures forall i: nat, j: nat :: i < |lexical| && j < |vector| && lexical[i] == vector[j] == LocOf(h) ==>
                h.score == 1.0 / (61 + i) as real + 1.0 / (61 + j) as real
    {
      ShareAt(lexical, LocOf(h));
      ShareAt(vector, LocOf(h));
    }
  }

  lemma FusionHolds(results: seq<Hit>, lexical: seq<Loc>, vector: seq<Loc>, topK: nat)
    requires IsFusion(results, lexical, vector, topK)
    ensures forall i, j :: 0 <= i < j < |results| ==>
              results[i].score >= results[j].score && LocOf(results[i]) != LocOf(results[j])
    ensures forall h :: h in results ==> LocOf(h) in lexical || LocOf(h) in vector
    ensures forall h :: h in results ==> h.score == Share(lexical, LocOf(h)) + Share(vector, LocOf(h))
    ensures |results| <= topK
    ensures forall d :: (d in lexical || d in vector) && (forall h :: h in results ==> LocOf(h) != d) ==>
              |results| == topK && forall h :: h in results ==> h.score >= Share(lexical, d) + Share(vector, d)
  {
    var union :| Fuses(union, lexical, vector) && |union| <= 2 * topK && Sorted(Sort(union))
                 && (forall h :: h in Sort(union) <==> h in union)
                 && |results| == (if |union| < topK then |union| else topK) && results <= Sort(union);
    FusedUnique(union, lexical, vector);
    SortIs(union);
    assert forall h :: h in results ==> h in union;
    SortedKeeps(union, results);
    hide Share;
    forall d | (d in lexical || d in vector) && (forall h :: h in results ==> LocOf(h) != d)
      ensures |results| == topK && forall h :: h in results ==> h.score >= Share(lexical, d) + Share(vector, d)
    {
      LeftOut(union, results, lexical, vector, topK, d);
    }
  }

  lemma SortedKeeps(union: seq<Hit>, results: seq<Hit>)
    requires Unique(union) && Sorted(Sort(union)) && (forall h :: h in Sort(union) <==> h in union) && results <= Sort(union)
    ensures forall i, j :: 0 <= i < j < |results| ==>
              results[i].score >= results[j].score && LocOf(results[i]) != LocOf(results[j])
  {
    var all := Sort(union);
    forall i, j | 0 <= i < j < |results|
      ensures results[i].score >= results[j].score && LocOf(results[i]) != LocOf(results[j])
    {
      assert Before(all[i], all[j]) && all[i] in union && all[j] in union && all[i] != all[j];
    }
  }

  /** A document that is not published comes after those that are. */
  lemma LeftOut(union: seq<Hit>, results: seq<Hit>, lexical: seq<Loc>, vector: seq<Loc>, topK: nat, d: Loc)
    requires Fuses(union, lexical, vector) && Sorted(Sort(union)) && (forall h :: h in Sort(union) <==> h in union)
    requires |results| == (if |union| < topK then |union| else topK) && results <= Sort(union) && |Sort(union)| == |union|
    requires (d in lexical || d in vector) && forall h :: h in results ==> LocOf(h) != d
    ensures |results| == topK && forall h :: h in results ==> h.score >= Share(lexical, d) + Share(vector, d)
  {
    var all := Sort(union);
    assert HasDocument(union, d);
    var k :| 0 <= k < |union| && LocOf(union[k]) == d;
    assert union[k] in all;
    var n: nat :| n < |all| && all[n] == union[k];
    assert forall m :: 0 <= m < |results| ==> results[m] == all[m] && results[m] in results;
    assert n >= |results|;
    forall h | h in results ensures h.score >= all[n].score {
      var m: nat :| m < |results| && results[m] == h;
      SortedPlaces(all, m, n);
    }
  }

  lemma TopIsFusion(union: seq<Hit>, lexical: seq<Loc>, vector: seq<Loc>, topK: nat)
    requires Fuses(union, lexical, vector) && |union| <= 2 * topK
    ensures |Sort(union)| == |union|
    ensures IsFusion(Sort(union)[..if |union| < topK then |union| else topK], lexical, vector, topK)
  {
    FusedUnique(union, lexical, vector);
    hide Fuses, Sorted;
    SortIs(union);
  }

  /** The lists and the number of hits asked for leave one possible outcome. */
  lemma FusionIsUnique(a: seq<Hit>, b: seq<Hit>, lexical: seq<Loc>, vector: seq<Loc>, topK: nat)
    requires IsFusion(a, lexical, vector, topK) && IsFusion(b, lexical, vector, topK)
    ensures a == b
  {
    var u :| Fuses(u, lexical, vector) && |u| <= 2 * topK && Sorted(Sort(u)) && (forall h :: h in Sort(u) <==> h in u)
             && |a| == (if |u| < topK then |u| else topK) && a <= Sort(u);
    var v :| Fuses(v, lexical, vector) && |v| <= 2 * topK && Sorted(Sort(v)) && (forall h :: h in Sort(v) <==> h in v)
             && |b| == (if |v| < topK then |v| else topK) && b <= Sort(v);
    FusedHits(u, v, lexical, vector);
    FusedHits(v, u, lexical, vector);
    FusedUnique(u, lexical, vector);
    FusedUnique(v, lexical, vector);
    hide Fuses, Sorted;
    SortIs(u);
    SortIs(v);
    assert Hits(Sort(u)) == Hits(Sort(v));
    SortedIsCanonical(Sort(u), Sort(v));
  }

  lemma FusedHits(a: seq<Hit>, b: seq<Hit>, lexical: seq<Loc>, vector: seq<Loc>)
    requires Fuses(a, lexical, vector) && Fuses(b, lexical, vector)
    ensures forall h :: h in a ==> h in b
  {
    forall h | h in a ensures h in b {
      var i: nat :| i < |a| && a[i] == h;
      assert HasDocument(a, LocOf(a[i]));
      assert HasDocument(b, LocOf(h));
      var j: nat :| j < |b| && LocOf(b[j]) == LocOf(h);
      assert b[j] == h;
    }
  }

  lemma FusedUnique(fused: seq<Hit>, lexical: seq<Loc>, vector: seq<Loc>)
    requires Fuses(fused, lexical, vector)
    ensures Unique(fused)
  {
  }
}
