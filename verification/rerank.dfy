/** search_rerank(): rescoring the first stage's hits and putting them in order. */
module Rerank {
  import opened Sequences
  import opened Rankings

  /** The first stage's hits, their MaxSim scores, and which of them have multi-vectors. */
  datatype Stage = Stage(hits: seq<Hit>, maxsim: seq<real>, scored: seq<bool>)

  ghost predicate Complete(s: Stage) {
    |s.maxsim| == |s.scored| == |s.hits| && Unique(s.hits)
  }

  /** Hit a goes before hit b: by MaxSim, then generation, then docid. */
  predicate Above(s: Stage, a: nat, b: nat)
    requires a < |s.hits| && b < |s.hits| && |s.maxsim| == |s.hits|
  {
    s.maxsim[a] > s.maxsim[b] ||
    (s.maxsim[a] == s.maxsim[b] &&
     (s.hits[a].generation < s.hits[b].generation ||
      (s.hits[a].generation == s.hits[b].generation && s.hits[a].docid < s.hits[b].docid)))
  }

  /** The places, among the first n, of the hits with (or without) multi-vectors. */
  function Places(scored: seq<bool>, which: bool, n: nat): (r: seq<nat>)
    requires n <= |scored|
    ensures forall i :: 0 <= i < |r| ==> r[i] < n
  {
    if n == 0 then []
    else if scored[n - 1] == which then Places(scored, which, n - 1) + [n - 1]
    else Places(scored, which, n - 1)
  }

  ghost predicate PlacesOf(s: Stage, order: seq<nat>) {
    |s.maxsim| == |s.hits| && forall i :: 0 <= i < |order| ==> order[i] < |s.hits|
  }

  ghost predicate Ranked(s: Stage, order: seq<nat>)
    requires PlacesOf(s, order)
  {
    forall i, j :: 0 <= i < j < |order| ==> Above(s, order[i], order[j])
  }

  function InsertPlace(s: Stage, order: seq<nat>, v: nat): (r: seq<nat>)
    requires PlacesOf(s, order) && v < |s.hits|
    ensures PlacesOf(s, r) && |r| == |order| + 1
  {
    if order == [] then [v]
    else
      var n := |order| - 1;
      if Above(s, v, order[n]) then InsertPlace(s, order[..n], v) + [order[n]] else order + [v]
  }

  function RankPlaces(s: Stage, order: seq<nat>): (r: seq<nat>)
    requires PlacesOf(s, order)
    ensures PlacesOf(s, r) && |r| == |order|
  {
    if order == [] then []
    else InsertPlace(s, RankPlaces(s, order[..|order| - 1]), order[|order| - 1])
  }

  /** The reranked hits first, then the others as they were. */
  function Order(s: Stage): (r: seq<nat>)
    requires |s.maxsim| == |s.scored| == |s.hits|
  {
    RankPlaces(s, Places(s.scored, true, |s.hits|)) + Places(s.scored, false, |s.hits|)
  }

  // ------------------------------------------------------------- what the order is

  lemma AboveIsTotal(s: Stage, a: nat, b: nat, c: nat)
    requires Complete(s) && a < |s.hits| && b < |s.hits| && c < |s.hits|
    ensures a != b ==> Above(s, a, b) || Above(s, b, a)
    ensures Above(s, a, b) && Above(s, b, c) ==> Above(s, a, c)
    ensures !Above(s, a, a)
  {
    if a < b {
      assert !SameDocument(s.hits[a], s.hits[b]);
    } else if b < a {
      assert !SameDocument(s.hits[b], s.hits[a]);
    }
  }

  lemma {:induction false} InsertPlaceIs(s: Stage, order: seq<nat>, v: nat)
    requires Complete(s) && PlacesOf(s, order) && v < |s.hits| && Ranked(s, order) && v !in order
    ensures Ranked(s, InsertPlace(s, order, v))
    ensures forall x :: x in InsertPlace(s, order, v) <==> x in order || x == v
  {
    if order != [] {
      var n := |order| - 1;
      assert order == order[..n] + [order[n]];
      AboveIsTotal(s, v, order[n], v);
      if Above(s, v, order[n]) {
        InsertPlaceIs(s, order[..n], v);
        var r := InsertPlace(s, order[..n], v);
        forall i | 0 <= i < |r| ensures Above(s, r[i], order[n]) {
          assert r[i] in r;
        }
      } else {
        forall i | 0 <= i < n ensures Above(s, order[i], v) {
          AboveIsTotal(s, order[i], order[n], v);
        }
      }
    }
  }

  lemma {:induction false} RankPlacesIs(s: Stage, order: seq<nat>)
    requires Complete(s) && PlacesOf(s, order) && Distinct(order)
    ensures Ranked(s, RankPlaces(s, order))
    ensures forall x :: x in RankPlaces(s, order) <==> x in order
  {
    if order != [] {
      var n := |order| - 1;
      RankPlacesIs(s, order[..n]);
      assert order == order[..n] + [order[n]];
      InsertPlaceIs(s, RankPlaces(s, order[..n]), order[n]);
    }
  }

  ghost predicate Increasing(order: seq<nat>) {
    forall i, j :: 0 <= i < j < |order| ==> order[i] < order[j]
  }

  lemma {:induction false} PlacesIncrease(scored: seq<bool>, which: bool, n: nat)
    requires n <= |scored|
    ensures Increasing(Places(scored, which, n))
  {
    if n > 0 {
      PlacesIncrease(scored, which, n - 1);
    }
  }

  lemma {:induction false} PlacesAre(scored: seq<bool>, which: bool, n: nat, x: nat)
    requires n <= |scored|
    ensures x in Places(scored, which, n) <==> x < n && scored[x] == which
  {
    if n > 0 {
      PlacesAre(scored, which, n - 1, x);
    }
  }

  lemma {:induction false} PlacesCount(scored: seq<bool>, n: nat)
    requires n <= |scored|
    ensures |Places(scored, true, n)| + |Places(scored, false, n)| == n
  {
    if n > 0 {
      PlacesCount(scored, n - 1);
    }
  }

  /** The reranked part: ranked, distinct, and all with multi-vectors. */
  lemma FirstPart(s: Stage)
    requires Complete(s)
    ensures var ranked := RankPlaces(s, Places(s.scored, true, |s.hits|));
            && PlacesOf(s, ranked) && Ranked(s, ranked) && Distinct(ranked)
            && forall i :: 0 <= i < |ranked| ==> s.scored[ranked[i]]
  {
    var first := Places(s.scored, true, |s.hits|);
    var ranked := RankPlaces(s, first);
    PlacesIncrease(s.scored, true, |s.hits|);
    RankPlacesIs(s, first);
    RankedIsDistinct(s, ranked);
    forall i | 0 <= i < |ranked| ensures s.scored[ranked[i]] {
      assert ranked[i] in ranked;
      PlacesAre(s.scored, true, |s.hits|, ranked[i]);
    }
  }

  lemma LastPart(s: Stage)
    requires Complete(s)
    ensures var last := Places(s.scored, false, |s.hits|);
            Increasing(last) && forall i :: 0 <= i < |last| ==> !s.scored[last[i]]
  {
    var last := Places(s.scored, false, |s.hits|);
    PlacesIncrease(s.scored, false, |s.hits|);
    forall i | 0 <= i < |last| ensures !s.scored[last[i]] {
      assert last[i] in last;
      PlacesAre(s.scored, false, |s.hits|, last[i]);
    }
  }

  lemma JoinIsDistinct(s: Stage, a: seq<nat>, b: seq<nat>)
    requires |s.scored| == |s.hits| && PlacesOf(s, a) && PlacesOf(s, b) && Distinct(a) && Increasing(b)
    requires forall i :: 0 <= i < |a| ==> s.scored[a[i]]
    requires forall i :: 0 <= i < |b| ==> !s.scored[b[i]]
    ensures Distinct(a + b) && PlacesOf(s, a + b)
    ensures forall i :: 0 <= i < |a + b| ==> (i < |a| <==> s.scored[(a + b)[i]])
  {
  }

  /**
   Every hit has exactly one place; those with multi-vectors come first, best MaxSim
   first; the others keep their order.
   */
  lemma OrderIs(s: Stage)
    requires Complete(s)
    ensures var order, m := Order(s), |Places(s.scored, true, |s.hits|)|;
            && |order| == |s.hits| && Distinct(order) && m <= |order| && PlacesOf(s, order)
            && (forall i :: 0 <= i < |order| ==> (i < m <==> s.scored[order[i]]))
            && Ranked(s, order[..m])
            && Increasing(order[m..])
  {
    hide Distinct, Ranked, RankPlaces, Places;
    var first, last := RankPlaces(s, Places(s.scored, true, |s.hits|)), Places(s.scored, false, |s.hits|);
    FirstPart(s);
    LastPart(s);
    PlacesCount(s.scored, |s.hits|);
    JoinIsDistinct(s, first, last);
    assert Order(s)[..|first|] == first && Order(s)[|first|..] == last;
  }

  /** Place by place: the higher MaxSim first, then the older generation, then the smaller docid. */
  lemma OrderPlaces(s: Stage, i: nat, j: nat)
    requires Complete(s) && i < j < |s.hits|
    ensures |Order(s)| == |s.hits| && Order(s)[i] < |s.hits| && Order(s)[j] < |s.hits|
    ensures var a, b := Order(s)[i], Order(s)[j];
            && a != b && (s.scored[b] ==> s.scored[a])
            && (s.scored[a] && s.scored[b] ==>
                  && s.maxsim[a] >= s.maxsim[b]
                  && (s.maxsim[a] == s.maxsim[b] ==> s.hits[a].generation <= s.hits[b].generation)
                  && (s.maxsim[a] == s.maxsim[b] && s.hits[a].generation == s.hits[b].generation ==>
                        s.hits[a].docid < s.hits[b].docid))
            && (!s.scored[a] && !s.scored[b] ==> a < b)
  {
    OrderIs(s);
    hide Order;
    var order, m := Order(s), |Places(s.scored, true, |s.hits|)|;
    if j < m {
      assert order[..m][i] == order[i] && order[..m][j] == order[j];
    } else if i >= m {
      assert order[m..][i - m] == order[i] && order[m..][j - m] == order[j];
    }
  }

  lemma RankedIsDistinct(s: Stage, order: seq<nat>)
    requires Complete(s) && PlacesOf(s, order) && Ranked(s, order)
    ensures Distinct(order)
  {
    forall i, j | 0 <= i < j < |order| ensures order[i] != order[j] {
      AboveIsTotal(s, order[i], order[i], order[i]);
    }
  }

  // ------------------------------------------------------------------ the program

  method Collect(s: Stage, which: bool, order: array<nat>, from: nat) returns (k: nat)
    requires |s.scored| == |s.hits| && from + |Places(s.scored, which, |s.hits|)| <= order.Length
    modifies order
    ensures k == from + |Places(s.scored, which, |s.hits|)|
    ensures order[..k] == old(order[..from]) + Places(s.scored, which, |s.hits|)
  {
    k := from;
    for i := 0 to |s.hits|
      invariant k == from + |Places(s.scored, which, i)|
      invariant k <= order.Length && order[..k] == old(order[..from]) + Places(s.scored, which, i)
    {
      PlacesGrow(s.scored, which, i + 1, |s.hits|);
      if s.scored[i] == which {
        ghost var was := order[..k];
        order[k] := i;
        k := k + 1;
        assert order[..k] == was + [i];
      }
    }
  }

  lemma {:induction false} PlacesGrow(scored: seq<bool>, which: bool, m: nat, n: nat)
    requires m <= n <= |scored|
    ensures |Places(scored, which, m)| <= |Places(scored, which, n)|
    decreases n
  {
    if m < n {
      PlacesGrow(scored, which, m, n - 1);
    }
  }

  /** The entry v from place a, on its way down: those it has passed have moved up by one. */
  ghost predicate Sliding(s: Stage, whole: seq<nat>, a: nat, b: int, now: seq<nat>) {
    && -1 <= b < a < |whole| && PlacesOf(s, whole[..a + 1])
    && now == whole[..b + 2] + whole[b + 1..a] + whole[a + 1..]
    && InsertPlace(s, whole[..a], whole[a]) == InsertPlace(s, whole[..b + 1], whole[a]) + whole[b + 1..a]
  }

  lemma SlidingStarts(s: Stage, whole: seq<nat>, a: nat)
    requires a < |whole| && PlacesOf(s, whole[..a + 1])
    ensures Sliding(s, whole, a, a - 1, whole) && whole[a] < |s.hits|
  {
    FirstPlaces(s, whole, a);
    assert whole == whole[..a + 1] + whole[a + 1..];
  }

  lemma SlidingReads(s: Stage, whole: seq<nat>, a: nat, b: nat, now: seq<nat>)
    requires Sliding(s, whole, a, b, now)
    ensures b + 1 < |now| && now[b] == whole[b] < |s.hits| && whole[a] < |s.hits|
  {
    FirstPlaces(s, whole, a);
    assert whole[..a + 1][b] == whole[b];
  }

  lemma SlidesOn(s: Stage, whole: seq<nat>, a: nat, b: nat, now: seq<nat>)
    requires Sliding(s, whole, a, b, now) && b + 1 < |now| && whole[b] < |s.hits| && whole[a] < |s.hits|
    requires Above(s, whole[a], whole[b])
    ensures Sliding(s, whole, a, b - 1, now[b + 1 := whole[b]])
  {
    Shifted(whole[..b + 2], whole[b + 1..a], whole[a + 1..], whole[b]);
    FirstPlaces(s, whole, a);
    InsertPlaceBelow(s, whole, a, b);
  }

  lemma SlidingEnds(s: Stage, whole: seq<nat>, a: nat, b: int, now: seq<nat>)
    requires Sliding(s, whole, a, b, now) && whole[a] < |s.hits|
    requires b >= 0 ==> whole[b] < |s.hits| && !Above(s, whole[a], whole[b])
    ensures PlacesOf(s, whole[..a]) && |now| == |whole|
    ensures now[b + 1 := whole[a]][..a + 1] == InsertPlace(s, whole[..a], whole[a])
    ensures now[b + 1 := whole[a]][a + 1..] == whole[a + 1..]
  {
    FirstPlaces(s, whole, a);
    Shifted(whole[..b + 2], whole[b + 1..a], whole[a + 1..], whole[a]);
    Halves(now[b + 1 := whole[a]], whole[..b + 1] + ([whole[a]] + whole[b + 1..a]), whole[a + 1..]);
  }

  lemma InsertPlaceBelow(s: Stage, whole: seq<nat>, a: nat, b: nat)
    requires b < a < |whole| && PlacesOf(s, whole[..a + 1]) && whole[a] < |s.hits| && whole[b] < |s.hits|
    requires Above(s, whole[a], whole[b])
    ensures InsertPlace(s, whole[..b + 1], whole[a]) + whole[b + 1..a] == InsertPlace(s, whole[..b], whole[a]) + whole[b..a]
  {
    var first := whole[..b + 1];
    assert first[..b] == whole[..b] && first[b] == whole[b];
    assert whole[b..a] == [whole[b]] + whole[b + 1..a];
  }

  /** Writing over the entry just before a gap moves the gap down by one. */
  lemma Shifted(first: seq<nat>, middle: seq<nat>, rest: seq<nat>, x: nat)
    requires first != []
    ensures (first + middle + rest)[|first| - 1 := x] == first[..|first| - 1] + ([x] + middle) + rest
  {
  }

  lemma Halves(s: seq<nat>, a: seq<nat>, b: seq<nat>)
    requires s == a + b
    ensures s[..|a|] == a && s[|a|..] == b
  {
  }

  lemma FirstPlaces(s: Stage, order: seq<nat>, a: nat)
    requires a < |order| && PlacesOf(s, order[..a + 1])
    ensures PlacesOf(s, order[..a]) && order[a] < |s.hits|
  {
    assert order[..a + 1][a] == order[a];
    PrefixPlaces(s, order[..a + 1], a);
    assert order[..a + 1][..a] == order[..a];
  }

  /** One step of the insertion sort: the entry at a moves down past those it goes before. */
  method InsertOne(s: Stage, order: array<nat>, a: nat)
    requires |s.maxsim| == |s.hits| && a < order.Length && PlacesOf(s, order[..a + 1])
    modifies order
    ensures PlacesOf(s, old(order[..a])) && old(order[a]) < |s.hits|
    ensures order[..a + 1] == InsertPlace(s, old(order[..a]), old(order[a]))
    ensures order[a + 1..] == old(order[a + 1..])
  {
    hide Sliding, InsertPlace;
    ghost var whole := order[..];
    SlidingStarts(s, whole, a);
    var v := order[a];
    var b: int := a - 1;
    while b >= 0 && Above(s, v, order[b])
      invariant -1 <= b < a && Sliding(s, whole, a, b, order[..])
      invariant b >= 0 ==> order[b] == whole[b] < |s.hits|
      decreases b
    {
      SlidesOn(s, whole, a, b, order[..]);
      order[b + 1] := order[b];
      b := b - 1;
      if b >= 0 {
        SlidingReads(s, whole, a, b, order[..]);
      }
    }
    SlidingEnds(s, whole, a, b, order[..]);
    order[b + 1] := v;
  }

  lemma PrefixPlaces(s: Stage, order: seq<nat>, n: nat)
    requires PlacesOf(s, order) && n <= |order|
    ensures PlacesOf(s, order[..n])
  {
  }

  /** The list while its first a entries are sorted. */
  function PartlyRanked(s: Stage, was: seq<nat>, a: nat): (r: seq<nat>)
    requires PlacesOf(s, was) && a <= |was|
    ensures |r| == |was|
  {
    PrefixPlaces(s, was, a);
    RankPlaces(s, was[..a]) + was[a..]
  }

  method SortNext(s: Stage, order: array<nat>, a: nat, ghost was: seq<nat>)
    requires PlacesOf(s, was) && a < |was| <= order.Length && order[..|was|] == PartlyRanked(s, was, a)
    modifies order
    ensures order[..|was|] == PartlyRanked(s, was, a + 1)
    ensures order[|was|..] == old(order[|was|..])
  {
    hide RankPlaces, InsertPlace, PlacesOf;
    ghost var k := |was|;
    NextPlace(s, was, a);
    ghost var ranked := RankPlaces(s, was[..a]);
    assert order[..k][..a] == order[..a] == ranked;
    assert order[a] == order[..k][a] == was[a];
    assert order[..a + 1] == ranked + [was[a]];
    InsertOne(s, order, a);
    assert order[..k] == order[..a + 1] + old(order[a + 1..])[..k - a - 1];
    assert old(order[a + 1..])[..k - a - 1] == old(order[..k])[a + 1..] == was[a + 1..];
    assert order[k..] == order[a + 1..][k - a - 1..];
  }

  method SortPlaces(s: Stage, order: array<nat>, k: nat)
    requires |s.maxsim| == |s.hits| && k <= order.Length && PlacesOf(s, order[..k])
    modifies order
    ensures PlacesOf(s, old(order[..k])) && order[..k] == RankPlaces(s, old(order[..k]))
    ensures order[k..] == old(order[k..])
  {
    ghost var was := order[..k];
    StartRanked(s, was);
    hide PlacesOf, PartlyRanked, RankPlaces;
    if k > 0 {
      for a := 1 to k
        invariant order[..k] == PartlyRanked(s, was, a)
        invariant order[k..] == old(order[k..])
      {
        SortNext(s, order, a, was);
      }
    }
    EndRanked(s, was);
  }

  lemma StartRanked(s: Stage, was: seq<nat>)
    requires PlacesOf(s, was)
    ensures PartlyRanked(s, was, 0) == was
    ensures |was| > 0 ==> PartlyRanked(s, was, 1) == was
  {
    if |was| > 0 {
      assert was[..1] == [was[0]] && was[..1][..0] == [];
      assert RankPlaces(s, was[..1]) == InsertPlace(s, RankPlaces(s, []), was[0]);
      assert was == [was[0]] + was[1..];
    }
  }

  lemma EndRanked(s: Stage, was: seq<nat>)
    requires PlacesOf(s, was)
    ensures PartlyRanked(s, was, |was|) == RankPlaces(s, was)
  {
    assert was[..|was|] == was;
  }

  lemma NextPlace(s: Stage, was: seq<nat>, a: nat)
    requires PlacesOf(s, was) && a < |was|
    ensures PlacesOf(s, was[..a]) && PlacesOf(s, RankPlaces(s, was[..a]) + [was[a]])
    ensures RankPlaces(s, was[..a + 1]) == InsertPlace(s, RankPlaces(s, was[..a]), was[a])
  {
    assert was[..a + 1][..a] == was[..a];
  }

  function Rescored(s: Stage, place: nat): Hit
    requires place < |s.hits| && |s.maxsim| == |s.scored| == |s.hits|
  {
    if s.scored[place] then s.hits[place].(score := s.maxsim[place]) else s.hits[place]
  }

  method BuildOrder(s: Stage) returns (order: array<nat>)
    requires |s.maxsim| == |s.scored| == |s.hits|
    ensures fresh(order) && order[..] == Order(s)
  {
    hide RankPlaces, Places;
    var n := |s.hits|;
    order := new nat[n](_ => 0);
    PlacesCount(s.scored, n);
    var k := Collect(s, true, order, 0);
    assert order[..k] == Places(s.scored, true, n);
    SortPlaces(s, order, k);
    ghost var ranked := order[..k];
    var all := Collect(s, false, order, k);
    assert order[..all] == ranked + Places(s.scored, false, n) && all == n;
    assert order[..] == order[..n];
  }

  /**
   The first topK of the order are published; of the rest each filename is released, and
   since no place occurs twice in the order, released once and never while published.
   */
  method Publish(s: Stage, topK: nat) returns (results: seq<Hit>, released: seq<nat>)
    requires |s.maxsim| == |s.scored| == |s.hits|
    requires forall i, j :: 0 <= i < j < |s.hits| ==>
               s.hits[i].generation != s.hits[j].generation || s.hits[i].docid != s.hits[j].docid
    ensures var order, keep := Order(s), if topK < |s.hits| then topK else |s.hits|;
            && |order| == |s.hits| && PlacesOf(s, order) && |results| == keep
            && (forall i :: 0 <= i < keep ==> results[i] == Rescored(s, order[i]))
            && released == order[keep..] && Distinct(order)
    ensures var order, keep := Order(s), if topK < |s.hits| then topK else |s.hits|;
            forall i :: 0 <= i < keep ==>
              && order[i] < |s.hits| && results[i].generation == s.hits[order[i]].generation
              && results[i].docid == s.hits[order[i]].docid
              && results[i].score == if s.scored[order[i]] then s.maxsim[order[i]] else s.hits[order[i]].score
  {
    OrderIs(s);
    hide Distinct, Ranked, Order, Increasing;
    var order := BuildOrder(s);
    var keep := if topK < |s.hits| then topK else |s.hits|;
    results := [];
    for i := 0 to keep
      invariant |results| == i && forall j :: 0 <= j < i ==> results[j] == Rescored(s, Order(s)[j])
    {
      assert order[i] == order[..][i];
      results := results + [Rescored(s, order[i])];
    }
    released := order[keep..];
    assert released == order[..][keep..];
  }
}
