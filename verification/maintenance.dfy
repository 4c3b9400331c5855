/** maintain(): which segments the tiered policy merges, and why it comes to rest. */
module Maintenance {
  import opened Sequences
  import opened SegmentModel
  import opened Operations
  import opened Compaction
  import opened Renumbering
  import opened DocumentCount

  const MAX_CANDIDATES := 1024

  /** The decimal digits of a live-document count. */
  function TierOf(live: int): (tier: nat)
    ensures tier >= 1
  {
    if live < 10 then 1 else 1 + TierOf(live / 10)
  }

  function PowerOfTen(n: nat): (r: nat) {
    if n == 0 then 1 else 10 * PowerOfTen(n - 1)
  }

  lemma {:induction false} TierIsDigits(live: int)
    requires live >= 1
    ensures PowerOfTen(TierOf(live) - 1) <= live < PowerOfTen(TierOf(live))
  {
    if live >= 10 {
      TierIsDigits(live / 10);
    }
  }

  function SegmentTier(shelf: Shelf, g: nat): nat {
    TierOf(VolumeCount(VolumeAt(shelf, g)))
  }

  function InTier(order: seq<nat>, shelf: Shelf, tier: nat): (r: seq<nat>)
  {
    if order == [] then []
    else
      var n := |order| - 1;
      InTier(order[..n], shelf, tier) + (if SegmentTier(shelf, order[n]) == tier then [order[n]] else [])
  }

  predicate Crowded(order: seq<nat>, shelf: Shelf, mergeFactor: int, tier: nat) {
    |InTier(order, shelf, tier)| >= mergeFactor
  }

  /** The members of the first crowded tier, in segment order; [] when none is crowded. */
  function TierTrigger(order: seq<nat>, shelf: Shelf, mergeFactor: int, from: nat): (r: seq<nat>)
    requires from <= |order|
    decreases |order| - from
  {
    if from == |order| then []
    else
      var tier := SegmentTier(shelf, order[from]);
      if Crowded(order, shelf, mergeFactor, tier) then
        var members := InTier(order, shelf, tier);
        if |members| <= MAX_CANDIDATES then members else members[..MAX_CANDIDATES]
      else TierTrigger(order, shelf, mergeFactor, from + 1)
  }

  predicate OverDeleted(v: Volume, ratio: real) {
    |v.docs| > 0 && |v.dead| as real / |v.docs| as real > ratio
  }

  /** Over-deleted segments join whatever the tier trigger chose. */
  function Joined(chosen: seq<nat>, order: seq<nat>, shelf: Shelf, ratio: real): (r: seq<nat>)
  {
    if order == [] then chosen
    else
      var n := |order| - 1;
      var so := Joined(chosen, order[..n], shelf, ratio);
      if |so| < MAX_CANDIDATES && OverDeleted(VolumeAt(shelf, order[n]), ratio) && order[n] !in so
      then so + [order[n]] else so
  }

  function Candidates(order: seq<nat>, shelf: Shelf, mergeFactor: int, ratio: real): seq<nat> {
    Joined(TierTrigger(order, shelf, mergeFactor, 0), order, shelf, ratio)
  }

  /** Neither trigger fires. */
  ghost predicate Quiescent(order: seq<nat>, shelf: Shelf, mergeFactor: int, ratio: real) {
    && (forall g :: g in order ==> !Crowded(order, shelf, mergeFactor, SegmentTier(shelf, g)))
    && (forall g :: g in order ==> !OverDeleted(VolumeAt(shelf, g), ratio))
  }

  // --------------------------------------------------------- what the triggers pick

  lemma {:induction false} InTierHas(order: seq<nat>, shelf: Shelf, tier: nat)
    ensures forall g :: g in InTier(order, shelf, tier) <==> g in order && SegmentTier(shelf, g) == tier
    ensures Distinct(order) ==> Distinct(InTier(order, shelf, tier))
  {
    if order != [] {
      var n := |order| - 1;
      InTierHas(order[..n], shelf, tier);
      assert order == order[..n] + [order[n]];
    }
  }

  lemma {:induction false} TierTriggerPicks(order: seq<nat>, shelf: Shelf, mergeFactor: int, from: nat)
    requires from <= |order| && Distinct(order)
    ensures var r := TierTrigger(order, shelf, mergeFactor, from);
            && Distinct(r) && |r| <= MAX_CANDIDATES && (forall g :: g in r ==> g in order)
            && (r == [] <==> forall i :: from <= i < |order| ==> !Crowded(order, shelf, mergeFactor, SegmentTier(shelf, order[i])))
            && (r != [] && mergeFactor >= 2 ==> |r| >= 2)
    decreases |order| - from
  {
    hide InTier, SegmentTier;
    if from < |order| {
      var tier := SegmentTier(shelf, order[from]);
      if Crowded(order, shelf, mergeFactor, tier) {
        InTierHas(order, shelf, tier);
        assert order[from] in InTier(order, shelf, tier);
      } else {
        TierTriggerPicks(order, shelf, mergeFactor, from + 1);
      }
    }
  }

  lemma {:induction false} JoinedPicks(chosen: seq<nat>, order: seq<nat>, shelf: Shelf, ratio: real)
    requires Distinct(chosen) && |chosen| <= MAX_CANDIDATES
    ensures var r := Joined(chosen, order, shelf, ratio);
            && Distinct(r) && chosen <= r && |r| <= MAX_CANDIDATES
            && (forall g :: g in r ==> g in chosen || (g in order && OverDeleted(VolumeAt(shelf, g), ratio)))
            && (|r| < MAX_CANDIDATES ==> forall g :: g in order && OverDeleted(VolumeAt(shelf, g), ratio) ==> g in r)
  {
    if order != [] {
      var n := |order| - 1;
      JoinedPicks(chosen, order[..n], shelf, ratio);
      assert order == order[..n] + [order[n]];
    }
  }

  /** The candidates are usable inputs of compact(), and there are none exactly at rest. */
  lemma CandidatesArePicked(order: seq<nat>, shelf: Shelf, mergeFactor: int, ratio: real)
    requires Distinct(order)
    ensures var r := Candidates(order, shelf, mergeFactor, ratio);
            && Distinct(r) && |r| <= MAX_CANDIDATES && (forall g :: g in r ==> g in order)
            && (r == [] <==> Quiescent(order, shelf, mergeFactor, ratio))
            && (mergeFactor >= 2 && |r| == 1 ==> OverDeleted(VolumeAt(shelf, r[0]), ratio))
  {
    var t := TierTrigger(order, shelf, mergeFactor, 0);
    TierTriggerPicks(order, shelf, mergeFactor, 0);
    JoinedPicks(t, order, shelf, ratio);
    assert t == [] <==> forall g :: g in order ==> !Crowded(order, shelf, mergeFactor, SegmentTier(shelf, g));
  }

  // ------------------------------------------------ what they pick, in segment counts

  /** Tier t holds the counts of t digits; tier 1 whatever is below ten. */
  lemma {:induction false} TierIs(live: int, t: nat)
    ensures TierOf(live) == t <==> t >= 1 && live < PowerOfTen(t) && (t > 1 ==> PowerOfTen(t - 1) <= live)
  {
    if live >= 1 {
      TierIsDigits(live);
      PowersGrow(TierOf(live), t);
      PowersGrow(t, TierOf(live));
    } else {
      PowersGrow(1, t);
      assert TierOf(live) == 1;
    }
  }

  lemma {:induction false} PowersGrow(m: nat, n: nat)
    ensures PowerOfTen(n) >= 1
    ensures m < n ==> PowerOfTen(m) <= PowerOfTen(n - 1) && PowerOfTen(m) < PowerOfTen(n)
    decreases n
  {
    if n > 0 {
      PowersGrow(m, n - 1);
    }
  }

  /** The segments whose number of live documents has t digits. */
  function Members(order: seq<nat>, shelf: Shelf, t: nat): (r: set<nat>) {
    set g | g in order && TierOf(|VolumeAt(shelf, g).docs| - |VolumeAt(shelf, g).dead|) == t
  }

  lemma InTierCounts(order: seq<nat>, shelf: Shelf, t: nat)
    requires Distinct(order)
    ensures |InTier(order, shelf, t)| == |Members(order, shelf, t)|
    ensures forall g :: g in InTier(order, shelf, t) <==> g in Members(order, shelf, t)
  {
    InTierHas(order, shelf, t);
    assert Elements(InTier(order, shelf, t)) == Members(order, shelf, t);
    DistinctCounts(InTier(order, shelf, t));
  }

  /** Members come in the order of the segments. */
  lemma {:induction false} InTierOrder(order: seq<nat>, shelf: Shelf, t: nat, i: nat, j: nat)
    requires i < j < |order| && order[i] in Members(order, shelf, t) && order[j] in Members(order, shelf, t)
    ensures exists a, b :: 0 <= a < b < |InTier(order, shelf, t)|
              && InTier(order, shelf, t)[a] == order[i] && InTier(order, shelf, t)[b] == order[j]
    decreases |order|
  {
    var n := |order| - 1;
    var so := InTier(order[..n], shelf, t);
    if j < n {
      InTierOrder(order[..n], shelf, t, i, j);
      var a, b :| 0 <= a < b < |so| && so[a] == order[i] && so[b] == order[j];
      assert InTier(order, shelf, t)[a] == order[i] && InTier(order, shelf, t)[b] == order[j];
    } else {
      InTierHas(order[..n], shelf, t);
      assert order[..n][i] in so;
      var a :| 0 <= a < |so| && so[a] == order[i];
      assert InTier(order, shelf, t)[a] == order[i] && InTier(order, shelf, t)[|so|] == order[j];
    }
  }

  /** Segment i is the first in segment order whose tier has at least mergeFactor members. */
  ghost predicate FirstCrowded(order: seq<nat>, shelf: Shelf, mergeFactor: int, i: nat, t: nat) {
    && i < |order| && order[i] in Members(order, shelf, t) && |Members(order, shelf, t)| >= mergeFactor
    && forall j: nat, u: nat :: j < i && order[j] in Members(order, shelf, u) ==> |Members(order, shelf, u)| < mergeFactor
  }

  function AtMost(s: seq<nat>, n: nat): (r: seq<nat>)
    ensures |r| <= n && r <= s && (|s| <= n ==> r == s) && (|s| > n ==> |r| == n)
  {
    if |s| <= n then s else s[..n]
  }

  /** The tier trigger: that tier's members, the first 1024 if there are more. */
  lemma {:induction false} TierTriggerIs(order: seq<nat>, shelf: Shelf, mergeFactor: int, from: nat)
    requires from <= |order| && Distinct(order)
    requires forall j: nat, u: nat :: j < from && order[j] in Members(order, shelf, u) ==> |Members(order, shelf, u)| < mergeFactor
    ensures var r := TierTrigger(order, shelf, mergeFactor, from);
            if r == [] then forall i: nat, t: nat :: !FirstCrowded(order, shelf, mergeFactor, i, t)
            else exists i: nat, t: nat :: FirstCrowded(order, shelf, mergeFactor, i, t)
                   && r == AtMost(InTier(order, shelf, t), 1024)
    decreases |order| - from
  {
    hide InTier, Members;
    if from < |order| {
      var tier := SegmentTier(shelf, order[from]);
      MemberOf(order, shelf, from);
      InTierCounts(order, shelf, tier);
      if Crowded(order, shelf, mergeFactor, tier) {
        assert FirstCrowded(order, shelf, mergeFactor, from, tier);
        assert order[from] in InTier(order, shelf, tier);
      } else {
        TierTriggerIs(order, shelf, mergeFactor, from + 1);
      }
    }
  }

  lemma MemberOf(order: seq<nat>, shelf: Shelf, i: nat)
    requires i < |order|
    ensures forall t: nat :: order[i] in Members(order, shelf, t) <==> t == SegmentTier(shelf, order[i])
  {
  }

  lemma FirstCrowdedIsOne(order: seq<nat>, shelf: Shelf, mergeFactor: int, i: nat, t: nat, j: nat, u: nat)
    requires FirstCrowded(order, shelf, mergeFactor, i, t) && FirstCrowded(order, shelf, mergeFactor, j, u)
    ensures i == j && t == u
  {
  }

  lemma TierTriggerExactly(order: seq<nat>, shelf: Shelf, mergeFactor: int)
    requires Distinct(order)
    ensures var r := TierTrigger(order, shelf, mergeFactor, 0);
            && (forall i: nat, t: nat :: FirstCrowded(order, shelf, mergeFactor, i, t) ==> r == AtMost(InTier(order, shelf, t), 1024))
            && ((forall i: nat, t: nat :: !FirstCrowded(order, shelf, mergeFactor, i, t)) <==> r == [])
  {
    var r := TierTrigger(order, shelf, mergeFactor, 0);
    TierTriggerIs(order, shelf, mergeFactor, 0);
    hide InTier, Members, TierTrigger;
    forall i: nat, t: nat | FirstCrowded(order, shelf, mergeFactor, i, t)
      ensures r == AtMost(InTier(order, shelf, t), 1024) && r != []
    {
      var j: nat, u: nat :| FirstCrowded(order, shelf, mergeFactor, j, u) && r == AtMost(InTier(order, shelf, u), 1024);
      FirstCrowdedIsOne(order, shelf, mergeFactor, i, t, j, u);
    }
  }

  /** More than `ratio` of its documents are tombstoned. */
  ghost predicate TooDead(shelf: Shelf, g: nat, ratio: real) {
    |VolumeAt(shelf, g).docs| > 0 && |VolumeAt(shelf, g).dead| as real > ratio * |VolumeAt(shelf, g).docs| as real
  }

  lemma OverDeletedIs(shelf: Shelf, g: nat, ratio: real)
    ensures OverDeleted(VolumeAt(shelf, g), ratio) <==> TooDead(shelf, g, ratio)
  {
    var v := VolumeAt(shelf, g);
    if |v.docs| > 0 {
      var docs, dead := |v.docs| as real, |v.dead| as real;
      assert dead == dead / docs * docs;
      if dead / docs > ratio {
        Scales(dead / docs, ratio, docs);
      } else if dead / docs < ratio {
        Scales(ratio, dead / docs, docs);
      }
    }
  }

  lemma Scales(a: real, b: real, c: real)
    requires a > b && c > 0.0
    ensures a * c > b * c
  {
  }

  /**
   Which segments a round of maintain() compacts: all of the first crowded tier, or its first
   1024, and with them -- or alone, where no tier is crowded -- whatever is too dead, up to
   1024 in all; and none besides.
   */
  lemma CandidatesAre(order: seq<nat>, shelf: Shelf, mergeFactor: int, ratio: real)
    requires Distinct(order)
    ensures var r := Candidates(order, shelf, mergeFactor, ratio);
            && |r| <= 1024
            && (forall i: nat, t: nat :: FirstCrowded(order, shelf, mergeFactor, i, t) ==>
                  && AtMost(InTier(order, shelf, t), 1024) <= r
                  && forall g :: g in r ==> g in Members(order, shelf, t) || (g in order && TooDead(shelf, g, ratio)))
            && ((forall i: nat, t: nat :: !FirstCrowded(order, shelf, mergeFactor, i, t)) ==>
                  forall g :: g in r ==> g in order && TooDead(shelf, g, ratio))
            && (|r| < 1024 ==> forall g :: g in order && TooDead(shelf, g, ratio) ==> g in r)
  {
    var chosen, r := TierTrigger(order, shelf, mergeFactor, 0), Candidates(order, shelf, mergeFactor, ratio);
    TierTriggerPicks(order, shelf, mergeFactor, 0);
    TierTriggerIs(order, shelf, mergeFactor, 0);
    JoinedPicks(chosen, order, shelf, ratio);
    forall g ensures OverDeleted(VolumeAt(shelf, g), ratio) <==> TooDead(shelf, g, ratio) {
      OverDeletedIs(shelf, g, ratio);
    }
    hide InTier, Members, TierTrigger, Joined, OverDeleted, TooDead, FirstCrowded;
    forall i: nat, t: nat | FirstCrowded(order, shelf, mergeFactor, i, t)
      ensures chosen == AtMost(InTier(order, shelf, t), 1024) && forall g :: g in chosen ==> g in Members(order, shelf, t)
    {
      var j: nat, u: nat :| FirstCrowded(order, shelf, mergeFactor, j, u) && chosen == AtMost(InTier(order, shelf, u), 1024);
      FirstCrowdedIsOne(order, shelf, mergeFactor, i, t, j, u);
      InTierCounts(order, shelf, t);
    }
  }

  // ---------------------------------------------------------------------- termination

  function TotalDead(order: seq<nat>, shelf: Shelf): (r: nat)
  {
    if order == [] then 0
    else TotalDead(order[..|order| - 1], shelf) + |VolumeAt(shelf, order[|order| - 1]).dead|
  }

  /** What every compaction the policy asks for makes smaller. */
  function Unrest(ix: Index): nat {
    |ix.order| + TotalDead(ix.order, ix.shelf)
  }

  lemma {:induction false} WithoutCounts(order: seq<nat>, gone: set<nat>)
    requires Distinct(order)
    ensures |Without(order, gone)| + |gone * Elements(order)| == |order|
  {
    if order != [] {
      var n := |order| - 1;
      WithoutCounts(order[..n], gone);
      SharedNext(order, gone);
    }
  }

  lemma SharedNext(order: seq<nat>, gone: set<nat>)
    requires Distinct(order) && order != []
    ensures var n := |order| - 1;
            |gone * Elements(order)| == |gone * Elements(order[..n])| + if order[n] in gone then 1 else 0
  {
    var n := |order| - 1;
    assert order == order[..n] + [order[n]];
    assert Elements(order) == Elements(order[..n]) + {order[n]};
    CountsNext(gone, Elements(order[..n]), order[n]);
  }

  lemma CountsNext(gone: set<nat>, a: set<nat>, x: nat)
    requires x !in a
    ensures |gone * (a + {x})| == |gone * a| + if x in gone then 1 else 0
  {
    assert gone * (a + {x}) == if x in gone then gone * a + {x} else gone * a;
  }

  lemma {:induction false} WithoutDead(order: seq<nat>, shelf: Shelf, after: Shelf, gone: set<nat>)
    requires Distinct(order)
    requires forall g :: g in order && g !in gone ==> VolumeAt(after, g) == VolumeAt(shelf, g)
    ensures TotalDead(Without(order, gone), after) <= TotalDead(order, shelf)
    ensures forall g :: g in order && g in gone ==>
              TotalDead(Without(order, gone), after) + |VolumeAt(shelf, g).dead| <= TotalDead(order, shelf)
  {
    if order != [] {
      var n := |order| - 1;
      WithoutDead(order[..n], shelf, after, gone);
      TotalDeadNext(Without(order[..n], gone), order[n], after);
      assert order == order[..n] + [order[n]];
    }
  }

  lemma TotalDeadNext(rest: seq<nat>, g: nat, shelf: Shelf)
    ensures TotalDead(rest + [g], shelf) == TotalDead(rest, shelf) + |VolumeAt(shelf, g).dead|
  {
    assert (rest + [g])[..|rest|] == rest;
  }

  /** Some disk segment holds a live document. */
  ghost predicate HasLive(ix: Index) {
    exists loc: Loc :: loc.generation in ix.order && Alive(ix.shelf, loc)
  }

  /**
   Each compaction of candidates brings the index closer to rest.  A negative ratio does no
   harm while all documents are dead.
   */
  lemma CompactionCalms(ix: Index, mergeFactor: int, ratio: real)
    requires Structured(ix) && mergeFactor >= 2 && (ratio >= 0.0 || !HasLive(ix))
    requires Candidates(ix.order, ix.shelf, mergeFactor, ratio) != []
    ensures var gens := Candidates(ix.order, ix.shelf, mergeFactor, ratio);
            Compactable(ix, gens) && Unrest(Compacted(ix, gens)) < Unrest(ix)
  {
    var gens := Candidates(ix.order, ix.shelf, mergeFactor, ratio);
    CandidatesArePicked(ix.order, ix.shelf, mergeFactor, ratio);
    CompactionShrinks(ix, gens);
    if |gens| == 1 {
      OverDeletedHasDead(ix, gens[0], ratio);
    }
  }

  lemma OverDeletedHasDead(ix: Index, g: nat, ratio: real)
    requires g in ix.order && Structured(ix) && OverDeleted(VolumeAt(ix.shelf, g), ratio)
    requires ratio >= 0.0 || !HasLive(ix)
    ensures |VolumeAt(ix.shelf, g).dead| > 0
  {
    if ratio < 0.0 {
      assert !Alive(ix.shelf, Loc(g, 0));
    }
  }

  /** k inputs become one segment without tombstones. */
  lemma CompactionShrinks(ix: Index, gens: seq<nat>)
    requires Structured(ix) && Compactable(ix, gens)
    ensures var jx := Compacted(ix, gens);
            && |jx.order| == |ix.order| - |gens| + 1
            && TotalDead(jx.order, jx.shelf) + |VolumeAt(ix.shelf, gens[0]).dead| <= TotalDead(ix.order, ix.shelf)
  {
    var jx, gone := Compacted(ix, gens), Elements(gens);
    assert ix.next !in ix.shelf && ix.next !in Elements(ix.order);
    assert gone * Elements(ix.order) == gone;
    var rest := Without(ix.order, gone);
    assert jx.order == rest + [ix.next];
    TotalDeadNext(rest, ix.next, jx.shelf);
    assert VolumeAt(jx.shelf, ix.next).dead == {};
    hide Merge, Inputs, MergedDocs, Structured;
    WithoutCounts(ix.order, gone);
    DistinctCounts(gens);
    WithoutDead(ix.order, ix.shelf, jx.shelf, gone);
  }

  /** The policy without its cap of iterations, as far as it runs. */
  ghost function Settled(ix: Index, mergeFactor: int, ratio: real): (jx: Index)
    requires Structured(ix) && mergeFactor >= 2 && ratio >= 0.0
    ensures Structured(jx)
    decreases Unrest(ix)
  {
    var gens := Candidates(ix.order, ix.shelf, mergeFactor, ratio);
    if gens == [] then ix
    else
      CompactionCalms(ix, mergeFactor, ratio);
      CompactedIsStructured(ix, gens);
      Settled(Compacted(ix, gens), mergeFactor, ratio)
  }

  /** Without the cap the policy terminates, at rest, having changed nothing a caller sees. */
  lemma {:induction false} SettlesAtRest(ix: Index, mergeFactor: int, ratio: real)
    requires Consistent(ix) && mergeFactor >= 2 && ratio >= 0.0
    ensures var jx := Settled(ix, mergeFactor, ratio);
            && Consistent(jx) && Contents(jx) == Contents(ix) && Flushable(jx) == Flushable(ix)
            && Quiescent(jx.order, jx.shelf, mergeFactor, ratio)
    decreases Unrest(ix)
  {
    hide Quiescent, Mirrored, Contents, Flushable, Coherent, Compacted, Candidates;
    var gens := Candidates(ix.order, ix.shelf, mergeFactor, ratio);
    CandidatesArePicked(ix.order, ix.shelf, mergeFactor, ratio);
    if gens != [] {
      CompactionCalms(ix, mergeFactor, ratio);
      CompactPreserves(ix, gens);
      SettlesAtRest(Compacted(ix, gens), mergeFactor, ratio);
    }
  }

  // ------------------------------------------------------------- how many segments at rest

  function TotalLive(order: seq<nat>, shelf: Shelf): int
  {
    if order == [] then 0
    else TotalLive(order[..|order| - 1], shelf) + VolumeCount(VolumeAt(shelf, order[|order| - 1]))
  }

  /** The members of tiers 1 to t. */
  function UpToTier(order: seq<nat>, shelf: Shelf, t: nat): (r: nat) {
    if t == 0 then 0 else UpToTier(order, shelf, t - 1) + |InTier(order, shelf, t)|
  }

  lemma {:induction false} TierGrows(a: int, b: int)
    requires a <= b
    ensures TierOf(a) <= TierOf(b)
    decreases b
  {
    if a >= 10 {
      TierGrows(a / 10, b / 10);
    }
  }

  lemma {:induction false} PartOfTotal(order: seq<nat>, shelf: Shelf)
    requires forall g :: g in order ==> VolumeCount(VolumeAt(shelf, g)) >= 0
    ensures TotalLive(order, shelf) >= 0
    ensures forall g :: g in order ==> VolumeCount(VolumeAt(shelf, g)) <= TotalLive(order, shelf)
  {
    if order != [] {
      var n := |order| - 1;
      assert order == order[..n] + [order[n]];
      PartOfTotal(order[..n], shelf);
    }
  }

  lemma {:induction false} UpToTierAdds(order: seq<nat>, shelf: Shelf, t: nat)
    requires order != []
    ensures var n := |order| - 1;
            UpToTier(order, shelf, t) == UpToTier(order[..n], shelf, t) + if SegmentTier(shelf, order[n]) <= t then 1 else 0
    decreases t
  {
    if t > 0 {
      UpToTierAdds(order, shelf, t - 1);
    }
  }

  lemma {:induction false} TiersCoverAll(order: seq<nat>, shelf: Shelf, t: nat)
    requires forall g :: g in order ==> SegmentTier(shelf, g) <= t
    ensures UpToTier(order, shelf, t) == |order|
  {
    if order == [] {
      NoneInTiers(shelf, t);
    } else {
      var n := |order| - 1;
      assert order == order[..n] + [order[n]];
      TiersCoverAll(order[..n], shelf, t);
      UpToTierAdds(order, shelf, t);
    }
  }

  lemma {:induction false} NoneInTiers(shelf: Shelf, t: nat)
    ensures UpToTier([], shelf, t) == 0
  {
    if t > 0 {
      NoneInTiers(shelf, t - 1);
    }
  }

  lemma MembersAreFew(order: seq<nat>, shelf: Shelf, mergeFactor: int, ratio: real, t: nat)
    requires Quiescent(order, shelf, mergeFactor, ratio) && mergeFactor >= 1
    ensures |InTier(order, shelf, t)| <= mergeFactor - 1
  {
    var members := InTier(order, shelf, t);
    InTierHas(order, shelf, t);
    if members != [] {
      assert members[0] in order && SegmentTier(shelf, members[0]) == t;
    }
  }

  lemma {:induction false} FewPerTier(order: seq<nat>, shelf: Shelf, mergeFactor: int, ratio: real, t: nat)
    requires Quiescent(order, shelf, mergeFactor, ratio) && mergeFactor >= 1
    ensures UpToTier(order, shelf, t) <= (mergeFactor - 1) * t
  {
    hide Quiescent, InTier;
    if t > 0 {
      FewPerTier(order, shelf, mergeFactor, ratio, t - 1);
      MembersAreFew(order, shelf, mergeFactor, ratio, t);
      assert (mergeFactor - 1) * t == (mergeFactor - 1) * (t - 1) + (mergeFactor - 1);
    }
  }

  lemma CountIsNatural(v: Volume)
    requires WellKept(v)
    ensures VolumeCount(v) >= 0
  {
    VolumeCountIsLive(v);
  }

  /**
   At rest there are at most mergeFactor - 1 segments for each decimal digit of the
   number of live documents, and none of them is over-deleted.
   */
  lemma AtRestSegmentsAreFew(ix: Index, mergeFactor: int, ratio: real)
    requires Structured(ix) && mergeFactor >= 1
    requires Quiescent(ix.order, ix.shelf, mergeFactor, ratio)
    ensures |ix.order| <= (mergeFactor - 1) * TierOf(TotalLive(ix.order, ix.shelf))
    ensures forall g :: g in ix.order ==> !OverDeleted(ix.shelf[g], ratio)
  {
    forall g | g in ix.order ensures g in ix.shelf && VolumeCount(VolumeAt(ix.shelf, g)) >= 0 {
      assert g in Elements(ix.order);
      assert WellKept(ix.shelf[g]);
      CountIsNatural(ix.shelf[g]);
    }
    PartOfTotal(ix.order, ix.shelf);
    var t := TierOf(TotalLive(ix.order, ix.shelf));
    forall g | g in ix.order ensures SegmentTier(ix.shelf, g) <= t {
      TierGrows(VolumeCount(VolumeAt(ix.shelf, g)), TotalLive(ix.order, ix.shelf));
    }
    TiersCoverAll(ix.order, ix.shelf, t);
    FewPerTier(ix.order, ix.shelf, mergeFactor, ratio, t);
  }

  // ------------------------------------------------------ for the loops of maintain()

  lemma {:induction false} InTierPrefix(order: seq<nat>, shelf: Shelf, tier: nat, n: nat)
    requires n <= |order|
    ensures InTier(order[..n], shelf, tier) <= InTier(order, shelf, tier)
    decreases |order|
  {
    if n < |order| {
      var m := |order| - 1;
      InTierPrefix(order[..m], shelf, tier, n);
      assert order[..m][..n] == order[..n];
    } else {
      assert order[..n] == order;
    }
  }

  lemma {:induction false} JoinedFull(chosen: seq<nat>, order: seq<nat>, shelf: Shelf, ratio: real, n: nat)
    requires n <= |order| && |Joined(chosen, order[..n], shelf, ratio)| >= MAX_CANDIDATES
    ensures Joined(chosen, order, shelf, ratio) == Joined(chosen, order[..n], shelf, ratio)
    decreases |order|
  {
    if n < |order| {
      var m := |order| - 1;
      assert order[..m][..n] == order[..n];
      JoinedFull(chosen, order[..m], shelf, ratio, n);
    } else {
      assert order[..n] == order;
    }
  }
}
