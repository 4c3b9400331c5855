/** When maintain(), rid of its cap on iterations, comes to rest: the exact condition. */
module Resting {
  import opened SegmentModel
  import opened Operations
  import opened Compaction
  import opened Renumbering
  import opened Maintenance

  /** The index after at most n compactions of what the policy picks. */
  ghost function Steps(ix: Index, mergeFactor: int, ratio: real, n: nat): (jx: Index)
    requires Structured(ix)
    ensures Structured(jx)
    decreases n
  {
    var gens := Candidates(ix.order, ix.shelf, mergeFactor, ratio);
    if n == 0 || gens == [] then ix
    else
      PickedHere(ix, mergeFactor, ratio);
      Steps(Compacted(ix, gens), mergeFactor, ratio, n - 1)
  }

  /** One compaction more. */
  lemma {:induction false} StepsFurther(ix: Index, mergeFactor: int, ratio: real, n: nat)
    requires Structured(ix)
    ensures var jx := Steps(ix, mergeFactor, ratio, n);
            var gens := Candidates(jx.order, jx.shelf, mergeFactor, ratio);
            Steps(ix, mergeFactor, ratio, n + 1) == if gens == [] then jx else Compacted(jx, gens)
    decreases n
  {
    hide Compacted, Candidates, Structured;
    var gens := Candidates(ix.order, ix.shelf, mergeFactor, ratio);
    if gens != [] {
      PickedHere(ix, mergeFactor, ratio);
      if n > 0 {
        StepsFurther(Compacted(ix, gens), mergeFactor, ratio, n - 1);
      } else {
        assert Steps(Compacted(ix, gens), mergeFactor, ratio, 0) == Compacted(ix, gens);
      }
    }
  }

  ghost predicate RestsWithin(ix: Index, mergeFactor: int, ratio: real, n: nat)
    requires Structured(ix)
  {
    var jx := Steps(ix, mergeFactor, ratio, n);
    Quiescent(jx.order, jx.shelf, mergeFactor, ratio)
  }

  ghost predicate Rests(ix: Index, mergeFactor: int, ratio: real)
    requires Structured(ix)
  {
    exists n: nat :: RestsWithin(ix, mergeFactor, ratio, n)
  }

  lemma PickedHere(ix: Index, mergeFactor: int, ratio: real)
    requires Structured(ix)
    ensures var gens := Candidates(ix.order, ix.shelf, mergeFactor, ratio);
            && (gens == [] <==> Quiescent(ix.order, ix.shelf, mergeFactor, ratio))
            && (gens != [] ==> Compactable(ix, gens) && Structured(Compacted(ix, gens)))
  {
    hide Compacted, Candidates, Quiescent;
    var gens := Candidates(ix.order, ix.shelf, mergeFactor, ratio);
    CandidatesArePicked(ix.order, ix.shelf, mergeFactor, ratio);
    if gens != [] {
      CompactedIsStructured(ix, gens);
    }
  }

  /** Compaction neither creates nor loses the last live document. */
  lemma CompactionKeepsLive(ix: Index, gens: seq<nat>)
    requires Structured(ix) && Compactable(ix, gens)
    ensures HasLive(Compacted(ix, gens)) <==> HasLive(ix)
  {
    var jx, out := Compacted(ix, gens), ix.next;
    assert out !in ix.shelf;
    hide MergedDocs, Structured, CompactedShelf;
    if HasLive(ix) {
      var loc: Loc :| loc.generation in ix.order && Alive(ix.shelf, loc);
      if loc.generation in gens {
        var n := MergedHas(ix.shelf, gens, loc);
        CompactedAt(ix.shelf, gens, out, Loc(out, n));
        assert Loc(out, n).generation in jx.order && Alive(jx.shelf, Loc(out, n));
      } else {
        CompactedAt(ix.shelf, gens, out, loc);
        assert loc.generation in jx.order && Alive(jx.shelf, loc);
      }
    }
    if HasLive(jx) {
      var loc: Loc :| loc.generation in jx.order && Alive(jx.shelf, loc);
      CompactedAt(ix.shelf, gens, out, loc);
      if loc.generation == out {
        StoredOrder(ix, gens);
        var origin := MergedFrom(ix.shelf, gens, loc.docid);
        assert origin.generation in ix.order && Alive(ix.shelf, origin);
      } else {
        assert loc.generation in ix.order && Alive(ix.shelf, loc);
      }
    }
  }

  lemma StoredOrder(ix: Index, gens: seq<nat>)
    requires Structured(ix) && Compactable(ix, gens)
    ensures forall g :: g in gens ==> g in ix.shelf
  {
  }

  /** While it can, the policy approaches rest. */
  lemma {:induction false} ComesToRest(ix: Index, mergeFactor: int, ratio: real) returns (n: nat)
    requires Structured(ix) && mergeFactor >= 2 && (ratio >= 0.0 || !HasLive(ix))
    ensures RestsWithin(ix, mergeFactor, ratio, n)
    decreases Unrest(ix)
  {
    hide Structured, Compacted, HasLive, Unrest, Quiescent, Candidates;
    var gens := Candidates(ix.order, ix.shelf, mergeFactor, ratio);
    PickedHere(ix, mergeFactor, ratio);
    n := 0;
    if gens != [] {
      CompactionCalms(ix, mergeFactor, ratio);
      CompactionKeepsLive(ix, gens);
      n := ComesToRest(Compacted(ix, gens), mergeFactor, ratio);
      n := n + 1;
    }
  }

  /** Otherwise some segment is always picked, and there always is one. */
  lemma {:induction false} StaysRestless(ix: Index, mergeFactor: int, ratio: real, n: nat)
    requires Structured(ix) && if mergeFactor <= 1 then ix.order != [] else ratio < 0.0 && HasLive(ix)
    ensures !RestsWithin(ix, mergeFactor, ratio, n)
    decreases n
  {
    hide Structured, HasLive, Quiescent, Compacted, Candidates;
    var gens := Candidates(ix.order, ix.shelf, mergeFactor, ratio);
    PickedHere(ix, mergeFactor, ratio);
    SomethingIsPicked(ix, mergeFactor, ratio);
    if n > 0 {
      CompactionKeepsLive(ix, gens);
      OutputIsListed(ix, gens);
      StaysRestless(Compacted(ix, gens), mergeFactor, ratio, n - 1);
    }
  }

  lemma OutputIsListed(ix: Index, gens: seq<nat>)
    ensures Compacted(ix, gens).order != []
  {
  }

  lemma SomethingIsPicked(ix: Index, mergeFactor: int, ratio: real)
    requires Structured(ix) && if mergeFactor <= 1 then ix.order != [] else ratio < 0.0 && HasLive(ix)
    ensures !Quiescent(ix.order, ix.shelf, mergeFactor, ratio)
  {
    if mergeFactor <= 1 {
      var g := ix.order[0];
      InTierHas(ix.order, ix.shelf, SegmentTier(ix.shelf, g));
      assert g in InTier(ix.order, ix.shelf, SegmentTier(ix.shelf, g));
    } else {
      var loc: Loc :| loc.generation in ix.order && Alive(ix.shelf, loc);
      assert OverDeleted(VolumeAt(ix.shelf, loc.generation), ratio);
    }
  }

  /**
   The policy comes to rest exactly with a merge factor of at least two and a ratio that is
   not negative -- unless there is no disk segment for a smaller factor, or no live document
   in one for a negative ratio, to keep it going.
   */
  lemma RestsExactly(ix: Index, mergeFactor: int, ratio: real)
    requires Structured(ix)
    ensures Rests(ix, mergeFactor, ratio) <==>
            if mergeFactor <= 1 then ix.order == [] else ratio >= 0.0 || !HasLive(ix)
  {
    if mergeFactor <= 1 && ix.order == [] {
      assert RestsWithin(ix, mergeFactor, ratio, 0);
    } else if mergeFactor >= 2 && (ratio >= 0.0 || !HasLive(ix)) {
      var n := ComesToRest(ix, mergeFactor, ratio);
    } else {
      forall n: nat ensures !RestsWithin(ix, mergeFactor, ratio, n) {
        StaysRestless(ix, mergeFactor, ratio, n);
      }
    }
  }
}
