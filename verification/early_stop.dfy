/**
 When stopping early is right: the test max_remaining_quantum < diff, where the result
 list's heap holds one document more than the k that were asked for.
 */
module EarlyStop {
  import opened Sequences
  import opened TopKHeap
  import opened ResultLists

  /** Scores that processing the rest could still lead to. */
  ghost predicate Possible(s: seq<nat>, remaining: nat, final: seq<nat>) {
    |final| == |s| && forall d :: 0 <= d < |s| ==> s[d] <= final[d] <= s[d] + remaining
  }

  /** The documents in `best` outrank all others. */
  ghost predicate Outranks(s: seq<nat>, best: set<nat>) {
    forall a: nat, b: nat :: a < |s| && b < |s| && a in best && b !in best ==> Below(s, b, a)
  }

  /** A higher score, or the same score and a higher docid. */
  lemma OutranksIs(s: seq<nat>, best: set<nat>)
    ensures Outranks(s, best) <==>
              forall a: nat, b: nat :: a < |s| && b < |s| && a in best && b !in best ==> s[b] < s[a] || (s[b] == s[a] && b < a)
  {
    assert forall a: nat, b: nat :: a < |s| && b < |s| ==> (Below(s, b, a) <==> s[b] < s[a] || (s[b] == s[a] && b < a));
  }

  /** No outcome changes which documents are best. */
  ghost predicate Settled(s: seq<nat>, best: set<nat>, remaining: nat) {
    forall final :: Possible(s, remaining, final) ==> Outranks(final, best)
  }

  /** `worst` is the lowest of the best documents, `next` the highest of the others. */
  ghost predicate Borders(s: seq<nat>, best: set<nat>, worst: nat, next: nat) {
    && worst < |s| && next < |s| && worst in best && next !in best
    && (forall a: nat :: a < |s| && a in best && a != worst ==> Below(s, worst, a))
    && (forall b: nat :: b < |s| && b !in best && b != next ==> Below(s, b, next))
  }

  /** The best documents are settled exactly when the next one cannot catch up alone. */
  lemma SettledExactly(s: seq<nat>, best: set<nat>, worst: nat, next: nat, remaining: nat)
    requires Borders(s, best, worst, next)
    ensures Settled(s, best, remaining) <==>
              s[next] + remaining < s[worst] || (s[next] + remaining == s[worst] && next < worst)
  {
    var final := s[next := s[next] + remaining];
    assert Possible(s, remaining, final);
    if Settled(s, best, remaining) {
      assert Outranks(final, best);
      assert Below(final, next, worst);
    }
    if s[next] + remaining < s[worst] || (s[next] + remaining == s[worst] && next < worst) {
      forall final | Possible(s, remaining, final) ensures Outranks(final, best) {
        forall a: nat, b: nat | a < |s| && b < |s| && a in best && b !in best ensures Below(final, b, a) {
          assert a == worst || Below(s, worst, a);
          assert b == next || Below(s, b, next);
        }
      }
    }
  }

  /** With a bound `diff` on what is left, the test remaining < diff is right for all values it lets through ... */
  ghost predicate StopIsSound(s: seq<nat>, best: set<nat>, diff: int) {
    forall remaining: nat :: remaining < diff ==> Settled(s, best, remaining)
  }

  /** ... exactly when diff is not above the gap between the k-th and the next document. */
  lemma StopIsSoundExactly(s: seq<nat>, best: set<nat>, worst: nat, next: nat, diff: int)
    requires Borders(s, best, worst, next)
    ensures StopIsSound(s, best, diff) <==>
              diff <= 0 || diff <= Gap(s, worst, next) || (diff == Gap(s, worst, next) + 1 && next < worst)
  {
    if diff > 0 {
      SettledExactly(s, best, worst, next, diff - 1);
      forall remaining: nat | remaining < diff
        ensures Settled(s, best, remaining) <==>
                  s[next] + remaining < s[worst] || (s[next] + remaining == s[worst] && next < worst)
      {
        SettledExactly(s, best, worst, next, remaining);
      }
      BestIsAbove(s, best, worst, next);
      if StopIsSound(s, best, diff) {
        assert Settled(s, best, diff - 1);
      }
    }
  }

  lemma BestIsAbove(s: seq<nat>, best: set<nat>, worst: nat, next: nat)
    requires Borders(s, best, worst, next)
    ensures worst != next
  {
  }

  // ------------------------------------------------------------- what the heap offers

  /** All but the root: the k documents asked for. */
  function Best(p: seq<nat>): (r: set<nat>)
    requires |p| > 0
  {
    Elements(p) - {p[0]}
  }

  /** The true second smallest: the lower of the root's children. */
  function SecondLowest(s: seq<nat>, p: seq<nat>): nat
    requires InRange(s, p) && |p| >= 2
  {
    if |p| == 2 || Below(s, p[1], p[2]) then p[1] else p[2]
  }

  /** A full heap: its root is the best of the rest, and the lower child the worst of the best. */
  lemma HeapBorders(s: seq<nat>, p: seq<nat>, topK: nat)
    requires Lists(s, p, topK) && |p| == topK < |s| && topK >= 2
    ensures Borders(s, Best(p), SecondLowest(s, p), p[0])
    ensures |Best(p)| == topK - 1
  {
    var worst := SecondLowest(s, p);
    assert worst in p && worst != p[0];
    forall a: nat | a < |s| && a in Best(p) && a != worst ensures Below(s, worst, a) {
      var j: nat :| j < |p| && p[j] == a;
      ChildIsNext(s, p, j);
      if |p| > 2 {
        BelowIsTotal(s, p[1], p[2], a);
        BelowIsTotal(s, p[2], p[1], a);
      }
    }
    DistinctCounts(p);
  }

  /**
   The test the code makes is right exactly when the child that lies first in memory does
   not score above the other one -- or scores one above it, on a tie that the root loses.
   */
  lemma PointerOrderStop(s: seq<nat>, p: seq<nat>, topK: nat)
    requires Lists(s, p, topK) && |p| == topK < |s| && topK >= 3
    ensures var first, other := FirstChild(p), OtherChild(p);
            StopIsSound(s, Best(p), Gap(s, first, p[0])) <==>
              s[first] == s[p[0]] || s[first] <= s[other] || (s[first] == s[other] + 1 && p[0] < other)
  {
    HeapBorders(s, p, topK);
    RootIsLeast(s, p, 1);
    RootIsLeast(s, p, 2);
    StopIsSoundExactly(s, Best(p), SecondLowest(s, p), p[0], Gap(s, FirstChild(p), p[0]));
  }

  /** With one document asked for there is only one child, and the test is right. */
  lemma PointerOrderStopOfTwo(s: seq<nat>, p: seq<nat>)
    requires Lists(s, p, 2) && |p| == 2 < |s|
    ensures StopIsSound(s, Best(p), Gap(s, FirstChild(p), p[0]))
  {
    HeapBorders(s, p, 2);
    StopIsSoundExactly(s, Best(p), SecondLowest(s, p), p[0], Gap(s, p[1], p[0]));
  }

  // ----------------------------------------------------------- the order among the best

  /** get_smallest_diff_amoung_the_top(), from position i down: the last gap is not looked at. */
  function SmallestDiff(s: seq<nat>, q: seq<nat>, i: nat): int
    requires InRange(s, q) && |q| >= 2 && i <= |q| - 2
    decreases |q| - 2 - i
  {
    if i == |q| - 2 then s[q[|q| - 2]]
    else
      var diff, rest := Gap(s, q[i + 1], q[i]), SmallestDiff(s, q, i + 1);
      if rest > diff then diff else rest
  }

  lemma {:induction false} SmallestIsBelow(s: seq<nat>, q: seq<nat>, i: nat, j: nat)
    requires InRange(s, q) && |q| >= 2 && i <= j < |q| - 2
    ensures SmallestDiff(s, q, i) <= Gap(s, q[j + 1], q[j])
    decreases j - i
  {
    if i < j {
      SmallestIsBelow(s, q, i + 1, j);
    }
  }

  /** It is the least of those gaps and of the second best score, and one of them. */
  lemma {:induction false} SmallestIs(s: seq<nat>, q: seq<nat>, i: nat)
    requires InRange(s, q) && |q| >= 2 && i <= |q| - 2
    ensures SmallestDiff(s, q, i) <= s[q[|q| - 2]]
    ensures forall j: nat :: i <= j < |q| - 2 ==> SmallestDiff(s, q, i) <= s[q[j + 1]] - s[q[j]] as int
    ensures SmallestDiff(s, q, i) == s[q[|q| - 2]] ||
            exists j: nat :: i <= j < |q| - 2 && SmallestDiff(s, q, i) == Gap(s, q[j + 1], q[j])
    decreases |q| - i
  {
    if i < |q| - 2 {
      SmallestIs(s, q, i + 1);
    }
  }

  /** No outcome changes the order of the list. */
  ghost predicate OrderSettled(s: seq<nat>, q: seq<nat>, remaining: nat)
    requires InRange(s, q)
  {
    forall final :: Possible(s, remaining, final) ==> forall i, j :: 0 <= i < j < |q| ==> Below(final, q[i], q[j])
  }

  lemma PairSettled(s: seq<nat>, q: seq<nat>, remaining: nat, i: nat, j: nat, final: seq<nat>)
    requires ByScore(s, q) && |q| >= 2 && remaining < SmallestDiff(s, q, 0)
    requires i < j < |q| && i < |q| - 2 && Possible(s, remaining, final)
    ensures Below(final, q[i], q[j])
  {
    SmallestIsBelow(s, q, 0, i);
    assert i + 1 < j ==> s[q[i + 1]] <= s[q[j]];
  }

  /**
   When the test on the smallest difference passes, every document of the list but the
   best two has its final place; the best two have theirs exactly when the second cannot
   catch up with the first -- a gap the code does not look at.
   */
  lemma OrderSettledExactly(s: seq<nat>, q: seq<nat>, remaining: nat)
    requires ByScore(s, q) && Distinct(q) && |q| >= 2 && remaining < SmallestDiff(s, q, 0)
    ensures var a, b := q[|q| - 2], q[|q| - 1];
            OrderSettled(s, q, remaining) <==> s[a] + remaining < s[b] || (s[a] + remaining == s[b] && a < b)
  {
    var n := |q| - 2;
    var a, b := q[n], q[n + 1];
    var raised := s[a := s[a] + remaining];
    assert Possible(s, remaining, raised);
    if OrderSettled(s, q, remaining) {
      assert Below(raised, q[n], q[n + 1]);
    }
    if s[a] + remaining < s[b] || (s[a] + remaining == s[b] && a < b) {
      forall final, i: nat, j: nat | Possible(s, remaining, final) && i < j < |q| ensures Below(final, q[i], q[j]) {
        if i < n {
          PairSettled(s, q, remaining, i, j, final);
        }
      }
    }
  }

  /** So the test can pass although the first two may yet change places. */
  lemma TopPairMayChange()
    ensures var s, q, remaining := [10, 20, 21, 0], [0, 1, 2], 5;
            && Lists(s, q, 3) && ByScore(s, q) && remaining < Gap(s, FirstChild(q), q[0])
            && remaining < SmallestDiff(s, q, 0) && !OrderSettled(s, q, remaining)
  {
    var s, q := [10, 20, 21, 0], [0, 1, 2];
    assert Parent(1) == 0 && Parent(2) == 0;
    assert Lists(s, q, 3);
    assert SmallestDiff(s, q, 1) == 20;
    OrderSettledExactly(s, q, 5);
  }

  /**
   When it passes, the documents themselves are settled, whichever child of the root came
   first in memory, and in whatever order the sort has left equal scores.
   */
  lemma SmallestStop(s: seq<nat>, p: seq<nat>, q: seq<nat>, topK: nat, remaining: nat)
    requires Lists(s, p, topK) && |p| == topK < |s| && topK >= 3
    requires SameDocuments(p, q) && ByScore(s, q) && remaining < SmallestDiff(s, q, 0)
    ensures Best(q) == Best(p) && Settled(s, Best(q), remaining)
  {
    HeapBorders(s, p, topK);
    SmallestIsBelow(s, q, 0, 0);
    assert p[0] in q && q[0] in p;
    var i: nat, j: nat :| i < |q| && q[i] == p[0] && j < |p| && p[j] == q[0];
    RootIsLeast(s, p, j);
    assert i == 0;
    var worst := SecondLowest(s, p);
    assert worst in q && worst != q[0];
    var k: nat :| k < |q| && q[k] == worst;
    assert s[q[1]] <= s[q[k]];
    SettledExactly(s, Best(p), worst, p[0], remaining);
  }

  /** Sorting for the second test does not undo the first. */
  lemma StillTested(s: seq<nat>, p: seq<nat>, q: seq<nat>, remaining: nat)
    requires InRange(s, p) && |p| >= 2 && remaining < Gap(s, FirstChild(p), p[0])
    requires SameDocuments(p, q) && ByScore(s, q) && remaining < SmallestDiff(s, q, 0)
    ensures remaining < Gap(s, FirstChild(q), q[0])
  {
    if |p| == 2 {
      assert p[0] in q && p[1] in q;
    } else {
      SmallestIsBelow(s, q, 0, 0);
      assert s[q[1]] <= s[q[2]];
    }
  }

  /**
   With three equal scores, the list can come out with a document under its root that ranks
   below the root, which is how documents outside the list are told from those inside.
   */
  lemma TiesMayBreakHeap()
    ensures var s, p, q := [7, 7, 7, 0], [0, 1, 2], [1, 0, 2];
            && Lists(s, p, 3) && SameDocuments(p, q) && ByScore(s, q)
            && !Lists(s, q, 3) && 0 in q && Below(s, 0, q[0])
  {
    var s, p, q := [7, 7, 7, 0], [0, 1, 2], [1, 0, 2];
    assert Parent(1) == 0 && Parent(2) == 0;
    assert forall d :: d in p <==> d in q;
    assert Lists(s, p, 3);
    assert !HeapFrom(s, q, 0) by {
      assert !Below(s, q[Parent(1)], q[1]);
    }
  }

  /** The loop over the sorted list. */
  method GetSmallestDiff(s: array<nat>, q: array<nat>, n: nat) returns (smallest: int)
    requires 2 <= n <= q.Length && InRange(s[..], q[..n])
    ensures smallest == SmallestDiff(s[..], q[..n], 0)
  {
    smallest := s[q[n - 2]];
    for i := n - 2 downto 0
      invariant smallest == SmallestDiff(s[..], q[..n], i)
    {
      var diff := Gap(s[..], q[i + 1], q[i]);
      if smallest > diff {
        smallest := diff;
      }
    }
  }

  // ------------------------------------------------------------ the lead of the best

  /** Positions a and b hold the best two scores of the list -- but for its last entry. */
  ghost predicate Leads(s: seq<nat>, q: seq<nat>, i: nat, a: nat, b: nat)
    requires InRange(s, q)
  {
    && i <= a < |q| - 1 && i <= b < |q| - 1 && a != b && s[q[b]] <= s[q[a]]
    && forall j :: i <= j < |q| - 1 && j != a ==> s[q[j]] <= s[q[b]]
  }

  /** The difference between them. */
  ghost predicate IsLead(s: seq<nat>, q: seq<nat>, diff: int)
    requires InRange(s, q)
  {
    exists a: nat, b: nat :: Leads(s, q, 0, a, b) && diff == Gap(s, q[a], q[b])
  }

  lemma LeadIsUnique(s: seq<nat>, q: seq<nat>, m: int, n: int)
    requires InRange(s, q) && IsLead(s, q, m) && IsLead(s, q, n)
    ensures m == n
  {
  }

  /** get_diff_between_largest_and_second_largest(), which starts at the last entry but one. */
  method GetLargestDiff(s: array<nat>, q: array<nat>, n: nat) returns (diff: int)
    requires 3 <= n <= q.Length && InRange(s[..], q[..n])
    ensures IsLead(s[..], q[..n], diff)
  {
    var largest, second := n - 2, n - 3;
    if s[q[second]] > s[q[largest]] {
      largest, second := second, largest;
    }
    for i := n - 3 downto 0
      invariant Leads(s[..], q[..n], i, largest, second)
    {
      if s[q[i]] > s[q[second]] {
        if s[q[i]] > s[q[largest]] {
          largest, second := i, largest;
        } else {
          second := i;
        }
      }
    }
    diff := Gap(s[..], q[largest], q[second]);
  }

  /** But for the leader and the last entry, no document scores more than the second. */
  lemma OthersAreBelow(s: seq<nat>, p: seq<nat>, topK: nat, a: nat, b: nat)
    requires Lists(s, p, topK) && |p| == topK < |s| && topK >= 3
    requires Leads(s, p, 0, a, b)
    ensures InRange(s, p) && forall x: nat :: x < |s| && x != p[a] && x != p[|p| - 1] ==> s[x] <= s[p[b]]
  {
    RootIsLeast(s, p, b);
    forall x: nat | x < |s| && x != p[a] && x != p[|p| - 1] ensures s[x] <= s[p[b]] {
      if x in p {
        var j: nat :| j < |p| && p[j] == x;
      } else {
        assert Below(s, x, p[0]);
      }
    }
  }

  /**
   When the test on the lead passes, only the list's last entry, which the code does not
   look at, can still contest the first place: the better of the two is settled as the best
   document exactly when the other cannot catch up with it.
   */
  lemma LargestStop(s: seq<nat>, p: seq<nat>, topK: nat, a: nat, b: nat, remaining: nat)
    requires Lists(s, p, topK) && |p| == topK < |s| && topK >= 3
    requires Leads(s, p, 0, a, b) && remaining < Gap(s, p[a], p[b])
    ensures var last := p[|p| - 1];
            var low, top := if Below(s, last, p[a]) then last else p[a], if Below(s, last, p[a]) then p[a] else last;
            Settled(s, {top}, remaining) <==>
              s[low] + remaining < s[top] || (s[low] + remaining == s[top] && low < top)
  {
    var last := p[|p| - 1];
    var low, top := if Below(s, last, p[a]) then last else p[a], if Below(s, last, p[a]) then p[a] else last;
    var final := s[low := s[low] + remaining];
    assert Possible(s, remaining, final);
    if Settled(s, {top}, remaining) {
      assert Outranks(final, {top});
      assert Below(final, low, top);
    }
    OthersAreBelow(s, p, topK, a, b);
  }

  /** A possible outcome in which x is not below d. */
  lemma Contested(s: seq<nat>, d: nat, remaining: nat, final: seq<nat>, x: nat)
    requires Possible(s, remaining, final) && d < |s| && x < |s| && x != d && !Below(final, x, d)
    ensures !Settled(s, {d}, remaining)
  {
    assert !Outranks(final, {d});
  }

  lemma LeadOfWitness()
    ensures var s, p := [1, 50, 49, 0], [0, 1, 2]; Lists(s, p, 3) && IsLead(s, p, 49)
  {
    var s, p := [1, 50, 49, 0], [0, 1, 2];
    assert Parent(1) == 0 && Parent(2) == 0;
    assert Lists(s, p, 3);
    assert Leads(s, p, 0, 1, 0);
  }

  /** So the test can pass although the first place may yet change hands. */
  lemma LastMayOvertake()
    ensures var s, p, remaining := [1, 50, 49, 0], [0, 1, 2], 10;
            && Lists(s, p, 3) && remaining < Gap(s, FirstChild(p), p[0])
            && (forall diff :: IsLead(s, p, diff) ==> remaining < diff)
            && forall d :: d in p ==> !Settled(s, {d}, remaining)
  {
    hide Lists, IsLead, Settled;
    var s, p: seq<nat> := [1, 50, 49, 0], [0, 1, 2];
    LeadOfWitness();
    forall diff | IsLead(s, p, diff) ensures 10 < diff {
      LeadIsUnique(s, p, diff, 49);
    }
    Contested(s, 0, 10, s, 1);
    Contested(s, 1, 10, [1, 50, 59, 0], 2);
    Contested(s, 2, 10, s, 1);
  }
}
