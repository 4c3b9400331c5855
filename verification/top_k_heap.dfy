/**
 The accumulators and the min-heap over the best of them: ANT_heap as the result list
 uses it, with documents ordered by score and, between equal scores, by position.
 */
module TopKHeap {
  import opened Sequences

  /** Document a ranks below document b. */
  predicate Below(s: seq<nat>, a: nat, b: nat)
    requires a < |s| && b < |s|
  {
    s[a] < s[b] || (s[a] == s[b] && a < b)
  }

  /** How much more a scores than b. */
  function Gap(s: seq<nat>, a: nat, b: nat): int
    requires a < |s| && b < |s|
  {
    var high: int := s[a];
    high - s[b]
  }

  ghost predicate InRange(s: seq<nat>, p: seq<nat>) {
    forall i :: 0 <= i < |p| ==> p[i] < |s|
  }

  function Parent(j: nat): nat
    requires j > 0
  {
    (j - 1) / 2
  }

  /** Every entry whose parent is at `low` or later ranks above that parent. */
  ghost predicate HeapFrom(s: seq<nat>, p: seq<nat>, low: nat)
    requires InRange(s, p)
  {
    forall j :: 1 <= j < |p| && Parent(j) >= low ==> Below(s, p[Parent(j)], p[j])
  }

  /** A heap from `low`, except that entry i may rank above its children. */
  ghost predicate HeapBut(s: seq<nat>, p: seq<nat>, low: nat, i: nat)
    requires InRange(s, p)
  {
    && i < |p|
    && (forall j :: 1 <= j < |p| && Parent(j) >= low && Parent(j) != i ==> Below(s, p[Parent(j)], p[j]))
    && (i > 0 && Parent(i) >= low ==>
          forall j :: 1 <= j < |p| && Parent(j) == i ==> Below(s, p[Parent(i)], p[j]))
  }

  ghost predicate SameDocuments(a: seq<nat>, b: seq<nat>) {
    && |a| == |b| && (forall d :: d in a <==> d in b)
    && (Distinct(a) ==> Distinct(b))
  }

  function Swapped(p: seq<nat>, i: nat, c: nat): (r: seq<nat>)
    requires i < |p| && c < |p|
  {
    p[i := p[c]][c := p[i]]
  }

  lemma SwapKeeps(s: seq<nat>, p: seq<nat>, i: nat, c: nat)
    requires InRange(s, p) && i < |p| && c < |p|
    ensures InRange(s, Swapped(p, i, c)) && SameDocuments(p, Swapped(p, i, c))
  {
    var q := Swapped(p, i, c);
    forall d | d in p ensures d in q {
      var k :| 0 <= k < |p| && p[k] == d;
      assert q[if k == i then c else if k == c then i else k] == d;
    }
  }

  lemma SameTwice(a: seq<nat>, b: seq<nat>, c: seq<nat>)
    requires SameDocuments(a, b) && SameDocuments(b, c)
    ensures SameDocuments(a, c)
  {
  }

  lemma BelowIsTotal(s: seq<nat>, a: nat, b: nat, c: nat)
    requires a < |s| && b < |s| && c < |s|
    ensures Below(s, a, b) || Below(s, b, a) || a == b
    ensures Below(s, a, b) && Below(s, b, c) ==> Below(s, a, c)
    ensures !(Below(s, a, b) && Below(s, b, a)) && !Below(s, a, a)
  {
  }

  /** Moving the smaller child up leaves the order broken one level further down at most. */
  lemma SiftStep(s: seq<nat>, p: seq<nat>, low: nat, i: nat, c: nat)
    requires InRange(s, p) && HeapBut(s, p, low, i) && low <= i < c < |p| && Parent(c) == i
    requires Below(s, p[c], p[i])
    requires forall j :: 1 <= j < |p| && Parent(j) == i && j != c ==> Below(s, p[c], p[j])
    ensures InRange(s, Swapped(p, i, c)) && HeapBut(s, Swapped(p, i, c), low, c)
  {
    var q := Swapped(p, i, c);
    SwapKeeps(s, p, i, c);
    forall j | 1 <= j < |q| && Parent(j) >= low && Parent(j) != c ensures Below(s, q[Parent(j)], q[j]) {
      if Parent(j) == i {
        assert j == c || q[j] == p[j];
      } else if j == i {
        assert Below(s, p[Parent(i)], p[c]);
      }
    }
    forall j | 1 <= j < |q| && Parent(j) == c ensures Below(s, q[Parent(c)], q[j]) {
      assert Below(s, p[c], p[j]);
    }
  }

  lemma SiftDone(s: seq<nat>, p: seq<nat>, low: nat, i: nat)
    requires InRange(s, p) && HeapBut(s, p, low, i)
    requires forall j :: 1 <= j < |p| && Parent(j) == i ==> Below(s, p[i], p[j])
    ensures HeapFrom(s, p, low)
  {
  }

  /** The root of a heap is its lowest entry. */
  lemma {:induction false} RootIsLeast(s: seq<nat>, p: seq<nat>, j: nat)
    requires InRange(s, p) && HeapFrom(s, p, 0) && j < |p|
    ensures j == 0 || Below(s, p[0], p[j])
  {
    if j > 0 {
      RootIsLeast(s, p, Parent(j));
      BelowIsTotal(s, p[0], p[Parent(j)], p[j]);
    }
  }

  /** Every other entry ranks no lower than one of the root's children. */
  lemma {:induction false} ChildIsNext(s: seq<nat>, p: seq<nat>, j: nat)
    requires InRange(s, p) && HeapFrom(s, p, 0) && 1 <= j < |p|
    ensures p[j] == p[1] || Below(s, p[1], p[j]) || (|p| > 2 && (p[j] == p[2] || Below(s, p[2], p[j])))
  {
    if j > 2 {
      ChildIsNext(s, p, Parent(j));
      BelowIsTotal(s, p[1], p[Parent(j)], p[j]);
      BelowIsTotal(s, p[2], p[Parent(j)], p[j]);
    }
  }

  // ------------------------------------------------------------------- sifting

  lemma SameItself(p: seq<nat>)
    ensures SameDocuments(p, p)
  {
  }

  lemma SameDistinct(a: seq<nat>, b: seq<nat>)
    requires SameDocuments(a, b) && Distinct(a)
    ensures Distinct(b)
  {
  }

  lemma Children(i: nat, j: nat)
    requires j > 0
    ensures Parent(j) == i <==> j == 2 * i + 1 || j == 2 * i + 2
  {
  }

  /** What two differing documents' comparison tells. */
  lemma Compares(s: seq<nat>, p: seq<nat>, i: nat, j: nat)
    requires InRange(s, p) && Distinct(p) && i < |p| && j < |p| && i != j
    ensures Below(s, p[i], p[j]) <==> !Below(s, p[j], p[i])
  {
    BelowIsTotal(s, p[i], p[j], p[j]);
  }

  /** The entry at i fits, or `child` is the lower of the children that rank below it. */
  ghost predicate Chosen(s: seq<nat>, p: seq<nat>, i: nat, child: nat)
    requires InRange(s, p) && i < |p|
  {
    if child == i then forall j :: 1 <= j < |p| && Parent(j) == i ==> Below(s, p[i], p[j])
    else
      && i < child < |p| && Parent(child) == i && Below(s, p[child], p[i])
      && forall j :: 1 <= j < |p| && Parent(j) == i && j != child ==> Below(s, p[child], p[j])
  }

  lemma ChosenStep(s: seq<nat>, p: seq<nat>, low: nat, i: nat, child: nat)
    requires InRange(s, p) && HeapBut(s, p, low, i) && low <= i < |p| && Chosen(s, p, i, child)
    ensures child == i ==> HeapFrom(s, p, low)
    ensures child != i ==> i < child < |p| && InRange(s, Swapped(p, i, child)) && HeapBut(s, Swapped(p, i, child), low, child)
    ensures child != i ==> SameDocuments(p, Swapped(p, i, child))
  {
    if child == i {
      SiftDone(s, p, low, i);
    } else {
      SiftStep(s, p, low, i, child);
      SwapKeeps(s, p, i, child);
    }
  }

  /** The child the hole at i moves to: the lower one, if it ranks below the key. */
  method LowerChild(s: array<nat>, p: array<nat>, n: nat, i: nat, key: nat, ghost now: seq<nat>) returns (child: nat)
    requires n <= p.Length && i < n && |now| == n && p[..n][i := key] == now
    requires InRange(s[..], now)
    ensures child == i || (i < child < n && Parent(child) == i)
    ensures Distinct(now) ==> Chosen(s[..], now, i, child)
  {
    var left, right := 2 * i + 1, 2 * i + 2;
    forall j | 1 <= j < n ensures Parent(j) == i <==> j == left || j == right {
      Children(i, j);
    }
    assert now[i] == key && (left < n ==> now[left] == p[left]) && (right < n ==> now[right] == p[right]);
    child := i;
    if left < n && right < n {
      if Distinct(now) {
        Compares(s[..], now, left, i);
        Compares(s[..], now, right, i);
        Compares(s[..], now, left, right);
        BelowIsTotal(s[..], now[left], now[right], now[i]);
        BelowIsTotal(s[..], now[right], now[left], now[i]);
      }
      if !Below(s[..], p[left], key) && !Below(s[..], p[right], key) {
        return;
      } else if Below(s[..], p[left], p[right]) {
        child := left;
      } else {
        child := right;
      }
    } else if left < n {
      if Distinct(now) {
        Compares(s[..], now, left, i);
      }
      if Below(s[..], p[left], key) {
        child := left;
      }
    }
  }

  /**
   min_insert() and min_update() from position i on: entries move up until the key fits.
   A heap but for the hole becomes a heap; whatever else the list was, it stays in bounds.
   */
  method SiftDown(s: array<nat>, p: array<nat>, n: nat, start: nat, key: nat)
    requires s != p && n <= p.Length && start < n && InRange(s[..], p[..n][start := key])
    modifies p
    ensures InRange(s[..], p[..n]) && p[n..] == old(p[n..])
    ensures old(HeapBut(s[..], p[..n][start := key], 0, start) && Distinct(p[..n][start := key])) ==>
              HeapFrom(s[..], p[..n], 0) && Distinct(p[..n]) && SameDocuments(old(p[..n])[start := key], p[..n])
  {
    hide HeapBut, HeapFrom, SameDocuments, Distinct, Below, Chosen;
    var i := start;
    ghost var first, now := p[..n][start := key], p[..n][start := key];
    ghost var scores := s[..];
    ghost var heap := HeapBut(scores, first, 0, start) && Distinct(first);
    SameItself(first);
    var child := LowerChild(s, p, n, i, key, now);
    while child != i
      invariant i < n && |now| == n && p[..n][i := key] == now && InRange(scores, now)
      invariant child == i || (i < child < n && Parent(child) == i)
      invariant heap ==> HeapBut(scores, now, 0, i) && Distinct(now) && SameDocuments(first, now)
      invariant heap ==> Chosen(scores, now, i, child)
      invariant p[n..] == old(p[n..])
      decreases n - i
    {
      if heap {
        ChosenStep(scores, now, 0, i, child);
        SameTwice(first, now, Swapped(now, i, child));
        SameDistinct(now, Swapped(now, i, child));
      }
      SwapKeeps(scores, now, i, child);
      p[i] := p[child];
      now := Swapped(now, i, child);
      i := child;
      assert p[..n][i := key] == now;
      child := LowerChild(s, p, n, i, key, now);
    }
    if heap {
      ChosenStep(scores, now, 0, i, child);
    }
    p[i] := key;
    assert p[..n] == now;
  }

  /** min_heapify(): the entry at i sinks to its place below `low`. */
  method Heapify(s: array<nat>, p: array<nat>, n: nat, low: nat, i: nat)
    requires s != p && n <= p.Length && low <= i < n
    requires InRange(s[..], p[..n]) && HeapBut(s[..], p[..n], low, i) && Distinct(p[..n])
    modifies p
    ensures InRange(s[..], p[..n]) && HeapFrom(s[..], p[..n], low) && Distinct(p[..n])
    ensures SameDocuments(old(p[..n]), p[..n])
    ensures p[n..] == old(p[n..])
    decreases n - i
  {
    hide HeapBut, HeapFrom, SameDocuments, Distinct, InRange, Below, Chosen;
    ghost var before, scores := p[..n], s[..];
    SameItself(before);
    assert p[..n][i := p[i]] == before;
    var smallest := LowerChild(s, p, n, i, p[i], before);
    ChosenStep(scores, before, low, i, smallest);
    if smallest != i {
      SameDistinct(before, Swapped(before, i, smallest));
      p[i], p[smallest] := p[smallest], p[i];
      assert p[..n] == Swapped(before, i, smallest);
      Heapify(s, p, n, low, smallest);
      SameTwice(before, Swapped(before, i, smallest), p[..n]);
    }
  }

  lemma HeapFromBelow(s: seq<nat>, p: seq<nat>, i: nat)
    requires InRange(s, p) && HeapFrom(s, p, i + 1) && i < |p|
    ensures HeapBut(s, p, i, i)
  {
  }

  lemma HeapFromHalf(s: seq<nat>, p: seq<nat>)
    requires InRange(s, p)
    ensures HeapFrom(s, p, |p| / 2)
  {
  }

  /** build_min_heap(): from the last parent back to the root. */
  method BuildMinHeap(s: array<nat>, p: array<nat>, n: nat)
    requires s != p && n <= p.Length && InRange(s[..], p[..n]) && Distinct(p[..n])
    modifies p
    ensures InRange(s[..], p[..n]) && HeapFrom(s[..], p[..n], 0) && Distinct(p[..n])
    ensures SameDocuments(old(p[..n]), p[..n])
    ensures p[n..] == old(p[n..])
  {
    hide HeapBut, HeapFrom, SameDocuments, Distinct, InRange, Below, Chosen;
    HeapFromHalf(s[..], p[..n]);
    SameItself(p[..n]);
    for i := n / 2 downto 0
      invariant InRange(s[..], p[..n]) && HeapFrom(s[..], p[..n], i) && Distinct(p[..n])
      invariant SameDocuments(old(p[..n]), p[..n])
      invariant p[n..] == old(p[n..])
    {
      ghost var before := p[..n];
      HeapFromBelow(s[..], before, i);
      Heapify(s, p, n, i, i);
      SameTwice(old(p[..n]), before, p[..n]);
    }
  }
}
