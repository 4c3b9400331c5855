/** The result list: one accumulator per document, and the best `topK` documents so far. */
module ResultLists {
  import opened Sequences
  import opened TopKHeap

  /**
   While it is not full, or is to hold every document, the list has exactly the documents
   found; once full it is a heap of documents found that no other document outranks.
   */
  ghost predicate Lists(s: seq<nat>, p: seq<nat>, topK: nat) {
    && InRange(s, p) && Distinct(p) && |p| <= topK <= |s|
    && if |p| < topK || topK == |s| then
         forall d :: 0 <= d < |s| ==> (d in p <==> s[d] > 0)
       else
         && HeapFrom(s, p, 0) && |p| > 0 && (forall d: nat :: d < |s| && d !in p ==> Below(s, d, p[0]))
         && (forall i :: 0 <= i < |p| ==> s[p[i]] > 0)
  }

  /** In bounds; and as above, unless it is full, when sorting may have upset the heap. */
  ghost predicate Holds(s: seq<nat>, p: seq<nat>, topK: nat) {
    && InRange(s, p) && |p| <= topK <= |s|
    && (|p| < topK || topK == |s| ==> Lists(s, p, topK))
  }

  lemma ListsHolds(s: seq<nat>, p: seq<nat>, topK: nat)
    requires Lists(s, p, topK)
    ensures Holds(s, p, topK)
  {
  }

  function Raised(s: seq<nat>, d: nat, score: nat): (r: seq<nat>)
    requires d < |s|
  {
    s[d := s[d] + score]
  }

  /** Pointers are compared, not scores: the child with the smaller document number. */
  function FirstChild(p: seq<nat>): (r: nat)
    requires |p| >= 2
    ensures (r == p[1] || (|p| > 2 && r == p[2])) && forall i :: 1 <= i < |p| && i <= 2 ==> r <= p[i]
  {
    if |p| == 2 || p[1] <= p[2] then p[1] else p[2]
  }

  function OtherChild(p: seq<nat>): (r: nat)
    requires |p| >= 3
    ensures (r == p[1] || r == p[2]) && r >= p[1] && r >= p[2]
  {
    if p[1] <= p[2] then p[2] else p[1]
  }

  // --------------------------------------------------- how one addition changes the list

  lemma FoundFirst(s: seq<nat>, p: seq<nat>, topK: nat, d: nat, score: nat)
    requires Lists(s, p, topK) && (|p| < topK || topK == |s|) && d < |s| && score > 0
    ensures var s', q := Raised(s, d, score), if s[d] == 0 then p + [d] else p;
            && InRange(s', q) && Distinct(q) && |q| <= topK <= |s|
            && (forall x :: 0 <= x < |s| ==> (x in q <==> s'[x] > 0))
            && (|q| < topK || topK == |s| ==> Lists(s', q, topK))
  {
    var q := if s[d] == 0 then p + [d] else p;
    if s[d] == 0 {
      DistinctInRange(s, q);
    }
  }

  /** A list of distinct documents is no longer than the collection. */
  lemma DistinctInRange(s: seq<nat>, p: seq<nat>)
    requires InRange(s, p) && Distinct(p)
    ensures |p| <= |s|
  {
    DistinctCounts(p);
    SubsetCounts(Elements(p), Naturals(|s|));
  }

  /** Filling the last place makes a heap of the documents found; all others still have no score. */
  lemma HeapOfFound(s: seq<nat>, p: seq<nat>, q: seq<nat>, topK: nat)
    requires InRange(s, p) && |p| == topK < |s| && topK > 0
    requires forall x :: 0 <= x < |s| ==> (x in p <==> s[x] > 0)
    requires InRange(s, q) && Distinct(q) && HeapFrom(s, q, 0) && SameDocuments(p, q)
    ensures Lists(s, q, topK)
  {
    assert q[0] in p;
  }

  /** Raising a listed document can only break the heap below it. */
  lemma RaisedInHeap(s: seq<nat>, p: seq<nat>, i: nat, score: nat)
    requires InRange(s, p) && Distinct(p) && HeapFrom(s, p, 0) && i < |p|
    ensures InRange(Raised(s, p[i], score), p) && HeapBut(Raised(s, p[i], score), p, 0, i)
  {
    var s' := Raised(s, p[i], score);
    forall j | 1 <= j < |p| && Parent(j) != i ensures Below(s', p[Parent(j)], p[j]) {
      assert Below(s, p[Parent(j)], p[j]);
    }
    if i > 0 {
      forall j | 1 <= j < |p| && Parent(j) == i ensures Below(s', p[Parent(i)], p[j]) {
        assert Below(s, p[Parent(i)], p[i]) && Below(s, p[i], p[j]);
      }
    }
  }

  /** Documents outside a heap stay outside when listed scores rise. */
  lemma StillOutside(s: seq<nat>, p: seq<nat>, topK: nat, i: nat, score: nat, q: seq<nat>)
    requires Lists(s, p, topK) && |p| == topK < |s| && i < |p|
    requires InRange(s, q) && Distinct(q) && SameDocuments(p, q) && HeapFrom(Raised(s, p[i], score), q, 0)
    ensures Lists(Raised(s, p[i], score), q, topK)
  {
    var s' := Raised(s, p[i], score);
    assert q[0] in q && q[0] in p;
    var k :| 0 <= k < |p| && p[k] == q[0];
    RootIsLeast(s, p, k);
    forall d: nat | d < |s| && d !in q ensures Below(s', d, q[0]) {
      assert d !in p && Below(s, d, p[0]);
    }
    forall j | 0 <= j < |q| ensures s'[q[j]] > 0 {
      assert q[j] in q && q[j] in p;
    }
  }

  lemma OnlyRootLeft(p: seq<nat>, d: nat, x: nat)
    requires |p| > 0
    ensures x in p ==> x in p[0 := d] || x == p[0]
  {
    if x in p && x != p[0] {
      var j: nat :| j < |p| && p[j] == x;
      assert p[0 := d][j] == x;
    }
  }

  /** A document that outranks the root takes its place. */
  lemma Replaces(s: seq<nat>, p: seq<nat>, topK: nat, d: nat, score: nat, q: seq<nat>)
    requires Lists(s, p, topK) && |p| == topK < |s| && d < |s| && d !in p
    requires Below(Raised(s, d, score), p[0], d)
    requires InRange(s, q) && Distinct(q) && SameDocuments(p[0 := d], q) && HeapFrom(Raised(s, d, score), q, 0)
    ensures Lists(Raised(s, d, score), q, topK)
  {
    var s' := Raised(s, d, score);
    var first := p[0 := d];
    assert q[0] in q && q[0] in first && first[0] == d;
    var k :| 0 <= k < |first| && first[k] == q[0];
    RootIsLeast(s, p, k);
    forall x: nat | x < |s| && x !in q ensures Below(s', x, q[0]) {
      assert x !in first && x != d;
      OnlyRootLeft(p, d, x);
      assert x == p[0] || Below(s, x, p[0]);
    }
    forall j | 0 <= j < |q| ensures s'[q[j]] > 0 {
      assert q[j] in q && q[j] in first;
      assert s[p[0]] > 0 && s'[d] > 0;
    }
  }

  lemma ReplaceKeepsDistinct(s: seq<nat>, p: seq<nat>, d: nat)
    requires InRange(s, p) && Distinct(p) && |p| > 0 && d < |s| && d !in p && HeapFrom(s, p, 0)
    ensures InRange(s, p[0 := d]) && Distinct(p[0 := d])
    ensures forall score: nat :: HeapBut(Raised(s, d, score), p[0 := d], 0, 0)
  {
    var q := p[0 := d];
    forall score: nat, j | 1 <= j < |q| && Parent(j) != 0 ensures Below(Raised(s, d, score), q[Parent(j)], q[j]) {
      assert Below(s, p[Parent(j)], p[j]);
    }
  }

  lemma ListsHeap(s: seq<nat>, p: seq<nat>, topK: nat)
    requires Lists(s, p, topK) && |p| == topK < |s|
    ensures InRange(s, p) && Distinct(p) && HeapFrom(s, p, 0) && |p| > 0
    ensures forall d: nat :: d < |s| && !Below(s, d, p[0]) ==> d in p
  {
  }

  lemma OutsideHeap(s: seq<nat>, p: seq<nat>, topK: nat, d: nat)
    requires Lists(s, p, topK) && |p| == topK < |s| && d < |s| && Below(s, d, p[0])
    ensures d !in p
  {
    if d in p {
      var j: nat :| j < |p| && p[j] == d;
      RootIsLeast(s, p, j);
      BelowIsTotal(s, d, p[0], d);
    }
  }

  lemma StaysOut(s: seq<nat>, p: seq<nat>, topK: nat, d: nat, score: nat)
    requires Lists(s, p, topK) && |p| == topK < |s| && d < |s| && d !in p
    requires !Below(Raised(s, d, score), p[0], d)
    ensures Lists(Raised(s, d, score), p, topK)
  {
    var s' := Raised(s, d, score);
    forall j | 1 <= j < |p| ensures Below(s', p[Parent(j)], p[j]) {
      assert Below(s, p[Parent(j)], p[j]);
    }
    forall x: nat | x < |s| && x !in p ensures Below(s', x, p[0]) {
      assert Below(s, x, p[0]);
    }
  }

  // ------------------------------------------------------------------ the list sorted

  /** Ascending by score, in any order between equal scores. */
  ghost predicate ByScore(s: seq<nat>, q: seq<nat>) {
    InRange(s, q) && forall i, j :: 0 <= i < j < |q| ==> s[q[i]] <= s[q[j]]
  }

  /** What is known of qsort(): the same entries, ascending by score. */
  ghost predicate Sorts(qsort: (seq<nat>, seq<nat>) -> seq<nat>) {
    forall s, p :: InRange(s, p) ==> SameDocuments(p, qsort(s, p)) && ByScore(s, qsort(s, p))
  }

  /** Any function that permutes the list into ascending scores will do. */
  lemma AnySortSorts(qsort: (seq<nat>, seq<nat>) -> seq<nat>)
    requires forall s: seq<nat>, p: seq<nat> :: InRange(s, p) ==>
               |qsort(s, p)| == |p| && (forall d :: d in qsort(s, p) <==> d in p) && (Distinct(p) ==> Distinct(qsort(s, p)))
    requires forall s: seq<nat>, p: seq<nat>, i, j :: InRange(s, p) && 0 <= i < j < |qsort(s, p)| ==>
               qsort(s, p)[i] < |s| && qsort(s, p)[j] < |s| ==> s[qsort(s, p)[i]] <= s[qsort(s, p)[j]]
    ensures Sorts(qsort)
  {
    forall s, p | InRange(s, p) ensures SameDocuments(p, qsort(s, p)) && ByScore(s, qsort(s, p)) {
      var q := qsort(s, p);
      forall i | 0 <= i < |q| ensures q[i] < |s| {
        assert q[i] in p;
      }
    }
  }

  /** Between equal scores, a parent comes before its child. */
  ghost predicate TiesAscend(s: seq<nat>, q: seq<nat>)
    requires InRange(s, q)
  {
    forall j :: 1 <= j < |q| && s[q[Parent(j)]] == s[q[j]] ==> q[Parent(j)] < q[j]
  }

  /**
   The list is sorted by score alone.  Whatever order that leaves between equal scores, a
   full list is the heap it was exactly when no equal pair of parent and child has the
   lower document below.
   */
  lemma SortKeepsHeap(s: seq<nat>, p: seq<nat>, q: seq<nat>, topK: nat)
    requires Lists(s, p, topK) && SameDocuments(p, q) && ByScore(s, q)
    ensures Lists(s, q, topK) <==> |q| < topK || topK == |s| || TiesAscend(s, q)
  {
    if |p| == topK < |s| && TiesAscend(s, q) {
      assert HeapFrom(s, q, 0);
      assert p[0] in q && q[0] in p;
      var i: nat, j: nat :| i < |q| && q[i] == p[0] && j < |p| && p[j] == q[0];
      RootIsLeast(s, p, j);
      RootIsLeast(s, q, i);
      forall d: nat | d < |s| && d !in q ensures Below(s, d, q[0]) {
        assert d !in p;
      }
    }
  }

  lemma SortHolds(s: seq<nat>, p: seq<nat>, q: seq<nat>, topK: nat)
    requires Holds(s, p, topK) && SameDocuments(p, q) && ByScore(s, q)
    ensures Holds(s, q, topK)
  {
    if |p| < topK || topK == |s| {
      SortKeepsHeap(s, p, q, topK);
    }
  }

  lemma HoldsRange(s: seq<nat>, p: seq<nat>, topK: nat)
    requires Holds(s, p, topK)
    ensures InRange(s, p)
  {
  }

  lemma SameLength(p: seq<nat>, q: seq<nat>)
    requires SameDocuments(p, q)
    ensures |q| == |p|
  {
  }

  /** d is listed, and only the root ranks below it. */
  ghost predicate IsSecond(s: seq<nat>, p: seq<nat>, d: nat)
    requires InRange(s, p)
  {
    && d in p && d < |s|
    && forall j: nat :: 1 <= j < |p| ==> p[j] == d || Below(s, d, p[j])
  }

  lemma FirstChildIsSecond(s: seq<nat>, p: seq<nat>, topK: nat)
    requires Lists(s, p, topK) && |p| == topK < |s| && topK >= 2
    ensures IsSecond(s, p, FirstChild(p)) <==> topK == 2 || Below(s, FirstChild(p), OtherChild(p))
  {
    if topK == 2 || Below(s, FirstChild(p), OtherChild(p)) {
      forall j: nat | 1 <= j < |p| ensures p[j] == FirstChild(p) || Below(s, FirstChild(p), p[j]) {
        ChildIsNext(s, p, j);
        if |p| > 2 {
          BelowIsTotal(s, FirstChild(p), OtherChild(p), p[j]);
        }
      }
    } else {
      assert OtherChild(p) != FirstChild(p);
    }
  }

  class ResultList {
    const topK: nat
    const accumulator: array<nat>
    const pointers: array<nat>
    var length: nat

    function Scores(): seq<nat>
      reads accumulator
    {
      accumulator[..]
    }

    ghost predicate Valid()
      reads this, accumulator, pointers
    {
      && accumulator != pointers && pointers.Length == accumulator.Length
      && 0 < topK && length <= pointers.Length && Lists(accumulator[..], pointers[..length], topK)
    }

    /** init_accumulators(): `top` is cut down to the collection. */
    constructor (documents: nat, top: nat)
      requires documents > 0 && top > 0
      ensures Valid() && topK == (if top > documents then documents else top)
      ensures accumulator.Length == documents && forall d :: 0 <= d < documents ==> accumulator[d] == 0
      ensures fresh(accumulator) && fresh(pointers)
    {
      topK := if top > documents then documents else top;
      length := 0;
      accumulator := new nat[documents](_ => 0);
      pointers := new nat[documents](_ => 0);
    }

    /** "We haven't got enough to worry about the heap yet" -- or are to keep everything. */
    method Append(d: nat, score: nat)
      requires Valid() && d < accumulator.Length && score > 0
      requires length < topK || topK == accumulator.Length
      modifies this`length, accumulator, pointers
      ensures Valid() && accumulator[..] == Raised(old(accumulator[..]), d, score)
    {
      hide Lists, HeapFrom, SameDocuments, Distinct, Below;
      ghost var s, p := accumulator[..], pointers[..length];
      FoundFirst(s, p, topK, d, score);
      var was := accumulator[d];
      accumulator[d] := accumulator[d] + score;
      if was == 0 {
        pointers[length] := d;
        length := length + 1;
      }
      ghost var q := if was == 0 then p + [d] else p;
      assert pointers[..length] == q;
      if length == topK && topK != accumulator.Length {
        BuildMinHeap(accumulator, pointers, topK);
        HeapOfFound(accumulator[..], q, pointers[..length], topK);
      }
    }

    /** The list, but for the order a sort may have left it in. */
    ghost predicate Sane()
      reads this, accumulator, pointers
    {
      && accumulator != pointers && pointers.Length == accumulator.Length
      && 0 < topK && length <= pointers.Length && Holds(accumulator[..], pointers[..length], topK)
    }

    /** Where d is in the list; its length when it is not there. */
    method Find(d: nat) returns (i: nat)
      requires length <= pointers.Length
      ensures i <= length && (i < length ==> pointers[i] == d) && (i == length <==> d !in pointers[..length])
    {
      i := 0;
      while i < length && pointers[i] != d
        invariant i <= length && forall j :: 0 <= j < i ==> pointers[j] != d
      {
        i := i + 1;
      }
    }

    /**
     min_update(): the document is in the heap; it sinks from where it was.  When it is not
     in the list after all, it is written behind its end.
     */
    method Update(d: nat, score: nat)
      requires Sane() && d < accumulator.Length && length == topK < accumulator.Length
      modifies accumulator, pointers
      ensures Sane() && accumulator[..] == Raised(old(accumulator[..]), d, score)
      ensures old(Valid() && d in pointers[..length]) ==> Valid()
    {
      hide HeapBut, HeapFrom, SameDocuments, Distinct, Lists;
      ghost var s, p := accumulator[..], pointers[..length];
      ghost var valid := Valid() && d in p;
      var i := Find(d);
      accumulator[d] := accumulator[d] + score;
      if i < length {
        assert p[i := d] == p && pointers[..length][i := d] == p;
        if valid {
          ListsHeap(s, p, topK);
          RaisedInHeap(s, p, i, score);
        }
        SiftDown(accumulator, pointers, length, i, d);
        if valid {
          StillOutside(s, p, topK, i, score, pointers[..length]);
        }
      } else {
        pointers[i] := d;
        assert pointers[..length] == p;
      }
    }

    /** min_insert(): the document outranks the root and takes its place. */
    method Insert(d: nat, ghost s: seq<nat>, ghost score: nat)
      requires accumulator != pointers && pointers.Length == accumulator.Length == |s|
      requires 0 < topK == length < accumulator.Length && Holds(s, pointers[..length], topK)
      requires d < |s| && accumulator[..] == Raised(s, d, score)
      requires Below(accumulator[..], pointers[0], d)
      modifies pointers
      ensures Sane()
      ensures old(Lists(s, pointers[..length], topK) && d !in pointers[..length]) ==> Valid()
    {
      hide HeapBut, HeapFrom, SameDocuments, Distinct, Lists;
      ghost var p := pointers[..length];
      ghost var valid := Lists(s, p, topK) && d !in p;
      if valid {
        ListsHeap(s, p, topK);
        ReplaceKeepsDistinct(s, p, d);
      }
      SiftDown(accumulator, pointers, length, 0, d);
      if valid {
        Replaces(s, p, topK, d, score, pointers[..length]);
      }
    }

    /**
     One score contribution.  A full list whose heap a sort has upset stays in bounds, but
     may then take a listed document for an unlisted one, and list it twice.
     */
    method AddRsv(d: nat, score: nat)
      requires Sane() && d < accumulator.Length && score > 0
      modifies this`length, accumulator, pointers
      ensures Sane() && accumulator[..] == Raised(old(accumulator[..]), d, score)
      ensures old(Valid()) ==> Valid()
    {
      hide Lists;
      if topK == accumulator.Length || length < topK {
        Append(d, score);
        ListsHolds(accumulator[..], pointers[..length], topK);
      } else {
        ghost var s, p := accumulator[..], pointers[..length];
        ghost var valid := Valid();
        if valid {
          ListsHeap(s, p, topK);
        }
        if !Below(accumulator[..], d, pointers[0]) {
          Update(d, score);
        } else {
          if valid {
            OutsideHeap(s, p, topK, d);
          }
          accumulator[d] := accumulator[d] + score;
          if Below(accumulator[..], pointers[0], d) {
            Insert(d, s, score);
          } else if valid {
            StaysOut(s, p, topK, d, score);
          }
        }
      }
    }

    /** qsort() by score: the heap is kept exactly when no tie is left the wrong way round. */
    method SortByScore(qsort: (seq<nat>, seq<nat>) -> seq<nat>)
      requires Sane() && Sorts(qsort)
      modifies pointers
      ensures Sane() && pointers[..length] == qsort(accumulator[..], old(pointers[..length]))
      ensures ByScore(accumulator[..], pointers[..length])
      ensures SameDocuments(old(pointers[..length]), pointers[..length])
      ensures old(Valid()) ==>
                (Valid() <==> length < topK || topK == accumulator.Length || TiesAscend(accumulator[..], pointers[..length]))
    {
      hide Lists, Holds, SameDocuments;
      var s, p := accumulator[..], pointers[..length];
      HoldsRange(s, p, topK);
      var sorted := qsort(s, p);
      SameLength(p, sorted);
      forall i | 0 <= i < length {
        pointers[i] := sorted[i];
      }
      assert pointers[..length] == sorted && accumulator[..] == s;
      SortHolds(s, p, sorted, topK);
      if Lists(s, p, topK) {
        SortKeepsHeap(s, p, sorted, topK);
      }
    }

    /** get_second_smallest(): of the root's children the one that lies first in memory.
     In a heap that is the second smallest entry exactly when it ranks below the other. */
    method SecondSmallest() returns (d: nat)
      requires Sane() && length >= topK >= 2
      ensures d == FirstChild(pointers[..length])
      ensures Valid() && topK < accumulator.Length ==>
                (IsSecond(accumulator[..], pointers[..length], d) <==>
                 topK == 2 || Below(accumulator[..], d, OtherChild(pointers[..length])))
    {
      if Valid() && topK < accumulator.Length {
        FirstChildIsSecond(accumulator[..], pointers[..length], topK);
      }
      if topK == 2 {
        return pointers[1];
      }
      var left, right := pointers[1], pointers[2];
      return if left <= right then left else right;
    }

    /** The difference the code takes for that between the k-th document and the next. */
    function TestedDiff(): int
      requires Sane() && length >= 2
      reads this, accumulator, pointers
    {
      Gap(accumulator[..], FirstChild(pointers[..length]), pointers[0])
    }

    /** get_diff_k_and_k_plus_1() */
    method Diff() returns (diff: int)
      requires Sane() && length >= topK >= 2
      ensures diff == TestedDiff()
    {
      var second := SecondSmallest();
      diff := Gap(accumulator[..], second, pointers[0]);
    }
  }
}
