/**
 Hits, the order result lists are sorted by, and what the top of a merged list has to do
 with the top of everything: the core of segment search and of the broker.
 */
module Rankings {

  datatype Hit = Hit(score: real, generation: nat, docid: nat)

  predicate SameDocument(a: Hit, b: Hit) {
    a.generation == b.generation && a.docid == b.docid
  }

  /** Score descending; ties by generation, then docid, ascending. */
  predicate Before(a: Hit, b: Hit) {
    a.score > b.score ||
    (a.score == b.score && (a.generation < b.generation || (a.generation == b.generation && a.docid < b.docid)))
  }

  /** No document twice. */
  ghost predicate Unique(s: seq<Hit>) {
    forall i, j :: 0 <= i < j < |s| ==> !SameDocument(s[i], s[j])
  }

  ghost predicate Sorted(s: seq<Hit>) {
    forall i, j :: 0 <= i < j < |s| ==> Before(s[i], s[j])
  }

  /** In places: a higher score first, then the older generation, then the smaller docid. */
  lemma SortedIs(s: seq<Hit>)
    ensures Sorted(s) <==>
              forall i, j :: 0 <= i < j < |s| ==>
                && s[i].score >= s[j].score
                && (s[i].score == s[j].score ==> s[i].generation <= s[j].generation)
                && (s[i].score == s[j].score && s[i].generation == s[j].generation ==> s[i].docid < s[j].docid)
  {
  }

  function Hits(s: seq<Hit>): (r: set<Hit>) {
    set h | h in s
  }

  // ------------------------------------------------------------------- sorting

  function Insert(s: seq<Hit>, h: Hit): (r: seq<Hit>) {
    if s == [] then [h]
    else
      var n := |s| - 1;
      if Before(s[n], h) then s + [h] else Insert(s[..n], h) + [s[n]]
  }

  /** What qsort() makes of a list under that order. */
  function Sort(s: seq<Hit>): (r: seq<Hit>) {
    if s == [] then [] else Insert(Sort(s[..|s| - 1]), s[|s| - 1])
  }

  lemma {:induction false} InsertIs(s: seq<Hit>, h: Hit)
    requires Sorted(s) && forall i :: 0 <= i < |s| ==> !SameDocument(s[i], h)
    ensures Sorted(Insert(s, h)) && |Insert(s, h)| == |s| + 1
    ensures forall x :: x in Insert(s, h) <==> x in s || x == h
  {
    if s != [] {
      var n := |s| - 1;
      assert s == s[..n] + [s[n]];
      if !Before(s[n], h) {
        InsertIs(s[..n], h);
        forall x | x in Insert(s[..n], h) ensures Before(x, s[n]) {
        }
      }
    }
  }

  lemma {:induction false} SortIs(s: seq<Hit>)
    requires Unique(s)
    ensures Sorted(Sort(s)) && |Sort(s)| == |s|
    ensures forall h :: h in Sort(s) <==> h in s
  {
    if s != [] {
      var n := |s| - 1;
      SortIs(s[..n]);
      assert s == s[..n] + [s[n]];
      forall i | 0 <= i < |Sort(s[..n])| ensures !SameDocument(Sort(s[..n])[i], s[n]) {
        assert Sort(s[..n])[i] in s[..n];
      }
      InsertIs(Sort(s[..n]), s[n]);
    }
  }

  /** In a sorted list, places and order are the same thing. */
  lemma SortedPlaces(s: seq<Hit>, i: nat, j: nat)
    requires Sorted(s) && i < |s| && j < |s|
    ensures i < j <==> Before(s[i], s[j])
    ensures i == j <==> s[i] == s[j]
  {
  }

  // ---------------------------------------------------------- counting from the top

  function AtLeast(s: set<Hit>, score: real): (r: set<Hit>) {
    set h | h in s && h.score >= score
  }

  lemma {:induction false} UniqueCount(s: seq<Hit>)
    requires Unique(s)
    ensures |Hits(s)| == |s|
  {
    if s == [] {
      assert Hits(s) == {};
    } else {
      var n := |s| - 1;
      UniqueCount(s[..n]);
      assert s == s[..n] + [s[n]];
      assert Hits(s) == Hits(s[..n]) + {s[n]};
    }
  }

  lemma {:induction false} HitsCount(s: seq<Hit>)
    requires Sorted(s)
    ensures |Hits(s)| == |s|
  {
    if s == [] {
      assert Hits(s) == {};
    } else {
      var n := |s| - 1;
      HitsCount(s[..n]);
      assert s == s[..n] + [s[n]];
      assert Hits(s) == Hits(s[..n]) + {s[n]};
    }
  }

  lemma SubsetCount(a: set<Hit>, b: set<Hit>)
    requires a <= b
    ensures |a| <= |b|
    ensures |a| == |b| ==> a == b
  {
    assert b == a + (b - a);
  }

  /** The i-th hit scores at least t exactly when more than i hits do. */
  lemma RankByCount(s: seq<Hit>, i: nat, t: real)
    requires Sorted(s) && i < |s|
    ensures s[i].score >= t <==> |AtLeast(Hits(s), t)| > i
  {
    var top := AtLeast(Hits(s), t);
    if s[i].score >= t {
      HitsCount(s[..i + 1]);
      forall h | h in Hits(s[..i + 1]) ensures h in top {
        var j :| 0 <= j < |s[..i + 1]| && s[..i + 1][j] == h;
        assert s[j] == h;
      }
      SubsetCount(Hits(s[..i + 1]), top);
    } else {
      HitsCount(s[..i]);
      forall h | h in top ensures h in Hits(s[..i]) {
        var j :| 0 <= j < |s| && s[j] == h;
        assert j < i;
        assert s[..i][j] == h;
      }
      SubsetCount(top, Hits(s[..i]));
    }
  }

  /**
   What was supplied suffices for the first n places: each hit left out has n supplied
   hits that score at least as much.
   */
  ghost predicate Suffices(supplied: seq<Hit>, all: seq<Hit>, n: nat) {
    && (forall h :: h in supplied ==> h in all)
    && forall h :: h in all && h !in supplied ==> |AtLeast(Hits(supplied), h.score)| >= n
  }

  lemma SufficesCount(supplied: seq<Hit>, all: seq<Hit>, n: nat, t: real, i: nat)
    requires Suffices(supplied, all, n) && i < n
    ensures |AtLeast(Hits(supplied), t)| > i <==> |AtLeast(Hits(all), t)| > i
  {
    var a, b := AtLeast(Hits(supplied), t), AtLeast(Hits(all), t);
    SubsetCount(a, b);
    if b <= a {
      SubsetCount(b, a);
    } else {
      var x :| x in b && x !in a;
      SubsetCount(AtLeast(Hits(supplied), x.score), a);
    }
  }

  /** Enough is supplied: n hits, or all there are. */
  lemma SufficesLength(supplied: seq<Hit>, all: seq<Hit>, n: nat)
    requires Suffices(supplied, all, n) && Sorted(supplied) && Sorted(all)
    ensures |supplied| <= |all|
    ensures |supplied| >= n || supplied == all
  {
    HitsCount(supplied);
    HitsCount(all);
    SubsetCount(Hits(supplied), Hits(all));
    if |supplied| < n {
      forall h | h in all ensures h in supplied {
        if h !in supplied {
          SubsetCount(AtLeast(Hits(supplied), h.score), Hits(supplied));
        }
      }
      assert Hits(supplied) == Hits(all);
      SortedIsCanonical(supplied, all);
    }
  }

  /** Two sorted lists of the same hits are the same list. */
  lemma {:induction false} SortedIsCanonical(a: seq<Hit>, b: seq<Hit>)
    requires Sorted(a) && Sorted(b) && Hits(a) == Hits(b)
    ensures a == b
  {
    HitsCount(a);
    HitsCount(b);
    if a != [] {
      var n := |a| - 1;
      SameLast(a, b);
      HitsWithoutLast(a);
      HitsWithoutLast(b);
      assert a == a[..n] + [a[n]] && b == b[..n] + [b[n]];
      hide Sorted, Hits;
      SortedIsCanonical(a[..n], b[..n]);
    }
  }

  lemma SameLast(a: seq<Hit>, b: seq<Hit>)
    requires Sorted(a) && Sorted(b) && Hits(a) == Hits(b) && |a| == |b| > 0
    ensures a[|a| - 1] == b[|b| - 1]
  {
    var n := |a| - 1;
    assert a[n] in Hits(b) && b[n] in Hits(a);
    var i :| 0 <= i < |b| && b[i] == a[n];
    var j :| 0 <= j < |a| && a[j] == b[n];
    SortedPlaces(b, i, n);
    SortedPlaces(a, j, n);
  }

  lemma HitsWithoutLast(s: seq<Hit>)
    requires Sorted(s) && s != []
    ensures Sorted(s[..|s| - 1]) && Hits(s[..|s| - 1]) == Hits(s) - {s[|s| - 1]}
  {
    var n := |s| - 1;
    forall i | 0 <= i < n ensures s[i] != s[n] {
      SortedPlaces(s, i, n);
    }
  }

  /** The first n places score the same as in the ranking of everything. */
  lemma TopScoresAgree(supplied: seq<Hit>, all: seq<Hit>, n: nat, i: nat)
    requires Sorted(supplied) && Sorted(all) && Suffices(supplied, all, n)
    requires i < n && i < |all|
    ensures i < |supplied| && supplied[i].score == all[i].score
  {
    SufficesLength(supplied, all, n);
    var s, t := supplied[i].score, all[i].score;
    SufficesCount(supplied, all, n, s, i);
    SufficesCount(supplied, all, n, t, i);
    RankByCount(supplied, i, s);
    RankByCount(supplied, i, t);
    RankByCount(all, i, s);
    RankByCount(all, i, t);
  }

  /** They hold the same documents, too, exactly when none of those was left out. */
  lemma {:induction false} TopAgrees(supplied: seq<Hit>, all: seq<Hit>, n: nat)
    requires Sorted(supplied) && Sorted(all) && n <= |all| && forall h :: h in supplied ==> h in all
    ensures (n <= |supplied| && supplied[..n] == all[..n]) <==> forall i :: 0 <= i < n ==> all[i] in supplied
  {
    if n <= |supplied| && supplied[..n] == all[..n] {
      forall i | 0 <= i < n ensures all[i] in supplied {
        assert supplied[i] == supplied[..n][i] == all[..n][i];
      }
    }
    if n > 0 && forall i :: 0 <= i < n ==> all[i] in supplied {
      TopAgrees(supplied, all, n - 1);
      NextAgrees(supplied, all, n - 1);
      assert supplied[..n] == supplied[..n - 1] + [supplied[n - 1]];
    }
  }

  /** One place that agrees shows that nothing before it was left out. */
  lemma PlaceAgrees(supplied: seq<Hit>, all: seq<Hit>, k: nat)
    requires Sorted(supplied) && Sorted(all) && k < |supplied| && k < |all| && supplied[k] == all[k]
    requires forall h :: h in supplied ==> h in all
    ensures forall i :: 0 <= i <= k ==> all[i] in supplied
  {
    var a, b := supplied[..k + 1], all[..k + 1];
    HitsCount(a);
    HitsCount(b);
    forall h | h in Hits(a) ensures h in Hits(b) {
      var i: nat :| i <= k && supplied[i] == h;
      assert supplied[i] in all;
      var j: nat :| j < |all| && all[j] == h;
      SortedPlaces(supplied, i, k);
      SortedPlaces(all, j, k);
      assert b[j] == h;
    }
    SubsetCount(Hits(a), Hits(b));
    forall i | 0 <= i <= k ensures all[i] in supplied {
      assert b[i] in Hits(a);
    }
  }

  /** What follows an agreed prefix in one list does not lie inside it in the other. */
  lemma NotAmongFirst(a: seq<Hit>, b: seq<Hit>, n: nat, k: nat)
    requires Sorted(b) && n <= |a| && n < |b| && a[..n] == b[..n] && k < |a| && a[k] == b[n]
    ensures k >= n
  {
    if k < n {
      SamePlace(a, b, n, k);
      SortedPlaces(b, k, n);
    }
  }

  lemma SamePlace(a: seq<Hit>, b: seq<Hit>, n: nat, i: nat)
    requires i < n <= |a| && n <= |b| && a[..n] == b[..n]
    ensures a[i] == b[i]
  {
    assert a[i] == a[..n][i] == b[..n][i];
  }

  lemma NextAgrees(supplied: seq<Hit>, all: seq<Hit>, n: nat)
    requires Sorted(supplied) && Sorted(all) && n < |all| && (forall h :: h in supplied ==> h in all)
    requires n <= |supplied| && supplied[..n] == all[..n] && all[n] in supplied
    ensures n < |supplied| && supplied[n] == all[n]
  {
    var k: nat :| k < |supplied| && supplied[k] == all[n];
    NotAmongFirst(supplied, all, n, k);
    assert supplied[n] in all;
    var j: nat :| j < |all| && all[j] == supplied[n];
    NotAmongFirst(all, supplied, n, j);
    SortedPlaces(supplied, n, k);
    SortedPlaces(all, n, j);
  }
}
