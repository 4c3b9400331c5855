/** The broker: one page of results out of the first pages of several servers. */
module Broker {
  import opened Rankings

  datatype Entry = Entry(id: nat, score: real)

  /**
   A server's complete ranking for the query, as it reports it; how many documents it
   holds; and whether its answer arrived.
   */
  datatype Server = Server(ranking: seq<Entry>, documents: nat, answers: bool)

  ghost predicate WellRanked(s: Server) {
    && (forall i :: 0 <= i < |s.ranking| ==> s.ranking[i].id < s.documents)
    && (forall i, j :: 0 <= i < j < |s.ranking| ==> s.ranking[i].score >= s.ranking[j].score)
    && (forall i, j :: 0 <= i < j < |s.ranking| ==> s.ranking[i].id != s.ranking[j].id)
  }

  ghost predicate AllWellRanked(servers: seq<Server>) {
    forall e :: 0 <= e < |servers| ==> WellRanked(servers[e])
  }

  lemma WellRankedIs(s: Server)
    ensures WellRanked(s) <==>
              && (forall i :: 0 <= i < |s.ranking| ==> s.ranking[i].id < s.documents)
              && (forall i, j :: 0 <= i < j < |s.ranking| ==>
                    s.ranking[i].score >= s.ranking[j].score && s.ranking[i].id != s.ranking[j].id)
  {
  }

  /** virtual_document_id: the documents of the servers before e, answering or not. */
  function Base(servers: seq<Server>, e: nat): (r: nat)
    requires e <= |servers|
  {
    if e == 0 then 0 else Base(servers, e - 1) + servers[e - 1].documents
  }

  function AsHit(base: nat, e: Entry): Hit {
    Hit(e.score, 0, base + e.id)
  }

  /** The first n entries of a ranking, or all of them. */
  function Taken(s: Server, base: nat, n: nat): (r: seq<Hit>)
    ensures |r| == if n < |s.ranking| then n else |s.ranking|
  {
    seq(if n < |s.ranking| then n else |s.ranking|, i requires 0 <= i < |s.ranking| => AsHit(base, s.ranking[i]))
  }

  /** What the first m servers supply when each is asked for n results. */
  function Supplied(servers: seq<Server>, n: nat, m: nat): (r: seq<Hit>)
    requires m <= |servers|
  {
    if m == 0 then []
    else Supplied(servers, n, m - 1)
           + if servers[m - 1].answers then Taken(servers[m - 1], Base(servers, m - 1), n) else []
  }

  /** A bound no ranking exceeds. */
  function Longest(servers: seq<Server>): (n: nat)
    ensures forall e :: 0 <= e < |servers| ==> |servers[e].ranking| <= n
  {
    if servers == [] then 0
    else
      var rest, last := Longest(servers[..|servers| - 1]), servers[|servers| - 1];
      assert forall e :: 0 <= e < |servers| - 1 ==> servers[..|servers| - 1][e] == servers[e];
      if rest < |last.ranking| then |last.ranking| else rest
  }

  function Everything(servers: seq<Server>): seq<Hit> {
    Supplied(servers, Longest(servers), |servers|)
  }

  // ------------------------------------------------------------------ ids

  lemma {:induction false} BaseGrows(servers: seq<Server>, a: nat, b: nat)
    requires a <= b <= |servers|
    ensures Base(servers, a) <= Base(servers, b)
    ensures a < b ==> Base(servers, a) + servers[a].documents <= Base(servers, b)
    decreases b
  {
    if a < b {
      BaseGrows(servers, a, b - 1);
    }
  }

  /** Different servers' documents, and a server's different documents, keep different ids. */
  lemma IdsAreDisjoint(servers: seq<Server>, e: nat, i: nat, f: nat, j: nat)
    requires AllWellRanked(servers) && e < |servers| && f < |servers|
    requires i < |servers[e].ranking| && j < |servers[f].ranking|
    ensures Base(servers, e) + servers[e].ranking[i].id == Base(servers, f) + servers[f].ranking[j].id <==> e == f && i == j
  {
    assert WellRanked(servers[e]) && WellRanked(servers[f]);
    if e < f {
      BaseGrows(servers, e, f);
    } else if f < e {
      BaseGrows(servers, f, e);
    }
  }

  /** No id is left unused: each below the sum of all documents is some server's document. */
  lemma {:induction false} IdsAreDense(servers: seq<Server>, n: nat, v: nat) returns (e: nat)
    requires n <= |servers| && v < Base(servers, n)
    ensures e < n && Base(servers, e) <= v < Base(servers, e) + servers[e].documents
    decreases n
  {
    if v >= Base(servers, n - 1) {
      e := n - 1;
    } else {
      e := IdsAreDense(servers, n - 1, v);
    }
  }

  ghost predicate From(servers: seq<Server>, n: nat, e: nat, i: nat, h: Hit) {
    && e < |servers| && servers[e].answers && i < n && i < |servers[e].ranking|
    && h == AsHit(Base(servers, e), servers[e].ranking[i])
  }

  lemma {:induction false} SuppliedHas(servers: seq<Server>, n: nat, m: nat, h: Hit)
    requires m <= |servers|
    ensures h in Supplied(servers, n, m) <==> exists e, i :: 0 <= e < m && From(servers, n, e, i, h)
  {
    if m > 0 {
      SuppliedHas(servers, n, m - 1, h);
      var last := m - 1;
      var s, base := servers[last], Base(servers, last);
      if s.answers && h in Taken(s, base, n) {
        var i: nat :| i < |Taken(s, base, n)| && Taken(s, base, n)[i] == h;
        assert From(servers, n, last, i, h);
      }
      forall i: nat | From(servers, n, last, i, h) ensures h in Taken(s, base, n) {
        assert Taken(s, base, n)[i] == h;
      }
    }
  }

  lemma {:induction false} SuppliedIsUnique(servers: seq<Server>, n: nat, m: nat)
    requires AllWellRanked(servers) && m <= |servers|
    ensures Unique(Supplied(servers, n, m))
  {
    hide AllWellRanked;
    if m > 0 {
      SuppliedIsUnique(servers, n, m - 1);
      if servers[m - 1].answers {
        var so, mine := Supplied(servers, n, m - 1), Taken(servers[m - 1], Base(servers, m - 1), n);
        forall i, j | 0 <= i < j < |mine| ensures !SameDocument(mine[i], mine[j]) {
          IdsAreDisjoint(servers, m - 1, i, m - 1, j);
        }
        forall i, j | 0 <= i < |so| && 0 <= j < |mine| ensures !SameDocument(so[i], mine[j]) {
          SuppliedHas(servers, n, m - 1, so[i]);
          var e: nat, k: nat :| e < m - 1 && From(servers, n, e, k, so[i]);
          IdsAreDisjoint(servers, e, k, m - 1, j);
        }
      }
    }
  }

  // ------------------------------------------------------- the prefixes suffice

  lemma TakenCount(servers: seq<Server>, n: nat, e: nat)
    requires AllWellRanked(servers) && e < |servers|
    ensures |Hits(Taken(servers[e], Base(servers, e), n))| == |Taken(servers[e], Base(servers, e), n)|
  {
    var mine := Taken(servers[e], Base(servers, e), n);
    forall i, j | 0 <= i < j < |mine| ensures !SameDocument(mine[i], mine[j]) {
      IdsAreDisjoint(servers, e, i, e, j);
    }
    UniqueCount(mine);
  }

  /** A server that was cut short has supplied n results that score `score` or more. */
  lemma CutServerCounts(servers: seq<Server>, n: nat, e: nat, score: real)
    requires AllWellRanked(servers) && e < |servers| && servers[e].answers && n <= |servers[e].ranking|
    requires n > 0 ==> servers[e].ranking[n - 1].score >= score
    ensures |AtLeast(Hits(Supplied(servers, n, |servers|)), score)| >= n
  {
    var mine := Taken(servers[e], Base(servers, e), n);
    TakenCount(servers, n, e);
    assert WellRanked(servers[e]);
    forall h | h in Hits(mine) ensures h in AtLeast(Hits(Supplied(servers, n, |servers|)), score) {
      var i: nat :| i < |mine| && mine[i] == h;
      assert From(servers, n, e, i, h);
      SuppliedHas(servers, n, |servers|, h);
    }
    SubsetCount(Hits(mine), AtLeast(Hits(Supplied(servers, n, |servers|)), score));
  }

  lemma PrefixesSuffice(servers: seq<Server>, n: nat)
    requires AllWellRanked(servers)
    ensures Suffices(Sort(Supplied(servers, n, |servers|)), Sort(Everything(servers)), n)
  {
    var some, all := Supplied(servers, n, |servers|), Everything(servers);
    SuppliedIsUnique(servers, n, |servers|);
    SuppliedIsUnique(servers, Longest(servers), |servers|);
    SortIs(some);
    SortIs(all);
    hide Unique, Sorted;
    assert Hits(Sort(some)) == Hits(some);
    forall h | h in some ensures h in all {
      SuppliedHas(servers, n, |servers|, h);
      SuppliedHas(servers, Longest(servers), |servers|, h);
      var e: nat, i: nat :| e < |servers| && From(servers, n, e, i, h);
      assert From(servers, Longest(servers), e, i, h);
    }
    forall h | h in all && h !in some ensures |AtLeast(Hits(some), h.score)| >= n {
      SuppliedHas(servers, n, |servers|, h);
      SuppliedHas(servers, Longest(servers), |servers|, h);
      var e: nat, i: nat :| e < |servers| && From(servers, Longest(servers), e, i, h);
      assert !From(servers, n, e, i, h);
      assert WellRanked(servers[e]);
      CutServerCounts(servers, n, e, h.score);
    }
  }

  // ------------------------------------------------------------------ the result set

  /** What is merged: of each server that answers the first n results, their ids moved up. */
  lemma SuppliedIs(servers: seq<Server>, n: nat, h: Hit)
    ensures h in Supplied(servers, n, |servers|) <==>
              exists e: nat, i: nat :: e < |servers| && i < |servers[e].ranking| && i < n && servers[e].answers
                && h.score == servers[e].ranking[i].score && h.docid == Base(servers, e) + servers[e].ranking[i].id
                && h.generation == 0
  {
    SuppliedHas(servers, n, |servers|, h);
    if h in Supplied(servers, n, |servers|) {
      var e: nat, i: nat :| e < |servers| && From(servers, n, e, i, h);
      assert e < |servers| && i < |servers[e].ranking| && i < n;
    }
    forall e: nat, i: nat | e < |servers| && i < |servers[e].ranking| && i < n && servers[e].answers
      && h.score == servers[e].ranking[i].score && h.docid == Base(servers, e) + servers[e].ranking[i].id && h.generation == 0
      ensures From(servers, n, e, i, h)
    {
    }
  }

  /** The k-th hit of a page has exactly the first - 1 + k better hits before it. */
  lemma PagePlaces(list: seq<Hit>, first: nat, pageLength: nat)
    requires first >= 1 && Unique(list)
    ensures var page, left := Page(list, first, pageLength), |list| - (first - 1);
            && |page| == (if left <= 1 then 0 else if left < pageLength then left else pageLength)
            && forall k :: 0 <= k < |page| ==> page[k] in list && |Ahead(list, page[k])| == first - 1 + k
  {
    SortIs(list);
    var all, page := Sort(list), Page(list, first, pageLength);
    hide Sort, Unique;
    forall k | 0 <= k < |page| ensures page[k] in list && |Ahead(list, page[k])| == first - 1 + k {
      var n := first - 1 + k;
      assert page[k] == all[n] && all[n] in all;
      AheadIs(list, all, n);
    }
  }

  /** The hits of the list that come before h: better scores, and equal ones of smaller ids. */
  function Ahead(list: seq<Hit>, h: Hit): (r: set<Hit>) {
    set x | x in list && (x.score > h.score || (x.score == h.score &&
              (x.generation < h.generation || (x.generation == h.generation && x.docid < h.docid))))
  }

  lemma AheadIs(list: seq<Hit>, all: seq<Hit>, n: nat)
    requires Sorted(all) && (forall h :: h in all <==> h in list) && n < |all|
    ensures |Ahead(list, all[n])| == n
  {
    forall x ensures x in Ahead(list, all[n]) <==> x in Hits(all[..n]) {
      if x in all {
        var m: nat :| m < |all| && all[m] == x;
        SortedPlaces(all, m, n);
        if m < n {
          assert all[..n][m] == x;
        }
      }
      if x in all[..n] {
        var m: nat :| m < n && all[..n][m] == x;
        assert all[m] == x && Before(all[m], all[n]);
      }
    }
    assert Ahead(list, all[n]) == Hits(all[..n]);
    HitsCount(all[..n]);
  }

  /** A list of results that doubles when it is full. */
  class ResultSet {
    var results: array<Hit>
    var hits: nat

    ghost predicate Valid()
      reads this
    {
      results.Length > 0 && hits <= results.Length
    }

    function Contents(): seq<Hit>
      requires Valid()
      reads this, results
    {
      results[..hits]
    }

    constructor (size: nat)
      requires size > 0
      ensures Valid() && Contents() == [] && fresh(results)
    {
      results := new Hit[size](_ => Hit(0.0, 0, 0));
      hits := 0;
    }

    method Extend(size: nat)
      requires Valid() && size >= results.Length
      modifies `results
      ensures Valid() && Contents() == old(Contents()) && results.Length == size && fresh(results)
    {
      var replacement := new Hit[size](_ => Hit(0.0, 0, 0));
      for i := 0 to results.Length
        modifies replacement
        invariant replacement[..i] == results[..i]
      {
        replacement[i] := results[i];
      }
      assert replacement[..hits] == replacement[..results.Length][..hits] == results[..hits];
      results := replacement;
    }

    /** Append one answer, its ids moved up by the documents of the servers before. */
    method Add(answer: seq<Entry>, docidBase: nat)
      requires Valid()
      modifies this, results
      ensures Valid() && (results == old(results) || fresh(results))
      ensures Contents() == old(Contents()) + Shifted(answer, docidBase)
    {
      for i := 0 to |answer|
        invariant Valid() && (results == old(results) || fresh(results))
        invariant Contents() == old(Contents()) + Shifted(answer, docidBase)[..i]
      {
        if hits + 1 > results.Length {
          Extend(results.Length * 2);
        }
        ghost var was := Contents();
        results[hits] := AsHit(docidBase, answer[i]);
        hits := hits + 1;
        assert Contents() == was + [AsHit(docidBase, answer[i])];
      }
    }

    /** The page of the sorted list that starts at place `first`, counted from 1. */
    method Serialise(first: nat, pageLength: nat) returns (page: seq<Hit>)
      requires Valid() && first >= 1
      modifies results
      ensures Valid() && page == Page(old(Contents()), first, pageLength)
    {
      page := [];
      if first < hits {
        ghost var sorted := Sort(Contents());
        SortLength(Contents());
        SortAll();
        var from := first - 1;
        var to := if from + pageLength < hits then from + pageLength else hits;
        for current := from to to
          invariant page == sorted[from..current]
          invariant results[..hits] == sorted
        {
          assert results[current] == results[..hits][current];
          page := page + [results[current]];
        }
      }
    }

    /** qsort() over the results in use. */
    method SortAll()
      requires Valid()
      modifies results
      ensures results[..hits] == Sort(old(Contents()))
    {
      var sorted := Sort(results[..hits]);
      SortLength(results[..hits]);
      for i := 0 to hits
        invariant results[..i] == sorted[..i]
      {
        results[i] := sorted[i];
      }
    }
  }

  function Shifted(answer: seq<Entry>, base: nat): (r: seq<Hit>)
    ensures |r| == |answer|
  {
    seq(|answer|, i requires 0 <= i < |answer| => AsHit(base, answer[i]))
  }

  /** Nothing is served unless the page starts before the last result. */
  function Page(list: seq<Hit>, first: nat, pageLength: nat): (r: seq<Hit>)
    requires first >= 1
  {
    SortLength(list);
    if first < |list| then
      Sort(list)[first - 1..if first - 1 + pageLength < |list| then first - 1 + pageLength else |list|]
    else []
  }

  lemma {:induction false} InsertLength(s: seq<Hit>, h: Hit)
    ensures |Insert(s, h)| == |s| + 1
  {
    if s != [] {
      InsertLength(s[..|s| - 1], h);
    }
  }

  lemma {:induction false} SortLength(s: seq<Hit>)
    ensures |Sort(s)| == |s|
  {
    if s != [] {
      SortLength(s[..|s| - 1]);
      InsertLength(Sort(s[..|s| - 1]), s[|s| - 1]);
    }
  }

  /** What a server answers when asked for n results from the first on. */
  method Ask(s: Server, n: nat) returns (answer: seq<Entry>)
    ensures answer == s.ranking[..if n < |s.ranking| then n else |s.ranking|]
  {
    answer := s.ranking[..if n < |s.ranking| then n else |s.ranking|];
  }

  /** Every server is asked for the pages up to the wanted one; their answers are merged. */
  method Search(servers: seq<Server>, first: nat, pageLength: nat) returns (page: seq<Hit>)
    requires first >= 1
    ensures page == Page(Supplied(servers, first + pageLength, |servers|), first, pageLength)
  {
    var resultsList := new ResultSet(1024 * 1024);
    var virtualDocumentId := 0;
    for engine := 0 to |servers|
      invariant resultsList.Valid() && fresh(resultsList) && fresh(resultsList.results)
      invariant virtualDocumentId == Base(servers, engine)
      invariant resultsList.Contents() == Supplied(servers, first + pageLength, engine)
    {
      if servers[engine].answers {
        var answer := Ask(servers[engine], first + pageLength);
        assert Shifted(answer, virtualDocumentId) == Taken(servers[engine], virtualDocumentId, first + pageLength);
        resultsList.Add(answer, virtualDocumentId);
      }
      virtualDocumentId := virtualDocumentId + servers[engine].documents;
    }
    page := resultsList.Serialise(first, pageLength);
  }

  // ------------------------------------------------------- the page that is served

  /** The page of the complete merged ranking. */
  function FullPage(all: seq<Hit>, first: nat, pageLength: nat): (r: seq<Hit>)
    requires first >= 1
  {
    if first - 1 < |all| then
      all[first - 1..if first - 1 + pageLength < |all| then first - 1 + pageLength else |all|]
    else []
  }

  ghost predicate SameScores(a: seq<Hit>, b: seq<Hit>) {
    |a| == |b| && forall i :: 0 <= i < |a| ==> a[i].score == b[i].score
  }

  lemma WholePage(list: seq<Hit>, first: nat, pageLength: nat)
    requires first >= 1 && |list| >= first + pageLength
    ensures FullPage(list, first, pageLength) == list[first - 1..first - 1 + pageLength]
  {
  }

  lemma PlacesAgree(supplied: seq<Hit>, all: seq<Hit>, first: nat, pageLength: nat)
    requires first >= 1 && Sorted(supplied) && Sorted(all) && Suffices(supplied, all, first + pageLength)
    ensures SameScores(FullPage(supplied, first, pageLength), FullPage(all, first, pageLength))
  {
    hide Sorted, Suffices, FullPage;
    SufficesLength(supplied, all, first + pageLength);
    if |supplied| >= first + pageLength {
      WholePage(supplied, first, pageLength);
      WholePage(all, first, pageLength);
      var from := first - 1;
      var a, b := supplied[from..from + pageLength], all[from..from + pageLength];
      forall i: nat | i < pageLength ensures a[i].score == b[i].score {
        TopScoresAgree(supplied, all, first + pageLength, from + i);
      }
    }
  }

  lemma SortedBoth(servers: seq<Server>, n: nat)
    requires AllWellRanked(servers)
    ensures Sorted(Sort(Supplied(servers, n, |servers|))) && Sorted(Sort(Everything(servers)))
    ensures |Sort(Everything(servers))| == |Everything(servers)|
  {
    SuppliedIsUnique(servers, n, |servers|);
    SuppliedIsUnique(servers, Longest(servers), |servers|);
    SortIs(Supplied(servers, n, |servers|));
    SortIs(Everything(servers));
  }

  /**
   The served page scores, place for place, what that page of the complete merged ranking
   scores, although each server was only asked for its first results -- except for a
   non-empty page that starts at the very last result, which is served empty.
   */
  lemma PageScores(servers: seq<Server>, first: nat, pageLength: nat)
    requires AllWellRanked(servers) && first >= 1
    ensures var page := Page(Supplied(servers, first + pageLength, |servers|), first, pageLength);
            var fullPage := FullPage(Sort(Everything(servers)), first, pageLength);
            SameScores(page, fullPage) <==> first != |Everything(servers)| || pageLength == 0
  {
    hide Suffices, Sorted, SameScores, Sort, Supplied, Everything, Page, FullPage;
    var n := first + pageLength;
    var some, all := Sort(Supplied(servers, n, |servers|)), Sort(Everything(servers));
    PrefixesSuffice(servers, n);
    SortedBoth(servers, n);
    PlacesAgree(some, all, first, pageLength);
    SufficesLength(some, all, n);
    PageIs(Supplied(servers, n, |servers|), first, pageLength);
    EmptyPages(some, all, first, pageLength);
  }

  lemma PageIs(list: seq<Hit>, first: nat, pageLength: nat)
    requires first >= 1
    ensures Page(list, first, pageLength) == if first < |Sort(list)| then FullPage(Sort(list), first, pageLength) else []
  {
    hide Sort;
    SortLength(list);
  }

  /** When the test `first < hits` fails although there is a page. */
  lemma EmptyPages(some: seq<Hit>, all: seq<Hit>, first: nat, pageLength: nat)
    requires first >= 1 && (|some| >= first + pageLength || some == all) && |some| <= |all|
    requires SameScores(FullPage(some, first, pageLength), FullPage(all, first, pageLength))
    ensures var page := if first < |some| then FullPage(some, first, pageLength) else [];
            SameScores(page, FullPage(all, first, pageLength)) <==> first != |all| || pageLength == 0
  {
  }

  // ---------------------------------------------------- the documents on the page

  /** Where the page of a list of that length ends. */
  function PageEnd(length: nat, first: nat, pageLength: nat): nat
    requires first >= 1
  {
    if first - 1 + pageLength < length then first - 1 + pageLength else length
  }

  /** h stands in some server's ranking, but not among the first n. */
  ghost predicate Beyond(servers: seq<Server>, n: nat, h: Hit) {
    exists e: nat, i: nat :: i >= n && From(servers, Longest(servers), e, i, h)
  }

  lemma SuppliedOrBeyond(servers: seq<Server>, n: nat, h: Hit)
    requires AllWellRanked(servers) && h in Everything(servers)
    ensures h in Supplied(servers, n, |servers|) <==> !Beyond(servers, n, h)
  {
    SuppliedHas(servers, n, |servers|, h);
    SuppliedHas(servers, Longest(servers), |servers|, h);
    var f: nat, j: nat :| f < |servers| && From(servers, Longest(servers), f, j, h);
    forall e: nat, i: nat | From(servers, Longest(servers), e, i, h) ensures e == f && i == j {
      IdsAreDisjoint(servers, e, i, f, j);
    }
    if h in Supplied(servers, n, |servers|) {
      var e: nat, i: nat :| e < |servers| && From(servers, n, e, i, h);
      assert From(servers, Longest(servers), e, i, h);
    } else {
      assert !From(servers, n, f, j, h);
    }
  }

  /** Sorted lists of which one is part of the other agree on a page if nothing before its end is missing. */
  lemma PagesAgree(some: seq<Hit>, all: seq<Hit>, first: nat, pageLength: nat)
    requires first >= 1 && pageLength > 0 && Sorted(some) && Sorted(all) && (forall h :: h in some ==> h in all)
    requires |some| <= |all| && (|some| >= first + pageLength || some == all)
    ensures FullPage(some, first, pageLength) == FullPage(all, first, pageLength) <==>
            forall k :: 0 <= k < PageEnd(|all|, first, pageLength) ==> all[k] in some
  {
    var from, to := first - 1, PageEnd(|all|, first, pageLength);
    hide Sorted;
    if |some| >= first + pageLength {
      TopAgrees(some, all, to);
      var a, b := some[from..to], all[from..to];
      if a == b {
        assert some[to - 1] == a[to - 1 - from] == b[to - 1 - from] == all[to - 1];
        PlaceAgrees(some, all, to - 1);
      }
    }
  }

  /**
   The page holds the documents of that page of the complete merged ranking exactly when
   it does not start at the last result, and no hit before its end was beyond what its own
   server was asked for.
   */
  lemma PageDocuments(servers: seq<Server>, first: nat, pageLength: nat)
    requires AllWellRanked(servers) && first >= 1 && pageLength > 0
    ensures var n, all := first + pageLength, Sort(Everything(servers));
            Page(Supplied(servers, n, |servers|), first, pageLength) == FullPage(all, first, pageLength) <==>
            && first != |Everything(servers)|
            && forall k :: 0 <= k < PageEnd(|all|, first, pageLength) ==> !Beyond(servers, n, all[k])
  {
    hide Suffices, Sorted, Sort, Supplied, AllWellRanked, Page, FullPage, Everything, Beyond;
    var n := first + pageLength;
    var some, all := Sort(Supplied(servers, n, |servers|)), Sort(Everything(servers));
    PrefixesSuffice(servers, n);
    SortedBoth(servers, n);
    SameMembers(servers, n);
    PageIs(Supplied(servers, n, |servers|), first, pageLength);
    SufficesLength(some, all, n);
    PagesAgree(some, all, first, pageLength);
    forall k: nat | k < PageEnd(|all|, first, pageLength) ensures all[k] in some <==> !Beyond(servers, n, all[k]) {
      assert all[k] in all;
      SuppliedOrBeyond(servers, n, all[k]);
    }
    PageAtTheEnd(some, all, first, pageLength);
  }

  /** Likewise the first n places, when n results were asked for. */
  lemma FirstPlacesAgree(servers: seq<Server>, n: nat)
    requires AllWellRanked(servers) && n <= |Sort(Everything(servers))|
    ensures var some, all := Sort(Supplied(servers, n, |servers|)), Sort(Everything(servers));
            (n <= |some| && some[..n] == all[..n]) <==> forall k :: 0 <= k < n ==> !Beyond(servers, n, all[k])
  {
    hide Suffices, Sorted, Sort, Supplied, AllWellRanked, Everything, Beyond;
    var some, all := Sort(Supplied(servers, n, |servers|)), Sort(Everything(servers));
    SortedBoth(servers, n);
    SameMembers(servers, n);
    TopAgrees(some, all, n);
    forall k: nat | k < n ensures all[k] in some <==> !Beyond(servers, n, all[k]) {
      assert all[k] in all;
      SuppliedOrBeyond(servers, n, all[k]);
    }
  }

  lemma PageAtTheEnd(some: seq<Hit>, all: seq<Hit>, first: nat, pageLength: nat)
    requires first >= 1 && pageLength > 0 && |some| <= |all| && (|some| >= first + pageLength || some == all)
    ensures first == |all| ==> FullPage(all, first, pageLength) != [] && first >= |some|
    ensures first != |all| && first >= |some| ==> FullPage(all, first, pageLength) == [] && FullPage(some, first, pageLength) == []
  {
  }

  lemma SameMembers(servers: seq<Server>, n: nat)
    requires AllWellRanked(servers)
    ensures forall h :: h in Sort(Supplied(servers, n, |servers|)) <==> h in Supplied(servers, n, |servers|)
    ensures forall h :: h in Sort(Everything(servers)) <==> h in Everything(servers)
    ensures forall h :: h in Supplied(servers, n, |servers|) ==> h in Everything(servers)
  {
    SuppliedIsUnique(servers, n, |servers|);
    SuppliedIsUnique(servers, Longest(servers), |servers|);
    SortIs(Supplied(servers, n, |servers|));
    SortIs(Everything(servers));
    PrefixesSuffice(servers, n);
  }

  /** No server's answer ends inside a tie. */
  ghost predicate CutBetweenScores(servers: seq<Server>, n: nat) {
    forall e :: 0 <= e < |servers| && 0 < n < |servers[e].ranking| ==>
      servers[e].ranking[n - 1].score > servers[e].ranking[n].score
  }

  /** Then every hit among the first n is among the first n of its server. */
  lemma BeyondComesLater(servers: seq<Server>, n: nat, k: nat)
    requires AllWellRanked(servers) && CutBetweenScores(servers, n) && k < |Sort(Everything(servers))|
    requires Beyond(servers, n, Sort(Everything(servers))[k])
    ensures k >= n
  {
    var all := Sort(Everything(servers));
    SortedBoth(servers, n);
    SameMembers(servers, n);
    hide Sorted, Sort, Everything;
    var e: nat, i: nat :| i >= n && From(servers, Longest(servers), e, i, all[k]);
    if n > 0 {
      assert WellRanked(servers[e]);
      var t := servers[e].ranking[n - 1].score;
      assert t > all[k].score;
      CutServerCounts(servers, n, e, t);
      RankByCount(all, k, t);
      SubsetCount(AtLeast(Hits(Supplied(servers, n, |servers|)), t), AtLeast(Hits(all), t));
    }
  }

  /** So the page holds the right documents unless some server's answer ends inside a tie. */
  lemma PageWithoutTies(servers: seq<Server>, first: nat, pageLength: nat)
    requires AllWellRanked(servers) && first >= 1 && CutBetweenScores(servers, first + pageLength)
    requires first != |Everything(servers)| || pageLength == 0
    ensures Page(Supplied(servers, first + pageLength, |servers|), first, pageLength)
         == FullPage(Sort(Everything(servers)), first, pageLength)
  {
    var all := Sort(Everything(servers));
    hide Sort, Supplied, AllWellRanked, CutBetweenScores, Everything, Beyond, SameScores;
    if pageLength > 0 {
      PageDocuments(servers, first, pageLength);
      forall k: nat | k < PageEnd(|all|, first, pageLength) ensures !Beyond(servers, first + pageLength, all[k]) {
        if Beyond(servers, first + pageLength, all[k]) {
          BeyondComesLater(servers, first + pageLength, k);
          assert false;
        }
      }
    } else {
      EmptyPage(Supplied(servers, first, |servers|), all, first);
    }
  }

  lemma EmptyPage(list: seq<Hit>, all: seq<Hit>, first: nat)
    requires first >= 1
    ensures Page(list, first, 0) == FullPage(all, first, 0) == []
  {
    SortLength(list);
  }

  const TIED := Server([Entry(2, 5.0), Entry(1, 5.0), Entry(0, 5.0)], 3, true)
  const OTHER := Server([Entry(0, 1.0)], 1, true)

  /**
   Two servers, the first page of one result.  The first server holds three equal documents
   and reports the later ones first; asked for two results, it leaves out the document the
   full ranking starts with.
   */
  lemma TieAcrossTheCut()
    ensures AllWellRanked([TIED, OTHER])
    ensures Page(Supplied([TIED, OTHER], 2, 2), 1, 1) == [Hit(5.0, 0, 1)]
    ensures FullPage(Sort(Everything([TIED, OTHER])), 1, 1) == [Hit(5.0, 0, 0)]
  {
    var a, b, c, d := Hit(5.0, 0, 2), Hit(5.0, 0, 1), Hit(5.0, 0, 0), Hit(1.0, 0, 3);
    TiedAreRanked();
    hide Longest, WellRanked, Taken, AllWellRanked;
    hide Sort, Page, FullPage, Supplied, Insert, Everything;
    EverythingIs([TIED, OTHER], 3);
    TwoServers(2, [a, b, d]);
    TwoServers(3, [a, b, c, d]);
    TiesSorted(a, b, c, d);
    FirstOf([b, a, d], [a, b, d]);
    FirstOf([c, b, a, d], [a, b, c, d]);
  }

  lemma EverythingIs(servers: seq<Server>, longest: nat)
    requires Longest(servers) == longest
    ensures Everything(servers) == Supplied(servers, longest, |servers|)
  {
  }

  lemma FirstOf(sorted: seq<Hit>, list: seq<Hit>)
    requires |list| > 1 && sorted == Sort(list)
    ensures sorted != [] && Page(list, 1, 1) == FullPage(sorted, 1, 1) == [sorted[0]]
  {
    SortLength(list);
    assert sorted[..1] == [sorted[0]];
  }

  lemma TiesSorted(a: Hit, b: Hit, c: Hit, d: Hit)
    requires a == Hit(5.0, 0, 2) && b == Hit(5.0, 0, 1) && c == Hit(5.0, 0, 0) && d == Hit(1.0, 0, 3)
    ensures Sort([a, b, d]) == [b, a, d] && Sort([a, b, c, d]) == [c, b, a, d]
  {
    hide Sort;
    assert Unique([a, b, d]) && Sorted([b, a, d]);
    assert Unique([a, b, c, d]) && Sorted([c, b, a, d]);
    hide Unique, Sorted;
    SortIs([a, b, d]);
    SortedIsCanonical(Sort([a, b, d]), [b, a, d]);
    SortIs([a, b, c, d]);
    SortedIsCanonical(Sort([a, b, c, d]), [c, b, a, d]);
  }

  lemma TiedAreRanked()
    ensures AllWellRanked([TIED, OTHER]) && Longest([TIED, OTHER]) == 3
    ensures Taken(TIED, 0, 2) == [Hit(5.0, 0, 2), Hit(5.0, 0, 1)]
    ensures Taken(TIED, 0, 3) == [Hit(5.0, 0, 2), Hit(5.0, 0, 1), Hit(5.0, 0, 0)]
    ensures Taken(OTHER, 3, 2) == Taken(OTHER, 3, 3) == [Hit(1.0, 0, 3)]
  {
    assert WellRanked(TIED) && WellRanked(OTHER);
    var one, two := [TIED], [TIED, OTHER];
    assert one[..|one| - 1] == [] && Longest([]) == 0;
    assert Longest(one) == 3;
    assert two[..|two| - 1] == one && two[|two| - 1] == OTHER;
    assert Longest(two) == 3;
  }

  lemma TwoServers(n: nat, list: seq<Hit>)
    requires list == Taken(TIED, 0, n) + Taken(OTHER, 3, n)
    ensures Supplied([TIED, OTHER], n, 2) == list
  {
    var servers := [TIED, OTHER];
    assert Supplied(servers, n, 0) == [];
    assert Base(servers, 1) == 3;
    assert Supplied(servers, n, 1) == Taken(TIED, 0, n);
  }
}
