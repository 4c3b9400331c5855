/** search(): the best hits of every segment, merged. */
module SegmentSearch {
  import opened Sequences
  import opened SegmentModel
  import opened Rankings

  datatype Ranked = Ranked(docid: nat, score: real)

  /**
   One segment as a query sees it: its documents that match, best first; how many
   documents it has; its tombstones; and, under a filter, the documents admitted.
   */
  datatype Segment = Segment(generation: nat, ranking: seq<Ranked>, documents: nat, dead: set<nat>, admitted: Option<set<nat>>)

  ghost predicate WellRanked(s: Segment) {
    && |s.ranking| <= s.documents
    && (forall i, j :: 0 <= i < j < |s.ranking| ==> s.ranking[i].score >= s.ranking[j].score)
    && (forall i, j :: 0 <= i < j < |s.ranking| ==> s.ranking[i].docid != s.ranking[j].docid)
  }

  predicate Eligible(s: Segment, docid: nat) {
    docid !in s.dead && (s.admitted.Some? ==> docid in s.admitted.value)
  }

  function AsHit(s: Segment, r: Ranked): Hit {
    Hit(r.score, s.generation, r.docid)
  }

  /** The live, admitted hits among the first n of the ranking. */
  function EligibleHits(s: Segment, n: nat): (r: seq<Hit>)
    requires n <= |s.ranking|
  {
    if n == 0 then []
    else
      var so := EligibleHits(s, n - 1);
      if Eligible(s, s.ranking[n - 1].docid) then so + [AsHit(s, s.ranking[n - 1])] else so
  }

  function AllHits(s: Segment): seq<Hit> {
    EligibleHits(s, |s.ranking|)
  }

  /** How many of the ranking are asked for: enough to make up for tombstones, or all under a filter. */
  function Fetch(s: Segment, topK: nat): nat {
    if s.admitted.Some? then s.documents else topK + |s.dead|
  }

  // ------------------------------------------------------------------ one segment

  lemma {:induction false} EligibleHas(s: Segment, n: nat, h: Hit)
    requires n <= |s.ranking|
    ensures h in EligibleHits(s, n) <==>
              exists i :: 0 <= i < n && Eligible(s, s.ranking[i].docid) && h == AsHit(s, s.ranking[i])
  {
    if n > 0 {
      EligibleHas(s, n - 1, h);
    }
  }

  lemma {:induction false} EligibleAreUnique(s: Segment, n: nat)
    requires WellRanked(s) && n <= |s.ranking|
    ensures Unique(EligibleHits(s, n))
  {
    if n > 0 {
      EligibleAreUnique(s, n - 1);
      var so := EligibleHits(s, n - 1);
      forall i | 0 <= i < |so| ensures !SameDocument(so[i], AsHit(s, s.ranking[n - 1])) {
        EligibleHas(s, n - 1, so[i]);
      }
    }
  }

  function Docids(s: Segment, n: nat): (r: set<nat>)
    requires n <= |s.ranking|
  {
    if n == 0 then {} else Docids(s, n - 1) + {s.ranking[n - 1].docid}
  }

  lemma {:induction false} DocidsAre(s: Segment, n: nat, d: nat)
    requires n <= |s.ranking|
    ensures d in Docids(s, n) <==> exists i :: 0 <= i < n && s.ranking[i].docid == d
  {
    if n > 0 {
      DocidsAre(s, n - 1, d);
    }
  }

  /** Without a filter, only tombstones keep a fetched hit from being published. */
  lemma {:induction false} FewAreDropped(s: Segment, n: nat)
    requires WellRanked(s) && n <= |s.ranking| && s.admitted.None?
    ensures |EligibleHits(s, n)| + |Docids(s, n) * s.dead| == n
  {
    if n > 0 {
      FewAreDropped(s, n - 1);
      var d := s.ranking[n - 1].docid;
      DocidsAre(s, n - 1, d);
      var before, now := Docids(s, n - 1) * s.dead, Docids(s, n) * s.dead;
      assert now == if d in s.dead then before + {d} else before;
    }
  }

  lemma {:induction false} EligibleScoreAtLeast(s: Segment, n: nat, score: real)
    requires WellRanked(s) && n <= |s.ranking|
    requires forall i :: 0 <= i < n ==> s.ranking[i].score >= score
    ensures forall h :: h in EligibleHits(s, n) ==> h.score >= score
  {
    forall h | h in EligibleHits(s, n) ensures h.score >= score {
      EligibleHas(s, n, h);
    }
  }

  /** The loop's outcome: everything eligible up to some place beyond which topK score as well. */
  ghost predicate Publishes(s: Segment, topK: nat, n: nat)
    requires n <= |s.ranking|
  {
    n < |s.ranking| ==> |EligibleHits(s, n)| >= topK
  }

  /** The first place at which topK eligible hits have been passed, or `bound`. */
  function FirstWith(s: Segment, topK: nat, bound: nat): (n: nat)
    requires bound <= |s.ranking|
    ensures n <= bound && (n < bound ==> |EligibleHits(s, n)| >= topK)
    ensures forall m :: 0 <= m < n ==> |EligibleHits(s, m)| < topK
  {
    if bound == 0 then 0
    else
      var n := FirstWith(s, topK, bound - 1);
      if n < bound - 1 || |EligibleHits(s, n)| >= topK then n else bound
  }

  /** How far a segment's ranking is read. */
  function Cut(s: Segment, topK: nat): (n: nat)
    ensures n <= |s.ranking|
  {
    var bound := if Fetch(s, topK) < |s.ranking| then Fetch(s, topK) else |s.ranking|;
    if s.admitted.None? then bound else FirstWith(s, topK, bound)
  }

  /**
   Without a filter topK places and one for each tombstone are read; under a filter as many
   as it takes to publish topK hits, or all.
   */
  lemma CutIs(s: Segment, topK: nat)
    requires WellRanked(s)
    ensures s.admitted == None ==>
              Cut(s, topK) == if topK + |s.dead| < |s.ranking| then topK + |s.dead| else |s.ranking|
    ensures s.admitted != None ==>
              |EligibleHits(s, Cut(s, topK))| == if |AllHits(s)| < topK then |AllHits(s)| else topK
  {
    var n := Cut(s, topK);
    CutPublishes(s, topK);
    if s.admitted.Some? && n > 0 {
      assert |EligibleHits(s, n)| <= |EligibleHits(s, n - 1)| + 1;
    }
    EligibleGrow(s, n, |s.ranking|);
  }

  lemma {:induction false} EligibleGrow(s: Segment, m: nat, n: nat)
    requires m <= n <= |s.ranking|
    ensures |EligibleHits(s, m)| <= |EligibleHits(s, n)|
    decreases n
  {
    if m < n {
      EligibleGrow(s, m, n - 1);
    }
  }

  lemma CutPublishes(s: Segment, topK: nat)
    requires WellRanked(s)
    ensures Publishes(s, topK, Cut(s, topK))
  {
    EnoughFetched(s, topK, Cut(s, topK));
  }

  method SearchOneSegment(s: Segment, topK: nat, results: seq<Hit>) returns (out: seq<Hit>)
    requires WellRanked(s)
    ensures out == results + EligibleHits(s, Cut(s, topK))
  {
    hide WellRanked;
    var fetch := Fetch(s, topK);
    var which, published := 0, 0;
    out := results;
    while which < |s.ranking| && which < fetch && !(s.admitted.Some? && published >= topK)
      invariant which <= |s.ranking| && which <= fetch
      invariant out == results + EligibleHits(s, which)
      invariant s.admitted.Some? ==> published == |EligibleHits(s, which)|
      invariant s.admitted.Some? ==> forall m :: 0 <= m < which ==> |EligibleHits(s, m)| < topK
    {
      var docid := s.ranking[which].docid;
      if docid !in s.dead {
        if s.admitted.None? || docid in s.admitted.value {
          out := out + [AsHit(s, s.ranking[which])];
          if s.admitted.Some? {
            published := published + 1;
          }
        }
      }
      which := which + 1;
    }
    assert which == Cut(s, topK);
  }

  lemma EnoughFetched(s: Segment, topK: nat, n: nat)
    requires WellRanked(s) && n <= |s.ranking|
    ensures n == Fetch(s, topK) ==> Publishes(s, topK, n)
  {
    if s.admitted.None? {
      FewAreDropped(s, n);
      var dropped := Docids(s, n) * s.dead;
      assert s.dead == dropped + (s.dead - dropped);
    }
  }

  // ------------------------------------------------------------------ all segments

  ghost predicate Searchable(segments: seq<Segment>) {
    && (forall i :: 0 <= i < |segments| ==> WellRanked(segments[i]))
    && (forall i, j :: 0 <= i < j < |segments| ==> segments[i].generation != segments[j].generation)
  }

  lemma SearchableIs(segments: seq<Segment>)
    ensures Searchable(segments) <==>
              && (forall e :: 0 <= e < |segments| ==> |segments[e].ranking| <= segments[e].documents)
              && (forall e, i, j :: 0 <= e < |segments| && 0 <= i < j < |segments[e].ranking| ==>
                    && segments[e].ranking[i].score >= segments[e].ranking[j].score
                    && segments[e].ranking[i].docid != segments[e].ranking[j].docid)
              && (forall e, f :: 0 <= e < f < |segments| ==> segments[e].generation != segments[f].generation)
  {
    if forall e, i, j :: 0 <= e < |segments| && 0 <= i < j < |segments[e].ranking| ==>
         && segments[e].ranking[i].score >= segments[e].ranking[j].score
         && segments[e].ranking[i].docid != segments[e].ranking[j].docid {
      forall e | 0 <= e < |segments| && |segments[e].ranking| <= segments[e].documents ensures WellRanked(segments[e]) {
        var ranking := segments[e].ranking;
        assert forall i, j :: 0 <= i < j < |ranking| ==>
          segments[e].ranking[i].score >= segments[e].ranking[j].score && segments[e].ranking[i].docid != segments[e].ranking[j].docid;
      }
    }
  }

  /** The hits published from the first m segments, n[i] places into the i-th ranking. */
  function Published(segments: seq<Segment>, n: seq<nat>, m: nat): (r: seq<Hit>)
    requires |n| == |segments| && m <= |segments| && forall i :: 0 <= i < |n| ==> n[i] <= |segments[i].ranking|
  {
    if m == 0 then [] else Published(segments, n, m - 1) + EligibleHits(segments[m - 1], n[m - 1])
  }

  function Everything(segments: seq<Segment>): seq<Hit> {
    Published(segments, Whole(segments), |segments|)
  }

  /** How far each ranking is read. */
  function Cuts(segments: seq<Segment>, topK: nat): (n: seq<nat>)
    ensures |n| == |segments| && forall i :: 0 <= i < |n| ==> n[i] == Cut(segments[i], topK) <= |segments[i].ranking|
  {
    seq(|segments|, i requires 0 <= i < |segments| => Cut(segments[i], topK))
  }

  /** What a merged search sorts and truncates. */
  function Fetched(segments: seq<Segment>, topK: nat): seq<Hit> {
    Published(segments, Cuts(segments, topK), |segments|)
  }

  function Whole(segments: seq<Segment>): (n: seq<nat>)
    ensures |n| == |segments| && forall i :: 0 <= i < |n| ==> n[i] == |segments[i].ranking|
  {
    seq(|segments|, i requires 0 <= i < |segments| => |segments[i].ranking|)
  }

  lemma {:induction false} PublishedHas(segments: seq<Segment>, n: seq<nat>, m: nat, h: Hit)
    requires |n| == |segments| && m <= |segments| && forall i :: 0 <= i < |n| ==> n[i] <= |segments[i].ranking|
    ensures h in Published(segments, n, m) <==> exists i :: 0 <= i < m && h in EligibleHits(segments[i], n[i])
  {
    if m > 0 {
      PublishedHas(segments, n, m - 1, h);
    }
  }

  lemma {:induction false} PublishedAreUnique(segments: seq<Segment>, n: seq<nat>, m: nat)
    requires |n| == |segments| && m <= |segments| && forall i :: 0 <= i < |n| ==> n[i] <= |segments[i].ranking|
    requires Searchable(segments)
    ensures Unique(Published(segments, n, m))
  {
    if m > 0 {
      PublishedAreUnique(segments, n, m - 1);
      EligibleAreUnique(segments[m - 1], n[m - 1]);
      var so, more := Published(segments, n, m - 1), EligibleHits(segments[m - 1], n[m - 1]);
      forall i, j | 0 <= i < |so| && 0 <= j < |more| ensures !SameDocument(so[i], more[j]) {
        PublishedHas(segments, n, m - 1, so[i]);
        var k :| 0 <= k < m - 1 && so[i] in EligibleHits(segments[k], n[k]);
        EligibleHas(segments[k], n[k], so[i]);
        EligibleHas(segments[m - 1], n[m - 1], more[j]);
      }
    }
  }

  lemma LeftOutIsCovered(s: Segment, topK: nat, n: nat, h: Hit)
    requires WellRanked(s) && n <= |s.ranking| && Publishes(s, topK, n)
    requires h in AllHits(s) && h !in EligibleHits(s, n)
    ensures |EligibleHits(s, n)| >= topK
    ensures forall g :: g in EligibleHits(s, n) ==> g.score >= h.score
  {
    EligibleHas(s, |s.ranking|, h);
    EligibleHas(s, n, h);
    var i :| 0 <= i < |s.ranking| && Eligible(s, s.ranking[i].docid) && h == AsHit(s, s.ranking[i]);
    assert i >= n;
    EligibleScoreAtLeast(s, n, h.score);
  }

  /** Whatever is not published, topK published hits score as well. */
  lemma PublishedSuffices(segments: seq<Segment>, n: seq<nat>, topK: nat)
    requires |n| == |segments| && forall i :: 0 <= i < |n| ==> n[i] <= |segments[i].ranking|
    requires Searchable(segments) && forall i :: 0 <= i < |n| ==> Publishes(segments[i], topK, n[i])
    ensures Suffices(Sort(Published(segments, n, |segments|)), Sort(Everything(segments)), topK)
  {
    var some, all := Published(segments, n, |segments|), Everything(segments);
    PublishedAreUnique(segments, n, |segments|);
    PublishedAreUnique(segments, Whole(segments), |segments|);
    SortIs(some);
    SortIs(all);
    hide Publishes, Unique, WellRanked, Sorted;
    forall h | h in some ensures h in all {
      PublishedIsInAll(segments, n, h);
    }
    forall h | h in all && h !in some ensures |AtLeast(Hits(Sort(some)), h.score)| >= topK {
      LeftOut(segments, n, topK, h);
      assert Hits(Sort(some)) == Hits(some);
    }
  }

  lemma PublishedIsInAll(segments: seq<Segment>, n: seq<nat>, h: Hit)
    requires |n| == |segments| && forall i :: 0 <= i < |n| ==> n[i] <= |segments[i].ranking|
    requires h in Published(segments, n, |segments|)
    ensures h in Everything(segments)
  {
    PublishedHas(segments, n, |segments|, h);
    PublishedHas(segments, Whole(segments), |segments|, h);
    var i :| 0 <= i < |segments| && h in EligibleHits(segments[i], n[i]);
    EligibleHas(segments[i], n[i], h);
    EligibleHas(segments[i], |segments[i].ranking|, h);
    assert h in EligibleHits(segments[i], Whole(segments)[i]);
  }

  lemma LeftOut(segments: seq<Segment>, n: seq<nat>, topK: nat, h: Hit)
    requires |n| == |segments| && forall i :: 0 <= i < |n| ==> n[i] <= |segments[i].ranking|
    requires Searchable(segments) && forall i :: 0 <= i < |n| ==> Publishes(segments[i], topK, n[i])
    requires h in Everything(segments) && h !in Published(segments, n, |segments|)
    ensures |AtLeast(Hits(Published(segments, n, |segments|)), h.score)| >= topK
  {
    var some := Published(segments, n, |segments|);
    PublishedHas(segments, Whole(segments), |segments|, h);
    PublishedHas(segments, n, |segments|, h);
    var i :| 0 <= i < |segments| && h in EligibleHits(segments[i], Whole(segments)[i]);
    var mine := EligibleHits(segments[i], n[i]);
    LeftOutIsCovered(segments[i], topK, n[i], h);
    EligibleAreUnique(segments[i], n[i]);
    UniqueCount(mine);
    forall g | g in Hits(mine) ensures g in AtLeast(Hits(some), h.score) {
      PublishedHas(segments, n, |segments|, g);
    }
    SubsetCount(Hits(mine), AtLeast(Hits(some), h.score));
  }

  function Truncated(s: seq<Hit>, topK: nat): (r: seq<Hit>) {
    if |s| > topK then s[..topK] else s
  }

  lemma TruncatedPlaces(s: seq<Hit>, all: seq<Hit>, topK: nat)
    requires Sorted(s) && Sorted(all) && Suffices(s, all, topK)
    ensures var r := Truncated(s, topK);
            && |r| == (if |all| < topK then |all| else topK)
            && (|all| <= topK ==> r == all)
            && (forall i :: 0 <= i < |r| && i < |all| ==> r[i].score == all[i].score)
  {
    SufficesLength(s, all, topK);
    var r := Truncated(s, topK);
    hide Sorted, Suffices;
    forall i: nat | i < |r| && i < |all| ensures r[i].score == all[i].score {
      if i < topK {
        TopScoresAgree(s, all, topK, i);
      }
    }
    if |s| == |all| == topK {
      FullIsAll(s, all, topK);
    }
  }

  lemma FullIsAll(s: seq<Hit>, all: seq<Hit>, topK: nat)
    requires Sorted(s) && Sorted(all) && Suffices(s, all, topK) && |s| == |all|
    ensures s == all
  {
    HitsCount(s);
    HitsCount(all);
    SubsetCount(Hits(s), Hits(all));
    SortedIsCanonical(s, all);
  }

  lemma TruncatedIsTop(some: seq<Hit>, everything: seq<Hit>, topK: nat)
    requires Unique(some) && Unique(everything)
    requires Suffices(Sort(some), Sort(everything), topK)
    ensures IsTop(Truncated(Sort(some), topK), Sort(everything), topK)
  {
    var s, all := Sort(some), Sort(everything);
    var r := Truncated(s, topK);
    SortIs(some);
    SortIs(everything);
    SortedKeepsUnique(some, s);
    PrefixKeeps(s, |r|);
    hide Unique, Sorted;
    TruncatedPlaces(s, all, topK);
    OmittedScoresBelow(s, all, topK);
    hide Suffices;
  }

  lemma SortedKeepsUnique(some: seq<Hit>, s: seq<Hit>)
    requires Unique(some) && Sorted(s) && |s| == |some| && forall h :: h in s <==> h in some
    ensures Unique(s)
  {
    forall i, j | 0 <= i < j < |s| ensures !SameDocument(s[i], s[j]) {
      assert s[i] in some && s[j] in some && s[i] != s[j];
    }
  }

  lemma PrefixKeeps(s: seq<Hit>, n: nat)
    requires Unique(s) && Sorted(s) && n <= |s|
    ensures Unique(s[..n]) && Sorted(s[..n]) && s[..|s|] == s
  {
  }

  lemma OmittedScoresBelow(s: seq<Hit>, all: seq<Hit>, topK: nat)
    requires Sorted(s) && Sorted(all) && Suffices(s, all, topK)
    ensures forall h, g :: h in all && h !in Truncated(s, topK) && g in Truncated(s, topK) ==> g.score >= h.score
  {
    var r := Truncated(s, topK);
    assert s == r + s[|r|..];
    forall h, g | h in all && h !in r && g in r ensures g.score >= h.score {
      var i :| 0 <= i < |r| && r[i] == g;
      assert s[i] == g;
      if h in s {
        assert h in s[|r|..];
        var j :| 0 <= j < |s[|r|..]| && s[|r|..][j] == h;
        SortedPlaces(s, i, |r| + j);
      } else {
        RankByCount(s, i, h.score);
      }
    }
  }

  /** The best hits of all segments, as far as score can tell them apart. */
  ghost predicate IsTop(results: seq<Hit>, all: seq<Hit>, topK: nat) {
    && Sorted(results) && Unique(results) && (forall h :: h in results ==> h in all)
    && |results| == (if |all| < topK then |all| else topK)
    && (|all| <= topK ==> results == all)
    && (forall i :: 0 <= i < |results| && i < |all| ==> results[i].score == all[i].score)
    && (forall h :: h in all && h !in results ==> forall g :: g in results ==> g.score >= h.score)
  }

  lemma FetchedIsTop(segments: seq<Segment>, topK: nat)
    requires Searchable(segments)
    ensures IsTop(Truncated(Sort(Fetched(segments, topK)), topK), Sort(Everything(segments)), topK)
  {
    var n := Cuts(segments, topK);
    forall i | 0 <= i < |n| ensures Publishes(segments[i], topK, n[i]) {
      CutPublishes(segments[i], topK);
    }
    hide WellRanked, Publishes, Unique, Sorted, Suffices, IsTop, Cut;
    PublishedSuffices(segments, n, topK);
    PublishedAreUnique(segments, n, |segments|);
    PublishedAreUnique(segments, Whole(segments), |segments|);
    TruncatedIsTop(Published(segments, n, |segments|), Everything(segments), topK);
  }

  /** The complete ranking holds what some segment ranks, has not tombstoned and lets through. */
  lemma EverythingIs(segments: seq<Segment>, h: Hit)
    ensures h in Everything(segments) <==>
              exists e: nat, i: nat :: e < |segments| && i < |segments[e].ranking|
                && h.score == segments[e].ranking[i].score && h.docid == segments[e].ranking[i].docid
                && h.generation == segments[e].generation
                && h.docid !in segments[e].dead
                && (segments[e].admitted == None || h.docid in segments[e].admitted.value)
  {
    PublishedHas(segments, Whole(segments), |segments|, h);
    forall e: nat | e < |segments|
      ensures h in EligibleHits(segments[e], Whole(segments)[e]) <==>
                exists i: nat :: i < |segments[e].ranking|
                  && Eligible(segments[e], segments[e].ranking[i].docid) && h == AsHit(segments[e], segments[e].ranking[i])
    {
      EligibleHas(segments[e], |segments[e].ranking|, h);
    }
  }

  /** What the ranked top means, hit by hit. */
  lemma TopIs(segments: seq<Segment>, topK: nat, results: seq<Hit>)
    requires Searchable(segments) && IsTop(results, Sort(Everything(segments)), topK)
    ensures forall h :: h in results ==>
              exists e: nat, i: nat :: e < |segments| && i < |segments[e].ranking|
                && h.score == segments[e].ranking[i].score && h.docid == segments[e].ranking[i].docid
                && h.generation == segments[e].generation
                && h.docid !in segments[e].dead
                && (segments[e].admitted == None || h.docid in segments[e].admitted.value)
    ensures |results| <= topK
    ensures forall e: nat, i: nat :: e < |segments| && i < |segments[e].ranking| ==>
              var s, r := segments[e], segments[e].ranking[i];
              r.docid !in s.dead && (s.admitted == None || r.docid in s.admitted.value) ==>
                Hit(r.score, s.generation, r.docid) in results ||
                (|results| == topK && forall g :: g in results ==> g.score >= r.score)
  {
    PublishedAreUnique(segments, Whole(segments), |segments|);
    hide Unique, Sorted, Searchable, Everything;
    SortIs(Everything(segments));
    forall h | h in results
      ensures exists e: nat, i: nat :: e < |segments| && i < |segments[e].ranking|
                && h.score == segments[e].ranking[i].score && h.docid == segments[e].ranking[i].docid
                && h.generation == segments[e].generation
                && h.docid !in segments[e].dead
                && (segments[e].admitted == None || h.docid in segments[e].admitted.value)
    {
      EverythingIs(segments, h);
    }
    forall e: nat, i: nat | e < |segments| && i < |segments[e].ranking|
      ensures var s, r := segments[e], segments[e].ranking[i];
              r.docid !in s.dead && (s.admitted == None || r.docid in s.admitted.value) ==>
                Hit(r.score, s.generation, r.docid) in Everything(segments)
    {
      EverythingIs(segments, Hit(segments[e].ranking[i].score, segments[e].generation, segments[e].ranking[i].docid));
    }
  }

  lemma TopIsSorted(segments: seq<Segment>, topK: nat, results: seq<Hit>)
    requires IsTop(results, Sort(Everything(segments)), topK)
    ensures forall i, j :: 0 <= i < j < |results| ==>
              && results[i].score >= results[j].score
              && (results[i].score == results[j].score ==> results[i].generation <= results[j].generation)
              && (results[i].score == results[j].score && results[i].generation == results[j].generation ==>
                    results[i].docid < results[j].docid)
  {
    SortedIs(results);
  }

  /**
   A merged search returns topK hits, or all there are: live, admitted, sorted, none
   twice; place for place they score what the complete ranking's hits score, and no hit
   left out scores above one returned.
   */
  method Search(segments: seq<Segment>, topK: nat) returns (results: seq<Hit>)
    requires forall e :: 0 <= e < |segments| ==> |segments[e].ranking| <= segments[e].documents
    requires forall e, i, j :: 0 <= e < |segments| && 0 <= i < j < |segments[e].ranking| ==>
               && segments[e].ranking[i].score >= segments[e].ranking[j].score
               && segments[e].ranking[i].docid != segments[e].ranking[j].docid
    requires forall e, f :: 0 <= e < f < |segments| ==> segments[e].generation != segments[f].generation
    ensures results == Truncated(Sort(Fetched(segments, topK)), topK)
    ensures IsTop(results, Sort(Everything(segments)), topK)
    ensures forall i, j :: 0 <= i < j < |results| ==>
              && results[i].score >= results[j].score
              && (results[i].score == results[j].score ==> results[i].generation <= results[j].generation)
              && (results[i].score == results[j].score && results[i].generation == results[j].generation ==>
                    results[i].docid < results[j].docid)
    ensures forall h :: h in results ==>
              exists e: nat, i: nat :: e < |segments| && i < |segments[e].ranking|
                && h.score == segments[e].ranking[i].score && h.docid == segments[e].ranking[i].docid
                && h.generation == segments[e].generation
                && h.docid !in segments[e].dead
                && (segments[e].admitted == None || h.docid in segments[e].admitted.value)
    ensures |results| <= topK
    ensures forall e: nat, i: nat :: e < |segments| && i < |segments[e].ranking| ==>
              var s, r := segments[e], segments[e].ranking[i];
              r.docid !in s.dead && (s.admitted == None || r.docid in s.admitted.value) ==>
                Hit(r.score, s.generation, r.docid) in results ||
                (|results| == topK && forall g :: g in results ==> g.score >= r.score)
  {
    hide WellRanked, Publishes, EligibleHits, IsTop, Everything, Sort, Cut, Sorted, Unique;
    SearchableIs(segments);
    results := [];
    ghost var n := Cuts(segments, topK);
    for which := 0 to |segments|
      invariant results == Published(segments, n, which)
    {
      assert WellRanked(segments[which]);
      results := SearchOneSegment(segments[which], topK, results);
    }
    FetchedIsTop(segments, topK);
    results := Sort(results);
    if |results| > topK {
      results := results[..topK];
    }
    TopIs(segments, topK, results);
    TopIsSorted(segments, topK, results);
  }

  // ----------------------------------------------------- which documents are returned

  /** h stands in some segment's ranking, beyond the part that is read. */
  ghost predicate Unread(segments: seq<Segment>, topK: nat, h: Hit) {
    exists e: nat, i: nat ::
      e < |segments| && Cut(segments[e], topK) <= i < |segments[e].ranking| && h == AsHit(segments[e], segments[e].ranking[i])
  }

  /** An eligible hit is fetched unless it stands beyond what is read of its segment. */
  lemma FetchedOrUnread(segments: seq<Segment>, topK: nat, h: Hit)
    requires Searchable(segments) && h in Everything(segments)
    ensures h in Fetched(segments, topK) <==> !Unread(segments, topK, h)
  {
    hide Cut;
    var n := Cuts(segments, topK);
    PublishedHas(segments, n, |segments|, h);
    PublishedHas(segments, Whole(segments), |segments|, h);
    var f: nat :| f < |segments| && h in EligibleHits(segments[f], Whole(segments)[f]);
    EligibleHas(segments[f], |segments[f].ranking|, h);
    EligibleHas(segments[f], n[f], h);
    var j: nat :| j < |segments[f].ranking| && Eligible(segments[f], segments[f].ranking[j].docid)
                  && h == AsHit(segments[f], segments[f].ranking[j]);
    forall e: nat, i: nat | e < |segments| && i < |segments[e].ranking| && h == AsHit(segments[e], segments[e].ranking[i])
      ensures e == f && i == j
    {
      assert WellRanked(segments[f]);
    }
    if h in Fetched(segments, topK) {
      var e: nat :| e < |segments| && h in EligibleHits(segments[e], n[e]);
      EligibleHas(segments[e], n[e], h);
    }
  }

  /**
   The documents are those of the complete ranking exactly when none of its first topK hits
   stands beyond what was read of its segment's own ranking.
   */
  lemma SearchDocuments(segments: seq<Segment>, topK: nat)
    requires Searchable(segments)
    ensures Truncated(Sort(Fetched(segments, topK)), topK) == Truncated(Sort(Everything(segments)), topK) <==>
            forall k: nat :: k < topK && k < |Sort(Everything(segments))| ==>
              !Unread(segments, topK, Sort(Everything(segments))[k])
  {
    var some, all := Sort(Fetched(segments, topK)), Sort(Everything(segments));
    var n := if topK < |all| then topK else |all|;
    FetchedIsSorted(segments, topK);
    hide Unique, Sorted, Searchable, Everything, Fetched, Unread, Suffices;
    SufficesLength(some, all, topK);
    TopAgrees(some, all, n);
    forall k: nat | k < n ensures all[k] in some <==> !Unread(segments, topK, all[k]) {
      assert all[k] in all;
      FetchedOrUnread(segments, topK, all[k]);
    }
    assert all[..|all|] == all && some[..|some|] == some;
  }

  lemma FetchedIsSorted(segments: seq<Segment>, topK: nat)
    requires Searchable(segments)
    ensures var some, all := Sort(Fetched(segments, topK)), Sort(Everything(segments));
            && Sorted(some) && Sorted(all) && Suffices(some, all, topK)
            && (forall h :: h in some <==> h in Fetched(segments, topK))
            && (forall h :: h in all <==> h in Everything(segments))
            && |some| == |Fetched(segments, topK)|
  {
    var n := Cuts(segments, topK);
    forall i | 0 <= i < |n| ensures Publishes(segments[i], topK, n[i]) {
      CutPublishes(segments[i], topK);
    }
    hide WellRanked, Publishes, Sorted, Suffices, Cut;
    PublishedSuffices(segments, n, topK);
    PublishedAreUnique(segments, n, |segments|);
    PublishedAreUnique(segments, Whole(segments), |segments|);
    SortIs(Fetched(segments, topK));
    SortIs(Everything(segments));
  }

  /** No ranking is cut off inside a tie. */
  ghost predicate ReadToScore(segments: seq<Segment>, topK: nat) {
    forall e :: 0 <= e < |segments| && 0 < Cut(segments[e], topK) < |segments[e].ranking| ==>
      segments[e].ranking[Cut(segments[e], topK) - 1].score > segments[e].ranking[Cut(segments[e], topK)].score
  }

  /** Then the search returns the documents of the complete ranking. */
  lemma SearchIsExact(segments: seq<Segment>, topK: nat)
    requires Searchable(segments) && ReadToScore(segments, topK)
    ensures Truncated(Sort(Fetched(segments, topK)), topK) == Truncated(Sort(Everything(segments)), topK)
  {
    var all := Sort(Everything(segments));
    FetchedIsSorted(segments, topK);
    SearchDocuments(segments, topK);
    hide Sorted, Searchable, Everything, Unread, ReadToScore, Suffices;
    forall k: nat | k < topK && k < |all| ensures !Unread(segments, topK, all[k]) {
      if Unread(segments, topK, all[k]) {
        UnreadComesLater(segments, topK, k);
        assert false;
      }
    }
  }

  lemma UnreadComesLater(segments: seq<Segment>, topK: nat, k: nat)
    requires Searchable(segments) && ReadToScore(segments, topK) && k < |Sort(Everything(segments))|
    requires Unread(segments, topK, Sort(Everything(segments))[k])
    ensures k >= topK
  {
    hide Sort, Everything, EligibleHits, WellRanked, Cut, Sorted, Suffices, Fetched;
    var all := Sort(Everything(segments));
    var h := all[k];
    var e: nat, i: nat :|
      e < |segments| && Cut(segments[e], topK) <= i < |segments[e].ranking| && h == AsHit(segments[e], segments[e].ranking[i]);
    var s := segments[e];
    if topK > 0 {
      var t := ReadScore(s, topK, i);
      FetchedIsSorted(segments, topK);
      forall g | g in Hits(EligibleHits(s, Cut(s, topK))) ensures g in AtLeast(Hits(all), t) {
        PublishedHas(segments, Cuts(segments, topK), |segments|, g);
        PublishedIsInAll(segments, Cuts(segments, topK), g);
      }
      SubsetCount(Hits(EligibleHits(s, Cut(s, topK))), AtLeast(Hits(all), t));
      RankByCount(all, k, t);
    }
  }

  /** What was read scores t at least, what was not read less. */
  lemma ReadScore(s: Segment, topK: nat, i: nat) returns (t: real)
    requires WellRanked(s) && topK > 0 && Cut(s, topK) <= i < |s.ranking|
    requires 0 < Cut(s, topK) ==> s.ranking[Cut(s, topK) - 1].score > s.ranking[Cut(s, topK)].score
    ensures t > s.ranking[i].score && |Hits(EligibleHits(s, Cut(s, topK)))| >= topK
    ensures forall g :: g in EligibleHits(s, Cut(s, topK)) ==> g.score >= t
  {
    var n := Cut(s, topK);
    CutPublishes(s, topK);
    assert n > 0;
    t := s.ranking[n - 1].score;
    EligibleScoreAtLeast(s, n, t);
    EligibleAreUnique(s, n);
    UniqueCount(EligibleHits(s, n));
  }

  /**
   An engine ranks the later of two equal documents first, the merged order the earlier.
   So a segment cut inside a tie can leave out the document the full ranking starts with.
   */
  lemma TiesMayBeCut()
    ensures var s := Segment(1, [Ranked(1, 5.0), Ranked(0, 5.0)], 2, {}, None);
            && Searchable([s])
            && Truncated(Sort(Fetched([s], 1)), 1) == [Hit(5.0, 1, 1)]
            && Truncated(Sort(Everything([s])), 1) == [Hit(5.0, 1, 0)]
  {
    var s := Segment(1, [Ranked(1, 5.0), Ranked(0, 5.0)], 2, {}, None);
    var a, b := Hit(5.0, 1, 1), Hit(5.0, 1, 0);
    assert EligibleHits(s, 1) == [a] && EligibleHits(s, 2) == [a, b];
    OneSegment(s, 1);
    TieSorted(a, b);
  }

  lemma OneSegment(s: Segment, topK: nat)
    ensures Fetched([s], topK) == EligibleHits(s, Cut(s, topK))
    ensures Everything([s]) == EligibleHits(s, |s.ranking|)
  {
    hide EligibleHits, Cut;
    assert Fetched([s], topK) == Published([s], Cuts([s], topK), 0) + EligibleHits(s, Cut(s, topK));
    assert Everything([s]) == Published([s], Whole([s]), 0) + EligibleHits(s, |s.ranking|);
  }

  lemma TieSorted(a: Hit, b: Hit)
    requires Before(b, a)
    ensures Sort([a]) == [a] && Sort([a, b]) == [b, a]
  {
    assert [a, b][..1] == [a] && [a][..0] == [];
    assert Sort([]) == [];
    assert Sort([a]) == Insert([], a) == [a];
    assert Sort([a, b]) == Insert([a], b) == Insert([], b) + [a];
  }
}
