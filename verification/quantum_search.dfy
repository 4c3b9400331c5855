/**
 search_quantum_at_a_time(): runs of equal impact, over all query terms, in descending
 order of impact, until none is left or the bound on what is left settles the best k.
 */
module QuantumSearch {
  import opened Sequences
  import opened TopKHeap
  import opened ResultLists
  import opened EarlyStop

  /** Documents in which a term has one and the same impact. */
  datatype Quantum = Quantum(impact: nat, docids: seq<nat>)

  type Term = seq<Quantum>

  /** Impacts descend and are never 0; a document occurs once in a term's postings. */
  ghost predicate WellFormed(t: Term, documents: nat) {
    && (forall i :: 0 <= i < |t| ==> t[i].impact >= 1 && Distinct(t[i].docids))
    && (forall i, k :: 0 <= i < |t| && 0 <= k < |t[i].docids| ==> t[i].docids[k] < documents)
    && (forall i, j :: 0 <= i < j < |t| ==> t[i].impact > t[j].impact)
    && (forall i, j, d :: 0 <= i < j < |t| && d in t[i].docids ==> d !in t[j].docids)
  }

  /** What the first n runs of a term add to document d. */
  function Contribution(t: Term, n: nat, d: nat): nat
    requires n <= |t|
  {
    if n == 0 then 0
    else Contribution(t, n - 1, d) + if d in t[n - 1].docids then t[n - 1].impact else 0
  }

  /** The impact of the next run, 0 when the term is exhausted. */
  function NextImpact(t: Term, n: nat): nat {
    if n < |t| then t[n].impact else 0
  }

  ghost predicate Positions(terms: seq<Term>, at: seq<nat>) {
    |at| == |terms| && forall i :: 0 <= i < |terms| ==> at[i] <= |terms[i]|
  }

  /** Document d's score from the runs processed so far of the first m terms. */
  function Score(terms: seq<Term>, at: seq<nat>, d: nat, m: nat): nat
    requires Positions(terms, at) && m <= |terms|
  {
    if m == 0 then 0 else Score(terms, at, d, m - 1) + Contribution(terms[m - 1], at[m - 1], d)
  }

  /** max_remaining_quantum: the next impacts of the first m terms together. */
  function Remaining(terms: seq<Term>, at: seq<nat>, m: nat): nat
    requires Positions(terms, at) && m <= |terms|
  {
    if m == 0 then 0 else Remaining(terms, at, m - 1) + NextImpact(terms[m - 1], at[m - 1])
  }

  /** Each term has its next run's impact in it, or nothing once it is exhausted. */
  lemma RemainingIs(terms: seq<Term>, at: seq<nat>, t: nat)
    requires Positions(terms, at) && t < |terms|
    ensures Remaining(terms, at, 0) == 0
    ensures Remaining(terms, at, t + 1) - Remaining(terms, at, t) == if at[t] < |terms[t]| then terms[t][at[t]].impact else 0
  {
  }

  function AllRuns(terms: seq<Term>): (r: seq<nat>)
    ensures |r| == |terms| && forall i :: 0 <= i < |terms| ==> r[i] == |terms[i]|
  {
    seq(|terms|, i requires 0 <= i < |terms| => |terms[i]|)
  }

  /** The score of d once everything has been processed. */
  function FullScore(terms: seq<Term>, d: nat): nat {
    Score(terms, AllRuns(terms), d, |terms|)
  }

  lemma WellFormedIs(t: Term, documents: nat)
    ensures WellFormed(t, documents) <==>
              && (forall i :: 0 <= i < |t| ==> t[i].impact >= 1)
              && (forall i, k :: 0 <= i < |t| && 0 <= k < |t[i].docids| ==> t[i].docids[k] < documents)
              && (forall i, k, l :: 0 <= i < |t| && 0 <= k < l < |t[i].docids| ==> t[i].docids[k] != t[i].docids[l])
              && (forall i, j :: 0 <= i < j < |t| ==> t[i].impact > t[j].impact)
              && (forall i, j, d :: 0 <= i < j < |t| && d in t[i].docids ==> d !in t[j].docids)
  {
  }

  /** In the end a term has added to a document the impact of the run that holds it, or nothing. */
  lemma {:induction false} ContributionIs(t: Term, documents: nat, n: nat, d: nat)
    requires WellFormed(t, documents) && n <= |t|
    ensures forall i :: 0 <= i < n && d in t[i].docids ==> Contribution(t, n, d) == t[i].impact
    ensures (forall i :: 0 <= i < n ==> d !in t[i].docids) ==> Contribution(t, n, d) == 0
  {
    if n > 0 {
      ContributionIs(t, documents, n - 1, d);
    }
  }

  /** And the terms' contributions add up. */
  lemma FullScoreAdds(terms: seq<Term>, t: Term, d: nat)
    ensures FullScore([], d) == 0 && FullScore(terms + [t], d) == FullScore(terms, d) + Contribution(t, |t|, d)
  {
    ScoreOfPrefix(terms, t, d, |terms|);
    assert FullScore(terms + [t], d)
        == Score(terms + [t], AllRuns(terms + [t]), d, |terms|) + Contribution(t, |t|, d);
  }

  lemma {:induction false} ScoreOfPrefix(terms: seq<Term>, t: Term, d: nat, m: nat)
    requires m <= |terms|
    ensures Score(terms + [t], AllRuns(terms + [t]), d, m) == Score(terms, AllRuns(terms), d, m)
  {
    if m > 0 {
      ScoreOfPrefix(terms, t, d, m - 1);
    }
  }

  // ------------------------------------------------------------- the bound on what is left

  lemma {:induction false} NoMore(t: Term, documents: nat, n: nat, m: nat, d: nat)
    requires WellFormed(t, documents) && n <= m <= |t| && n > 0 && d in t[n - 1].docids
    ensures Contribution(t, m, d) == Contribution(t, n, d)
    decreases m
  {
    if n < m {
      NoMore(t, documents, n, m - 1, d);
      assert d !in t[m - 1].docids;
    }
  }

  /** A term can add no more than its next impact, and adds it to a document once. */
  lemma {:induction false} TermBound(t: Term, documents: nat, n: nat, d: nat)
    requires WellFormed(t, documents) && n <= |t|
    ensures Contribution(t, n, d) <= Contribution(t, |t|, d) <= Contribution(t, n, d) + NextImpact(t, n)
    decreases |t| - n
  {
    if n < |t| {
      TermBound(t, documents, n + 1, d);
      if d in t[n].docids {
        NoMore(t, documents, n + 1, |t|, d);
      }
    }
  }

  /** No document's score can still grow by more than max_remaining_quantum. */
  lemma {:induction false} ScoreBound(terms: seq<Term>, documents: nat, at: seq<nat>, d: nat, m: nat)
    requires Positions(terms, at) && m <= |terms|
    requires forall i :: 0 <= i < |terms| ==> WellFormed(terms[i], documents)
    ensures Positions(terms, AllRuns(terms))
    ensures Score(terms, at, d, m) <= Score(terms, AllRuns(terms), d, m)
    ensures Score(terms, AllRuns(terms), d, m) <= Score(terms, at, d, m) + Remaining(terms, at, m)
  {
    hide WellFormed;
    if m > 0 {
      ScoreBound(terms, documents, at, d, m - 1);
      TermBound(terms[m - 1], documents, at[m - 1], d);
    }
  }

  // ---------------------------------------------------------------- processing one run

  lemma {:induction false} ScoreAdvances(terms: seq<Term>, at: seq<nat>, t: nat, d: nat, m: nat)
    requires Positions(terms, at) && t < |terms| && at[t] < |terms[t]| && m <= |terms|
    ensures Positions(terms, at[t := at[t] + 1])
    ensures Score(terms, at[t := at[t] + 1], d, m)
         == Score(terms, at, d, m) + if t < m && d in terms[t][at[t]].docids then terms[t][at[t]].impact else 0
  {
    if m > 0 {
      ScoreAdvances(terms, at, t, d, m - 1);
    }
  }

  lemma {:induction false} RemainingAdvances(terms: seq<Term>, at: seq<nat>, t: nat, m: nat)
    requires Positions(terms, at) && t < |terms| && at[t] < |terms[t]| && m <= |terms|
    ensures Positions(terms, at[t := at[t] + 1])
    ensures Remaining(terms, at[t := at[t] + 1], m) ==
              if t < m then Remaining(terms, at, m) - terms[t][at[t]].impact + NextImpact(terms[t], at[t] + 1)
              else Remaining(terms, at, m)
  {
    if m > 0 {
      RemainingAdvances(terms, at, t, m - 1);
    }
  }

  /** relevance_rank_one_quantum(): the run's impact, to each of its documents. */
  method RankQuantum(results: ResultList, q: Quantum)
    requires results.Sane() && q.impact >= 1 && Distinct(q.docids)
    requires forall k :: 0 <= k < |q.docids| ==> q.docids[k] < results.accumulator.Length
    modifies results`length, results.accumulator, results.pointers
    ensures results.Sane() && (old(results.Valid()) ==> results.Valid())
    ensures forall d :: 0 <= d < results.accumulator.Length ==>
              results.accumulator[d] == old(results.accumulator[d]) + if d in q.docids then q.impact else 0
  {
    for current := 0 to |q.docids|
      invariant results.Sane() && (old(results.Valid()) ==> results.Valid())
      invariant forall d :: 0 <= d < results.accumulator.Length ==>
                  results.accumulator[d] == old(results.accumulator[d]) + if d in q.docids[..current] then q.impact else 0
    {
      ghost var was := results.accumulator[..];
      results.AddRsv(q.docids[current], q.impact);
      assert results.accumulator[..] == Raised(was, q.docids[current], q.impact);
      assert q.docids[..current + 1] == q.docids[..current] + [q.docids[current]];
    }
    assert q.docids[..|q.docids|] == q.docids;
  }

  /** How many of the first m terms are not exhausted. */
  function Live(terms: seq<Term>, at: seq<nat>, m: nat): (r: nat)
    requires Positions(terms, at) && m <= |terms|
  {
    if m == 0 then 0 else Live(terms, at, m - 1) + if at[m - 1] < |terms[m - 1]| then 1 else 0
  }

  /** How many runs the first m terms have left. */
  function RunsLeft(terms: seq<Term>, at: seq<nat>, m: nat): (r: nat)
    requires Positions(terms, at) && m <= |terms|
  {
    if m == 0 then 0 else RunsLeft(terms, at, m - 1) + (|terms[m - 1]| - at[m - 1])
  }

  lemma {:induction false} LiveAdvances(terms: seq<Term>, at: seq<nat>, t: nat, m: nat)
    requires Positions(terms, at) && t < |terms| && at[t] < |terms[t]| && m <= |terms|
    ensures Positions(terms, at[t := at[t] + 1])
    ensures Live(terms, at[t := at[t] + 1], m) == Live(terms, at, m) - if t < m && at[t] + 1 == |terms[t]| then 1 else 0
    ensures RunsLeft(terms, at[t := at[t] + 1], m) == RunsLeft(terms, at, m) - if t < m then 1 else 0
  {
    if m > 0 {
      LiveAdvances(terms, at, t, m - 1);
    }
  }

  lemma {:induction false} NoneLive(terms: seq<Term>, at: seq<nat>, m: nat)
    requires Positions(terms, at) && m <= |terms|
    ensures Live(terms, at, m) == 0 <==> forall i :: 0 <= i < m ==> at[i] == |terms[i]|
  {
    if m > 0 {
      NoneLive(terms, at, m - 1);
    }
  }

  /** The root of the max-heap of terms: one whose next impact is largest. */
  method PickLargest(terms: seq<Term>, at: seq<nat>) returns (t: nat)
    requires Positions(terms, at) && Live(terms, at, |terms|) > 0
    ensures t < |terms| && at[t] < |terms[t]|
    ensures forall u :: 0 <= u < |terms| ==> NextImpact(terms[u], at[u]) <= terms[t][at[t]].impact
  {
    NoneLive(terms, at, |terms|);
    t := 0;
    while at[t] == |terms[t]|
      invariant t < |terms| && forall u :: 0 <= u < t ==> at[u] == |terms[u]|
      decreases |terms| - t
    {
      t := t + 1;
    }
    for u := 0 to |terms|
      invariant t < |terms| && at[t] < |terms[t]|
      invariant forall v :: 0 <= v < u ==> NextImpact(terms[v], at[v]) <= terms[t][at[t]].impact
    {
      if at[u] < |terms[u]| && terms[u][at[u]].impact > terms[t][at[t]].impact {
        t := u;
      }
    }
  }

  /** The first impacts together, and how many terms there are to process. */
  method SetUp(terms: seq<Term>) returns (at: seq<nat>, remaining: nat, live: nat)
    ensures at == seq(|terms|, i => 0) && Positions(terms, at)
    ensures remaining == Remaining(terms, at, |terms|) && live == Live(terms, at, |terms|)
  {
    at := seq(|terms|, i => 0);
    remaining, live := 0, 0;
    for term := 0 to |terms|
      invariant remaining == Remaining(terms, at, term) && live == Live(terms, at, term)
    {
      if |terms[term]| > 0 {
        remaining := remaining + terms[term][0].impact;
        live := live + 1;
      }
    }
  }

  lemma {:induction false} NothingScored(terms: seq<Term>, at: seq<nat>, d: nat, m: nat)
    requires Positions(terms, at) && m <= |terms| && forall i :: 0 <= i < |at| ==> at[i] == 0
    ensures Score(terms, at, d, m) == 0
  {
    if m > 0 {
      NothingScored(terms, at, d, m - 1);
    }
  }

  /** The accumulators hold what the processed runs add up to. */
  ghost predicate Scored(terms: seq<Term>, at: seq<nat>, s: seq<nat>) {
    Positions(terms, at) && forall d: nat :: d < |s| ==> s[d] == Score(terms, at, d, |terms|)
  }

  ghost predicate AllWellFormed(terms: seq<Term>, documents: nat) {
    forall i :: 0 <= i < |terms| ==> WellFormed(terms[i], documents)
  }

  lemma ScoredStarts(terms: seq<Term>, at: seq<nat>, s: seq<nat>)
    requires Positions(terms, at) && forall i :: 0 <= i < |at| ==> at[i] == 0
    requires forall d :: 0 <= d < |s| ==> s[d] == 0
    ensures Scored(terms, at, s)
  {
    forall d: nat | d < |s| ensures s[d] == Score(terms, at, d, |terms|) {
      NothingScored(terms, at, d, |terms|);
    }
  }

  lemma ScoredAdvances(terms: seq<Term>, at: seq<nat>, t: nat, was: seq<nat>, s: seq<nat>)
    requires Scored(terms, at, was) && t < |terms| && at[t] < |terms[t]| && |s| == |was|
    requires forall d :: 0 <= d < |s| ==> s[d] == was[d] + if d in terms[t][at[t]].docids then terms[t][at[t]].impact else 0
    ensures Scored(terms, at[t := at[t] + 1], s)
  {
    forall d: nat | d < |s| ensures Positions(terms, at[t := at[t] + 1])
      ensures s[d] == Score(terms, at[t := at[t] + 1], d, |terms|)
    {
      ScoreAdvances(terms, at, t, d, |terms|);
    }
    LiveAdvances(terms, at, t, |terms|);
  }

  lemma GoodRun(terms: seq<Term>, documents: nat, t: nat, n: nat)
    requires AllWellFormed(terms, documents) && t < |terms| && n < |terms[t]|
    ensures terms[t][n].impact >= 1 && Distinct(terms[t][n].docids)
    ensures forall k :: 0 <= k < |terms[t][n].docids| ==> terms[t][n].docids[k] < documents
  {
    assert WellFormed(terms[t], documents);
  }

  /** What a sort has left of the list, and the scores it went by. */
  datatype Sorting = Sorting(scores: seq<nat>, list: seq<nat>)

  /** The full list is still a heap. */
  ghost predicate KeepsHeap(x: Sorting, topK: nat) {
    InRange(x.scores, x.list) && (topK == |x.scores| || TiesAscend(x.scores, x.list))
  }

  ghost predicate AllKeepHeap(sorts: seq<Sorting>, topK: nat, n: nat)
    requires n <= |sorts|
  {
    forall i :: 0 <= i < n ==> KeepsHeap(sorts[i], topK)
  }

  /** The first sort that does not keep the heap does leave a list that is none. */
  ghost predicate Exactly(sorts: seq<Sorting>, topK: nat) {
    forall i :: 0 <= i < |sorts| && AllKeepHeap(sorts, topK, i) ==>
      (Lists(sorts[i].scores, sorts[i].list, topK) <==> KeepsHeap(sorts[i], topK))
  }

  /** The list is sorted, and the smallest difference the code finds is above `remaining`. */
  ghost predicate OrderTested(results: ResultList, remaining: int)
    reads results, results.accumulator, results.pointers
  {
    && 2 <= results.length <= results.pointers.Length
    && ByScore(results.accumulator[..], results.pointers[..results.length])
    && remaining < SmallestDiff(results.accumulator[..], results.pointers[..results.length], 0)
  }

  /** The lead of the best document, as the code finds it, is above `remaining`. */
  ghost predicate LeadTested(results: ResultList, remaining: int)
    reads results, results.accumulator, results.pointers
  {
    && results.length <= results.pointers.Length
    && InRange(results.accumulator[..], results.pointers[..results.length])
    && exists diff :: IsLead(results.accumulator[..], results.pointers[..results.length], diff) && remaining < diff
  }

  /** The flags of early_termination; the second and third ask for a further test. */
  datatype Flags = Flags(stopOnDiff: bool, smallest: bool, largest: bool) {
    /** The entries of the list that the tests look at. */
    function Least(): nat {
      if largest && !smallest then 3 else 2
    }
  }

  /**
   QUANTUM_STOP_DIFF, and on top of it QUANTUM_STOP_DIFF_SMALLEST, which sorts the list when
   the first test has passed, or QUANTUM_STOP_DIFF_LARGEST.
   */
  method StopTest(results: ResultList, remaining: nat, flags: Flags, qsort: (seq<nat>, seq<nat>) -> seq<nat>)
    returns (stop: bool)
    requires results.Sane() && results.length >= results.topK >= flags.Least() && (flags.smallest ==> Sorts(qsort))
    modifies results.pointers
    ensures results.Sane()
    ensures stop ==> remaining < results.TestedDiff()
    ensures var sorts := flags.smallest && old(remaining < results.TestedDiff());
            var p, q := old(results.pointers[..results.length]), results.pointers[..results.length];
            && (!sorts ==> results.pointers[..] == old(results.pointers[..]))
            && (!flags.smallest ==>
                  (stop <==> remaining < results.TestedDiff() && (flags.largest ==> LeadTested(results, remaining))))
            && (sorts ==> SameDocuments(p, q) && ByScore(results.accumulator[..], q))
            && (flags.smallest ==> (stop <==> sorts && OrderTested(results, remaining)))
            && (sorts && old(results.Valid()) ==>
                  (results.Valid() <==> KeepsHeap(Sorting(results.accumulator[..], q), results.topK)))
  {
    hide SameDocuments, Lists, Holds, SmallestDiff, TiesAscend, IsLead;
    var diff := results.Diff();
    stop := remaining < diff;
    if stop && flags.smallest {
      ghost var s, p := results.accumulator[..], results.pointers[..results.length];
      InTheList(results);
      results.SortByScore(qsort);
      var least := GetSmallestDiff(results.accumulator, results.pointers, results.length);
      stop := remaining < least;
      if stop {
        StillTested(s, p, results.pointers[..results.length], remaining);
      }
    } else if stop && flags.largest {
      InTheList(results);
      var lead := GetLargestDiff(results.accumulator, results.pointers, results.length);
      stop := remaining < lead;
      LeadDecides(results, lead, remaining);
    }
  }

  lemma LeadDecides(results: ResultList, lead: int, remaining: int)
    requires results.length <= results.pointers.Length
    requires InRange(results.accumulator[..], results.pointers[..results.length])
    requires IsLead(results.accumulator[..], results.pointers[..results.length], lead)
    ensures LeadTested(results, remaining) <==> remaining < lead
  {
    hide IsLead;
    if LeadTested(results, remaining) {
      var s, q := results.accumulator[..], results.pointers[..results.length];
      var diff :| IsLead(s, q, diff) && remaining < diff;
      LeadIsUnique(s, q, diff, lead);
    }
  }

  lemma InTheList(results: ResultList)
    requires results.Sane()
    ensures InRange(results.accumulator[..], results.pointers[..results.length]) && results.length <= results.topK
  {
  }

  // ------------------------------------------------------------------ the whole loop

  /** How far each term has come, max_remaining_quantum, and heap_items. */
  datatype Progress = Progress(at: seq<nat>, remaining: int, live: nat)

  ghost predicate Tracks(terms: seq<Term>, now: Progress, s: seq<nat>) {
    && Scored(terms, now.at, s)
    && now.remaining == Remaining(terms, now.at, |terms|) && now.live == Live(terms, now.at, |terms|)
  }

  /** Term t's next run, which has the largest impact, was processed. */
  ghost predicate ProcessedOf(terms: seq<Term>, was: Progress, now: Progress, t: nat)
    requires Positions(terms, was.at)
  {
    && t < |terms| && was.at[t] < |terms[t]| && now.at == was.at[t := was.at[t] + 1]
    && forall u :: 0 <= u < |terms| ==> NextImpact(terms[u], was.at[u]) <= terms[t][was.at[t]].impact
  }

  /** One of the runs with the largest impact was processed. */
  ghost predicate Processed(terms: seq<Term>, was: Progress, now: Progress)
    requires Positions(terms, was.at)
  {
    exists t: nat :: ProcessedOf(terms, was, now, t)
  }

  /** The run on top of the heap of terms, and the bound on what is left after it. */
  method ProcessRun(terms: seq<Term>, results: ResultList, was: Progress) returns (now: Progress)
    requires results.Sane() && AllWellFormed(terms, results.accumulator.Length)
    requires Tracks(terms, was, results.accumulator[..]) && was.live > 0
    modifies results`length, results.accumulator, results.pointers
    ensures results.Sane() && (old(results.Valid()) ==> results.Valid())
    ensures Tracks(terms, now, results.accumulator[..]) && Processed(terms, was, now)
  {
    hide AllWellFormed, Scored, Lists, Holds, Distinct;
    ScoredPositions(terms, was.at, results.accumulator[..]);
    var t := PickLargest(terms, was.at);
    var run := terms[t][was.at[t]];
    GoodRun(terms, results.accumulator.Length, t, was.at[t]);
    ghost var scores := results.accumulator[..];
    RankQuantum(results, run);
    var at, remaining, live := was.at[t := was.at[t] + 1], was.remaining - run.impact, was.live;
    if at[t] < |terms[t]| {
      remaining := remaining + terms[t][at[t]].impact;
    } else {
      live := live - 1;
    }
    now := Progress(at, remaining, live);
    StillTracks(terms, was, t, scores, results.accumulator[..], now);
    assert ProcessedOf(terms, was, now, t);
  }

  lemma StillTracks(terms: seq<Term>, was: Progress, t: nat, before: seq<nat>, s: seq<nat>, now: Progress)
    requires Tracks(terms, was, before) && t < |terms| && was.at[t] < |terms[t]| && |s| == |before|
    requires forall d :: 0 <= d < |s| ==>
               s[d] == before[d] + if d in terms[t][was.at[t]].docids then terms[t][was.at[t]].impact else 0
    requires now.at == was.at[t := was.at[t] + 1]
    requires now.remaining == was.remaining - terms[t][was.at[t]].impact + NextImpact(terms[t], now.at[t])
    requires now.live == was.live - if now.at[t] == |terms[t]| then 1 else 0
    ensures Tracks(terms, now, s)
  {
    ScoredAdvances(terms, was.at, t, before, s);
    RemainingAdvances(terms, was.at, t, |terms|);
    LiveAdvances(terms, was.at, t, |terms|);
  }

  lemma ScoredPositions(terms: seq<Term>, at: seq<nat>, s: seq<nat>)
    requires Scored(terms, at, s)
    ensures Positions(terms, at)
  {
  }

  lemma ProcessedShortens(terms: seq<Term>, was: Progress, now: Progress)
    requires Positions(terms, was.at) && Processed(terms, was, now)
    ensures Positions(terms, now.at) && RunsLeft(terms, now.at, |terms|) < RunsLeft(terms, was.at, |terms|)
  {
    var t: nat :| ProcessedOf(terms, was, now, t);
    LiveAdvances(terms, was.at, t, |terms|);
  }

  /**
   One round of the loop: the test, once the list is full, and then a run unless the test
   ends the search.  `sorts` is what the test has sorted without ending it.
   */
  method Round(terms: seq<Term>, results: ResultList, was: Progress, flags: Flags,
               qsort: (seq<nat>, seq<nat>) -> seq<nat>)
    returns (now: Progress, stopped: bool, ghost sorts: seq<Sorting>)
    requires results.Sane() && AllWellFormed(terms, results.accumulator.Length)
    requires Tracks(terms, was, results.accumulator[..]) && was.live > 0
    requires (flags.stopOnDiff ==> results.topK >= flags.Least()) && (flags.smallest ==> Sorts(qsort))
    modifies results`length, results.accumulator, results.pointers
    ensures results.Sane() && Tracks(terms, now, results.accumulator[..])
    ensures stopped ==> now == was && flags.stopOnDiff && results.length == results.topK >= 2 && sorts == []
    ensures stopped ==> now.remaining < results.TestedDiff()
    ensures stopped && flags.smallest ==> OrderTested(results, now.remaining)
    ensures stopped && !flags.smallest && flags.largest ==> LeadTested(results, now.remaining)
    ensures stopped && flags.smallest && old(results.Valid()) ==> WasListed(results)
    ensures !flags.smallest ==>
              (stopped <==> flags.stopOnDiff && old(results.length >= results.topK && was.remaining < results.TestedDiff() &&
                                                    (flags.largest ==> LeadTested(results, was.remaining))))
    ensures !flags.smallest ==> sorts == []
    ensures !stopped ==> Processed(terms, was, now)
    ensures !stopped && old(results.Valid()) && AllKeepHeap(sorts, results.topK, |sorts|) ==> results.Valid()
    ensures stopped && !flags.smallest && old(results.Valid()) ==> results.Valid()
    ensures |sorts| <= 1 && (old(results.Valid()) ==> Exactly(sorts, results.topK))
  {
    hide AllWellFormed, Scored, Holds, SameDocuments, ByScore, SmallestDiff, Processed, Tracks, TiesAscend, IsLead;
    now, stopped, sorts := was, false, [];
    if flags.stopOnDiff && results.length >= results.topK {
      InTheList(results);
      ghost var p := results.pointers[..results.length];
      ghost var valid, sorting := results.Valid(), flags.smallest && was.remaining < results.TestedDiff();
      RemainingIsNatural(terms, was, results.accumulator[..]);
      stopped := StopTest(results, was.remaining, flags, qsort);
      if sorting && !stopped {
        sorts := [Sorting(results.accumulator[..], results.pointers[..results.length])];
      }
      if sorting && valid {
        if stopped {
          assert Before(results, p);
        } else {
          assert AllKeepHeap(sorts, results.topK, 1) <==> KeepsHeap(sorts[0], results.topK);
        }
      }
    }
    if !stopped {
      now := ProcessRun(terms, results, was);
    }
  }

  lemma RemainingIsNatural(terms: seq<Term>, now: Progress, s: seq<nat>)
    requires Tracks(terms, now, s)
    ensures now.remaining >= 0
  {
  }

  /** The list came out of a sort of this one. */
  ghost predicate Before(results: ResultList, p: seq<nat>)
    reads results, results.accumulator, results.pointers
  {
    && results.length <= results.pointers.Length
    && Lists(results.accumulator[..], p, results.topK) && SameDocuments(p, results.pointers[..results.length])
  }

  ghost predicate WasListed(results: ResultList)
    reads results, results.accumulator, results.pointers
  {
    exists p :: Before(results, p)
  }

  /**
   The whole search: either everything is processed, or the loop stopped with a full list
   and a difference, as the code computes it, above all that any document could still gain;
   when the order counts, too, with a sorted list and the smallest of its differences.
   `sorts` are the sorts after which the search went on: as long as each of them kept the
   heap, the list is one -- and no longer, with the first that does not.
   */
  method Search(terms: seq<Term>, results: ResultList, flags: Flags,
                qsort: (seq<nat>, seq<nat>) -> seq<nat>)
    returns (ghost at: seq<nat>, stopped: bool, ghost sorts: seq<Sorting>)
    requires results.Valid() && AllWellFormed(terms, results.accumulator.Length)
    requires forall d :: 0 <= d < results.accumulator.Length ==> results.accumulator[d] == 0
    requires (flags.stopOnDiff ==> results.topK >= flags.Least()) && (flags.smallest ==> Sorts(qsort))
    modifies results`length, results.accumulator, results.pointers
    ensures results.Sane() && Scored(terms, at, results.accumulator[..])
    ensures !stopped ==> at == AllRuns(terms)
    ensures stopped ==> flags.stopOnDiff && results.length == results.topK >= 2
    ensures stopped ==> Remaining(terms, at, |terms|) < results.TestedDiff()
    ensures stopped && flags.smallest ==> OrderTested(results, Remaining(terms, at, |terms|))
    ensures stopped && !flags.smallest && flags.largest ==> LeadTested(results, Remaining(terms, at, |terms|))
    ensures AllKeepHeap(sorts, results.topK, |sorts|) ==> if stopped && flags.smallest then WasListed(results) else results.Valid()
    ensures Exactly(sorts, results.topK) && (!flags.smallest ==> sorts == [])
  {
    hide AllWellFormed, Scored, Lists, Holds, WasListed, KeepsHeap, Processed, IsLead;
    var cursors, remaining, live := SetUp(terms);
    ScoredStarts(terms, cursors, results.accumulator[..]);
    ListsHolds(results.accumulator[..], results.pointers[..results.length], results.topK);
    var now := Progress(cursors, remaining, live);
    stopped := false;
    sorts := [];
    while now.live > 0 && !stopped
      invariant results.Sane() && Tracks(terms, now, results.accumulator[..]) && Positions(terms, now.at)
      invariant stopped ==> flags.stopOnDiff && results.length == results.topK >= 2
      invariant stopped ==> now.remaining < results.TestedDiff()
      invariant stopped && flags.smallest ==> OrderTested(results, now.remaining)
      invariant stopped && !flags.smallest && flags.largest ==> LeadTested(results, now.remaining)
      invariant AllKeepHeap(sorts, results.topK, |sorts|) ==> if stopped && flags.smallest then WasListed(results) else results.Valid()
      invariant Exactly(sorts, results.topK) && (!flags.smallest ==> sorts == [])
      decreases !stopped, RunsLeft(terms, now.at, |terms|)
    {
      ghost var was, before, more := now, sorts, [];
      ghost var valid := results.Valid();
      now, stopped, more := Round(terms, results, now, flags, qsort);
      sorts := before + more;
      SortsJoin(before, more, results.topK, valid);
      if !stopped {
        ProcessedShortens(terms, was, now);
      }
    }
    NoneLive(terms, now.at, |terms|);
    at := now.at;
    if !stopped {
      assert at == AllRuns(terms);
    }
  }

  lemma SortsJoin(before: seq<Sorting>, more: seq<Sorting>, topK: nat, valid: bool)
    requires |more| <= 1 && Exactly(before, topK) && (valid ==> Exactly(more, topK))
    requires AllKeepHeap(before, topK, |before|) ==> valid
    ensures Exactly(before + more, topK)
    ensures AllKeepHeap(before + more, topK, |before + more|) <==>
            AllKeepHeap(before, topK, |before|) && AllKeepHeap(more, topK, |more|)
  {
    hide KeepsHeap;
    var all := before + more;
    forall i | 0 <= i < |all| && AllKeepHeap(all, topK, i)
      ensures Lists(all[i].scores, all[i].list, topK) <==> KeepsHeap(all[i], topK)
    {
      if i < |before| {
        assert forall j :: 0 <= j < i ==> all[j] == before[j];
        assert AllKeepHeap(before, topK, i);
      } else {
        assert forall j :: 0 <= j < |before| ==> all[j] == before[j];
        assert AllKeepHeap(before, topK, |before|) && AllKeepHeap(more, topK, 0);
        assert all[i] == more[0];
      }
    }
    assert forall j :: 0 <= j < |before| ==> all[j] == before[j];
    assert forall j :: 0 <= j < |more| ==> all[|before| + j] == more[j];
  }

  // --------------------------------------------------------------- what stopping leaves

  function FullScores(terms: seq<Term>, documents: nat): (r: seq<nat>)
    ensures |r| == documents && forall d :: 0 <= d < documents ==> r[d] == FullScore(terms, d)
  {
    seq(documents, d requires 0 <= d < documents => FullScore(terms, d))
  }

  /** Processing the rest is one of the outcomes the bound allows for. */
  lemma RestIsPossible(terms: seq<Term>, at: seq<nat>, s: seq<nat>)
    requires Scored(terms, at, s) && AllWellFormed(terms, |s|)
    ensures Possible(s, Remaining(terms, at, |terms|), FullScores(terms, |s|))
  {
    forall d: nat | d < |s| ensures s[d] <= FullScore(terms, d) <= s[d] + Remaining(terms, at, |terms|) {
      ScoreBound(terms, |s|, at, d, |terms|);
    }
  }

  /**
   When the loop stops early, the k documents above the heap's root are the k best of
   exhaustive processing, provided the root's child that lies first in memory is not the
   higher one (or is higher by one on a tie the root would lose).
   */
  lemma EarlyStopIsExact(terms: seq<Term>, at: seq<nat>, s: seq<nat>, p: seq<nat>, topK: nat)
    requires Scored(terms, at, s) && AllWellFormed(terms, |s|)
    requires Lists(s, p, topK) && |p| == topK < |s| && topK >= 2
    requires Remaining(terms, at, |terms|) < Gap(s, FirstChild(p), p[0])
    requires topK == 2 || s[FirstChild(p)] <= s[OtherChild(p)] ||
             (s[FirstChild(p)] == s[OtherChild(p)] + 1 && p[0] < OtherChild(p))
    ensures Outranks(FullScores(terms, |s|), Best(p)) && |Best(p)| == topK - 1
  {
    RestIsPossible(terms, at, s);
    HeapBorders(s, p, topK);
    if topK == 2 {
      PointerOrderStopOfTwo(s, p);
    } else {
      PointerOrderStop(s, p, topK);
    }
    assert Settled(s, Best(p), Remaining(terms, at, |terms|));
  }

  /**
   Under QUANTUM_STOP_DIFF_SMALLEST neither the order of the children in memory nor the order
   the sort leaves between equal scores matters: the k documents are the k best of exhaustive
   processing, and in their final order -- but for the best two, whose order is final if the
   second cannot catch up with the first.
   */
  lemma SmallestStopIsExact(terms: seq<Term>, at: seq<nat>, s: seq<nat>, p: seq<nat>, q: seq<nat>, topK: nat)
    requires Scored(terms, at, s) && AllWellFormed(terms, |s|)
    requires Lists(s, p, topK) && |p| == topK < |s| && topK >= 3 && SameDocuments(p, q) && ByScore(s, q)
    requires Remaining(terms, at, |terms|) < SmallestDiff(s, q, 0)
    ensures Outranks(FullScores(terms, |s|), Best(q)) && |Best(q)| == topK - 1
    ensures forall i, j :: 0 <= i < j < topK && i < topK - 2 ==> Below(FullScores(terms, |s|), q[i], q[j])
    ensures s[q[topK - 2]] + Remaining(terms, at, |terms|) < s[q[topK - 1]] ==>
              Below(FullScores(terms, |s|), q[topK - 2], q[topK - 1])
  {
    hide AllWellFormed, Lists, SameDocuments;
    SameLength(p, q);
    var remaining, full := Remaining(terms, at, |terms|), FullScores(terms, |s|);
    RestIsPossible(terms, at, s);
    HeapBorders(s, p, topK);
    SmallestStop(s, p, q, topK, remaining);
    forall i: nat, j: nat | i < j < topK && i < topK - 2 ensures Below(full, q[i], q[j]) {
      PairSettled(s, q, remaining, i, j, full);
    }
  }

  /**
   Under QUANTUM_STOP_DIFF_LARGEST the document with the lead is the best of exhaustive
   processing, unless the list's last entry, which the code leaves out, can contest that.
   */
  lemma LargestStopIsExact(terms: seq<Term>, at: seq<nat>, s: seq<nat>, p: seq<nat>, topK: nat, a: nat, b: nat)
    requires Scored(terms, at, s) && AllWellFormed(terms, |s|)
    requires Lists(s, p, topK) && |p| == topK < |s| && topK >= 3
    requires Leads(s, p, 0, a, b) && Remaining(terms, at, |terms|) < Gap(s, p[a], p[b])
    ensures forall x: nat :: x < |s| && x != p[a] && x != p[|p| - 1] ==> Below(FullScores(terms, |s|), x, p[a])
    ensures s[p[|p| - 1]] + Remaining(terms, at, |terms|) < s[p[a]] ==> Outranks(FullScores(terms, |s|), {p[a]})
  {
    hide AllWellFormed, Lists;
    RestIsPossible(terms, at, s);
    OthersAreBelow(s, p, topK, a, b);
  }

  /** Without stopping, the list holds the best documents by the full scores. */
  lemma FullSearchIsExact(terms: seq<Term>, s: seq<nat>, p: seq<nat>, topK: nat)
    requires Scored(terms, AllRuns(terms), s) && Lists(s, p, topK) && |p| == topK < |s|
    ensures s == FullScores(terms, |s|)
    ensures Outranks(s, Elements(p))
    ensures forall a: nat, b: nat :: a < |s| && b < |s| && a in p && b !in p ==>
              FullScore(terms, b) < FullScore(terms, a) || (FullScore(terms, b) == FullScore(terms, a) && b < a)
  {
    forall a: nat, b: nat | a < |s| && b < |s| && a in Elements(p) && b !in Elements(p) ensures Below(s, b, a) {
      var j: nat :| j < |p| && p[j] == a;
      RootIsLeast(s, p, j);
    }
    forall a: nat, b: nat | a < |s| && b < |s| && a in p && b !in p
      ensures FullScore(terms, b) < FullScore(terms, a) || (FullScore(terms, b) == FullScore(terms, a) && b < a)
    {
      assert a in Elements(p) && b !in Elements(p) && Below(s, b, a);
    }
  }

  // ------------------------------------------------------- where stopping goes wrong

  const FIRST_TERM: Term := [Quantum(100, [1]), Quantum(50, [2]), Quantum(40, [0])]
  const SECOND_TERM: Term := [Quantum(30, [0])]
  const QUERY: seq<Term> := [FIRST_TERM, SECOND_TERM]
  const PROCESSED: seq<nat> := [3, 0]
  const SCORES: seq<nat> := [40, 100, 50, 0]

  lemma WitnessIsWellFormed()
    ensures AllWellFormed(QUERY, 4)
  {
    assert WellFormed(FIRST_TERM, 4) && WellFormed(SECOND_TERM, 4);
  }

  lemma WitnessScores(d: nat)
    requires d < 4
    ensures Positions(QUERY, PROCESSED) && Score(QUERY, PROCESSED, d, 2) == SCORES[d]
  {
    assert Contribution(FIRST_TERM, 3, d) == SCORES[d] && Contribution(SECOND_TERM, 0, d) == 0;
    assert Score(QUERY, PROCESSED, d, 1) == Score(QUERY, PROCESSED, d, 0) + Contribution(FIRST_TERM, 3, d);
    assert Score(QUERY, PROCESSED, d, 2) == Score(QUERY, PROCESSED, d, 1) + Contribution(SECOND_TERM, 0, d);
  }

  lemma WitnessRemaining()
    ensures Positions(QUERY, PROCESSED) && Remaining(QUERY, PROCESSED, 2) == 30
  {
    assert Remaining(QUERY, PROCESSED, 1) == Remaining(QUERY, PROCESSED, 0) + NextImpact(FIRST_TERM, 3);
    assert Remaining(QUERY, PROCESSED, 2) == Remaining(QUERY, PROCESSED, 1) + NextImpact(SECOND_TERM, 0);
  }

  lemma WitnessOvertakes()
    ensures FullScore(QUERY, 0) == 70 && FullScore(QUERY, 2) == 50
  {
    WitnessScores(0);
    WitnessScores(2);
    ScoreAdvances(QUERY, PROCESSED, 1, 0, 2);
    ScoreAdvances(QUERY, PROCESSED, 1, 2, 2);
    assert PROCESSED[1 := 1] == AllRuns(QUERY);
  }

  lemma WitnessProgress(n: nat, t: nat, was: Progress, now: Progress)
    requires n < 3 && was.at == [n, 0] && Positions(QUERY, was.at) && ProcessedOf(QUERY, was, now, t)
    ensures now.at == [n + 1, 0]
  {
    assert NextImpact(QUERY[0], was.at[0]) >= 40;
    assert t == 0;
  }

  /** A list that is not full has the documents found, a full one only such. */
  lemma FoundSoFar(s: seq<nat>, p: seq<nat>, found: set<nat>)
    requires Lists(s, p, 3) && |s| == 4 && forall d :: 0 <= d < 4 ==> (d in found <==> s[d] > 0)
    requires forall d :: d in found ==> d < 4
    ensures |p| == if |found| < 3 then |found| else 3
  {
    DistinctCounts(p);
    SubsetCounts(Elements(p), found);
    if |p| < 3 {
      assert Elements(p) == found;
    }
  }

  /** The three runs of the first term fill the list. */
  method FillWitness() returns (results: ResultList, now: Progress)
    ensures fresh(results) && fresh(results.accumulator) && fresh(results.pointers)
    ensures results.Valid() && results.topK == 3 && results.accumulator.Length == 4
    ensures now.at == PROCESSED && Tracks(QUERY, now, results.accumulator[..])
  {
    hide AllWellFormed, Lists, Holds, Scored, Remaining, Live;
    WitnessIsWellFormed();
    results := new ResultList(4, 3);
    var at, remaining, live := SetUp(QUERY);
    ScoredStarts(QUERY, at, results.accumulator[..]);
    now := Progress(at, remaining, live);
    assert at == [0, 0];
    for n := 0 to 3
      invariant fresh(results) && fresh(results.accumulator) && fresh(results.pointers)
      invariant results.Valid() && results.topK == 3 && results.accumulator.Length == 4
      invariant now.at == [n, 0] && Tracks(QUERY, now, results.accumulator[..])
    {
      now := FillOne(results, n, now);
    }
  }

  method FillOne(results: ResultList, n: nat, was: Progress) returns (now: Progress)
    requires n < 3 && was.at == [n, 0] && Tracks(QUERY, was, results.accumulator[..])
    requires results.Valid() && results.topK == 3 && results.accumulator.Length == 4
    modifies results`length, results.accumulator, results.pointers
    ensures results.Valid() && now.at == [n + 1, 0] && Tracks(QUERY, now, results.accumulator[..])
  {
    hide AllWellFormed, Lists, Holds, Scored, Remaining, Live, ProcessedOf;
    WitnessIsWellFormed();
    ListsHolds(results.accumulator[..], results.pointers[..results.length], 3);
    ScoredPositions(QUERY, was.at, results.accumulator[..]);
    LiveWitness(was, n);
    NotFull(results, was, n);
    var stopped;
    ghost var sorts;
    now, stopped, sorts := Round(QUERY, results, was, Flags(true, false, false), (s, p) => p);
    ghost var t: nat :| ProcessedOf(QUERY, was, now, t);
    WitnessProgress(n, t, was, now);
  }

  lemma LiveWitness(now: Progress, n: nat)
    requires n <= 3 && now.at == [n, 0] && Positions(QUERY, now.at) && now.live == Live(QUERY, now.at, 2)
    ensures now.live > 0
  {
    NoneLive(QUERY, now.at, 2);
  }

  lemma NotFull(results: ResultList, now: Progress, n: nat)
    requires n < 3 && now.at == [n, 0] && Tracks(QUERY, now, results.accumulator[..])
    requires results.Valid() && results.topK == 3 && results.accumulator.Length == 4
    ensures results.length < 3
  {
    var s := results.accumulator[..];
    forall d: nat | d < 4 ensures s[d] == Contribution(FIRST_TERM, n, d) {
      assert Score(QUERY, now.at, d, 1) == Score(QUERY, now.at, d, 0) + Contribution(FIRST_TERM, n, d);
      assert Score(QUERY, now.at, d, 2) == Score(QUERY, now.at, d, 1) + Contribution(SECOND_TERM, 0, d);
    }
    var found := if n == 0 then {} else if n == 1 then {1} else {1, 2};
    hide Lists;
    FoundSoFar(s, results.pointers[..results.length], found);
  }

  /**
   Two terms, four documents, the best two wanted.  After the runs of impact 100, 50 and
   40 the list is a heap with documents 1 and 2 under document 0.  The difference taken is
   that to document 1, which lies first, so 30 remaining is taken to be too little, and the
   next round ends the search -- but document 0 would have overtaken document 2.
   */
  method EarlyStopCanBeWrong() returns (results: ResultList, stopped: bool)
    ensures AllWellFormed(QUERY, 4) && fresh(results) && stopped
    ensures results.Valid() && results.length == results.topK == 3 && results.accumulator[..] == SCORES
    ensures var best := Best(results.pointers[..3]);
            best == {1, 2} && !Outranks(FullScores(QUERY, 4), best)
  {
    hide AllWellFormed, Holds, Scored, Live;
    WitnessIsWellFormed();
    var now;
    results, now := FillWitness();
    TestPasses(results, now);
    LiveWitness(now, 3);
    ghost var sorts;
    now, stopped, sorts := Round(QUERY, results, now, Flags(true, false, false), (s, p) => p);
    TestPasses(results, now);
    WitnessOvertakes();
    assert !Below(FullScores(QUERY, 4), 0, 2);
  }

  lemma TestPasses(results: ResultList, now: Progress)
    requires results.Valid() && results.topK == 3 && results.accumulator.Length == 4
    requires now.at == PROCESSED && Tracks(QUERY, now, results.accumulator[..])
    ensures results.Sane() && results.length == 3 && results.accumulator[..] == SCORES
    ensures now.remaining < results.TestedDiff() && Best(results.pointers[..3]) == {1, 2}
  {
    var s, p := results.accumulator[..], results.pointers[..results.length];
    forall d: nat | d < 4 ensures s[d] == SCORES[d] {
      WitnessScores(d);
    }
    assert s == SCORES;
    WitnessRemaining();
    FoundSoFar(s, p, {0, 1, 2});
    RootOfWitness(p);
  }

  lemma RootOfWitness(p: seq<nat>)
    requires Lists(SCORES, p, 3) && |p| == 3
    ensures p[0] == 0 && FirstChild(p) == 1 && Best(p) == {1, 2}
  {
    assert p[0] in p && p[1] in p && p[2] in p;
    assert p[0] != 3 && p[1] != 3 && p[2] != 3;
    RootIsLeast(SCORES, p, 1);
    RootIsLeast(SCORES, p, 2);
  }
}
