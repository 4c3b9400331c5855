/** The walk of merge_index() over the engines' sorted term lists. */
module TermWalk {

  /** strcmp(a, b) < 0. */
  predicate Less(a: string, b: string)
    decreases |b|
  {
    if b == "" then false
    else if a == "" then true
    else a[0] < b[0] || (a[0] == b[0] && Less(a[1..], b[1..]))
  }

  /** The first character in which two strings differ decides; a prefix comes first. */
  lemma {:induction false} LessIs(same: string, a: string, b: string)
    ensures b != "" ==> Less(same, same + b)
    ensures a != "" && b != "" && a[0] != b[0] ==> (Less(same + a, same + b) <==> a[0] < b[0])
    decreases |same|
  {
    if same != "" {
      assert (same + a)[1..] == same[1..] + a && (same + b)[1..] == same[1..] + b;
      LessIs(same[1..], a, b);
    }
  }

  lemma {:induction false} LessIsTotal(a: string, b: string)
    ensures Less(a, b) || Less(b, a) || a == b
    ensures !(Less(a, b) && Less(b, a))
    decreases |a| + |b|
  {
    if a != "" && b != "" && a[0] == b[0] {
      LessIsTotal(a[1..], b[1..]);
      assert a == [a[0]] + a[1..] && b == [b[0]] + b[1..];
    }
  }

  lemma {:induction false} LessIsIrreflexive(a: string)
    ensures !Less(a, a)
    decreases |a|
  {
    if a != "" {
      LessIsIrreflexive(a[1..]);
    }
  }

  lemma {:induction false} LessIsTransitive(a: string, b: string, c: string)
    requires Less(a, b) && Less(b, c)
    ensures Less(a, c)
    decreases |b|
  {
    if a != "" && a[0] == b[0] == c[0] {
      LessIsTransitive(a[1..], b[1..], c[1..]);
    }
  }

  /** A term to merge, and which engines have it. */
  datatype Merge = Merge(term: string, engines: seq<bool>)

  ghost predicate Sorted(list: seq<string>) {
    forall i, j :: 0 <= i < j < |list| ==> Less(list[i], list[j])
  }

  /** Variables are dealt with elsewhere; an intersection keeps only its own terms. */
  predicate Kept(term: string, intersect: bool, wanted: set<string>) {
    (term == "" || term[0] != '~') && (!intersect || term in wanted)
  }

  ghost predicate Positions(terms: seq<seq<string>>, at: seq<nat>) {
    |at| == |terms| && forall e :: 0 <= e < |terms| ==> at[e] <= |terms[e]|
  }

  /** Everything behind the positions precedes everything from them on. */
  ghost predicate Divided(terms: seq<seq<string>>, at: seq<nat>)
    requires Positions(terms, at)
  {
    forall e, j, f, k :: 0 <= e < |terms| && 0 <= j < at[e] && 0 <= f < |terms| && at[f] <= k < |terms[f]| ==>
      Less(terms[e][j], terms[f][k])
  }

  /** Some engine has passed the term. */
  ghost predicate Behind(terms: seq<seq<string>>, at: seq<nat>, term: string)
    requires Positions(terms, at)
  {
    exists e, j :: 0 <= e < |terms| && 0 <= j < at[e] && terms[e][j] == term
  }

  /** The smallest term at any position. */
  ghost predicate IsNext(terms: seq<seq<string>>, at: seq<nat>, term: string)
    requires Positions(terms, at)
  {
    && (exists e :: 0 <= e < |terms| && at[e] < |terms[e]| && terms[e][at[e]] == term)
    && forall e :: 0 <= e < |terms| && at[e] < |terms[e]| ==> !Less(terms[e][at[e]], term)
  }

  method NextTerm(terms: seq<seq<string>>, at: seq<nat>) returns (found: bool, term: string)
    requires Positions(terms, at)
    ensures found ==> IsNext(terms, at, term)
    ensures !found ==> forall e :: 0 <= e < |terms| ==> at[e] == |terms[e]|
  {
    found, term := false, "";
    for engine := 0 to |terms|
      invariant found ==> exists e :: 0 <= e < engine && at[e] < |terms[e]| && terms[e][at[e]] == term
      invariant found ==> forall e :: 0 <= e < engine && at[e] < |terms[e]| ==> !Less(terms[e][at[e]], term)
      invariant !found ==> forall e :: 0 <= e < engine ==> at[e] == |terms[e]|
    {
      if at[engine] < |terms[engine]| {
        var here := terms[engine][at[engine]];
        if !found || Less(here, term) {
          ghost var was := term;
          forall e | found && 0 <= e < engine && at[e] < |terms[e]| ensures !Less(terms[e][at[e]], here) {
            if Less(terms[e][at[e]], here) {
              LessIsTransitive(terms[e][at[e]], here, was);
            }
          }
          LessIsIrreflexive(here);
          found, term := true, here;
        }
      }
    }
  }

  /** Terms behind the next one are smaller, terms beyond the positions are larger. */
  lemma Surrounds(terms: seq<seq<string>>, at: seq<nat>, term: string, e: nat, j: nat)
    requires Positions(terms, at) && Divided(terms, at) && IsNext(terms, at, term)
    requires e < |terms| && Sorted(terms[e]) && j < |terms[e]|
    ensures j < at[e] ==> Less(terms[e][j], term)
    ensures j > at[e] ==> Less(term, terms[e][j])
  {
    var f :| 0 <= f < |terms| && at[f] < |terms[f]| && terms[f][at[f]] == term;
    if j > at[e] {
      var here := terms[e][at[e]];
      LessIsTotal(here, term);
      if here != term {
        LessIsTransitive(term, here, terms[e][j]);
      }
    }
  }

  /** An engine has the next term exactly when it stands at it. */
  lemma HasNext(terms: seq<seq<string>>, at: seq<nat>, term: string, e: nat)
    requires Positions(terms, at) && Divided(terms, at) && IsNext(terms, at, term) && e < |terms| && Sorted(terms[e])
    ensures term in terms[e] <==> at[e] < |terms[e]| && terms[e][at[e]] == term
  {
    if term in terms[e] {
      var j: nat :| j < |terms[e]| && terms[e][j] == term;
      LessIsIrreflexive(term);
      Surrounds(terms, at, term, e, j);
    }
  }

  /** The positions after every engine that has the term has moved on. */
  ghost predicate Moved(terms: seq<seq<string>>, at: seq<nat>, to: seq<nat>, term: string)
    requires Positions(terms, at)
  {
    |to| == |at| && forall e :: 0 <= e < |terms| ==>
      to[e] == at[e] + (if at[e] < |terms[e]| && terms[e][at[e]] == term then 1 else 0)
  }

  lemma MovedKeeps(terms: seq<seq<string>>, at: seq<nat>, to: seq<nat>, term: string)
    requires Positions(terms, at) && Divided(terms, at) && IsNext(terms, at, term) && Moved(terms, at, to, term)
    requires forall e :: 0 <= e < |terms| ==> Sorted(terms[e])
    ensures Positions(terms, to) && Divided(terms, to)
  {
    forall e, j, f, k | 0 <= e < |terms| && 0 <= j < to[e] && 0 <= f < |terms| && to[f] <= k < |terms[f]|
      ensures Less(terms[e][j], terms[f][k])
    {
      if j == at[e] {
        AheadOf(terms, at, to, term, f, k);
      }
    }
  }

  /** Whatever is left lies beyond the term just handled. */
  lemma AheadOf(terms: seq<seq<string>>, at: seq<nat>, to: seq<nat>, term: string, f: nat, k: nat)
    requires Positions(terms, at) && IsNext(terms, at, term) && Moved(terms, at, to, term)
    requires f < |terms| && Sorted(terms[f]) && to[f] <= k < |terms[f]|
    ensures Less(term, terms[f][k])
  {
    var here := terms[f][at[f]];
    LessIsTotal(here, term);
    if k > at[f] && here != term {
      LessIsTransitive(term, here, terms[f][k]);
    }
  }

  lemma MovedBehind(terms: seq<seq<string>>, at: seq<nat>, to: seq<nat>, term: string, t: string)
    requires Positions(terms, at) && Positions(terms, to) && IsNext(terms, at, term) && Moved(terms, at, to, term)
    ensures Behind(terms, to, t) <==> Behind(terms, at, t) || t == term
  {
    if Behind(terms, at, t) {
      var e, j :| 0 <= e < |terms| && 0 <= j < at[e] && terms[e][j] == t;
      assert 0 <= j < to[e];
    }
    var e :| 0 <= e < |terms| && at[e] < |terms[e]| && terms[e][at[e]] == term;
    assert at[e] < to[e];
  }

  /** The merges so far: the kept terms behind the positions, ascending, with their engines. */
  ghost predicate WalkedTo(terms: seq<seq<string>>, at: seq<nat>, intersect: bool, wanted: set<string>, out: seq<Merge>)
    requires Positions(terms, at)
  {
    && (forall i :: 0 <= i < |out| ==> Behind(terms, at, out[i].term) && Kept(out[i].term, intersect, wanted))
    && (forall i, j :: 0 <= i < j < |out| ==> Less(out[i].term, out[j].term))
    && (forall t: string :: Behind(terms, at, t) && Kept(t, intersect, wanted) ==> Emits(out, t))
    && (forall i :: 0 <= i < |out| ==> HasEngines(terms, out[i]))
  }

  ghost predicate Emits(out: seq<Merge>, term: string) {
    exists i :: 0 <= i < |out| && out[i].term == term
  }

  ghost predicate HasEngines(terms: seq<seq<string>>, m: Merge) {
    |m.engines| == |terms| && forall e :: 0 <= e < |terms| ==> (m.engines[e] <==> m.term in terms[e])
  }

  lemma OutIsSmaller(terms: seq<seq<string>>, at: seq<nat>, term: string, t: string)
    requires Positions(terms, at) && Divided(terms, at) && IsNext(terms, at, term) && Behind(terms, at, t)
    requires forall e :: 0 <= e < |terms| ==> Sorted(terms[e])
    ensures Less(t, term)
  {
    var e: nat, j: nat :| e < |terms| && j < at[e] && terms[e][j] == t;
    hide Divided, IsNext, Sorted;
    Surrounds(terms, at, term, e, j);
  }

  lemma EmitsMore(out: seq<Merge>, m: Merge, t: string)
    ensures Emits(out + [m], t) <==> Emits(out, t) || t == m.term
  {
    var more := out + [m];
    if Emits(out, t) {
      var i :| 0 <= i < |out| && out[i].term == t;
      assert more[i].term == t;
    }
    assert more[|out|] == m;
  }

  lemma WalkedOn(terms: seq<seq<string>>, at: seq<nat>, to: seq<nat>, intersect: bool, wanted: set<string>, out: seq<Merge>, m: Merge)
    requires Positions(terms, at) && Positions(terms, to) && Divided(terms, at)
    requires forall e :: 0 <= e < |terms| ==> Sorted(terms[e])
    requires IsNext(terms, at, m.term) && Moved(terms, at, to, m.term)
    requires WalkedTo(terms, at, intersect, wanted, out) && HasEngines(terms, m)
    ensures WalkedTo(terms, to, intersect, wanted, if Kept(m.term, intersect, wanted) then out + [m] else out)
  {
    hide Kept, HasEngines, IsNext, Moved, Divided, Behind, Sorted, Emits;
    var more := if Kept(m.term, intersect, wanted) then out + [m] else out;
    forall i | 0 <= i < |out| ensures Behind(terms, to, out[i].term) && Less(out[i].term, m.term) {
      MovedBehind(terms, at, to, m.term, out[i].term);
      OutIsSmaller(terms, at, m.term, out[i].term);
    }
    MovedBehind(terms, at, to, m.term, m.term);
    forall t: string | Behind(terms, to, t) && Kept(t, intersect, wanted) ensures Emits(more, t) {
      MovedBehind(terms, at, to, m.term, t);
      EmitsMore(out, m, t);
    }
  }

  /** Which engines stand at the term; those move on. */
  method Advance(terms: seq<seq<string>>, at: seq<nat>, term: string) returns (to: seq<nat>, engines: seq<bool>)
    requires Positions(terms, at) && Divided(terms, at) && IsNext(terms, at, term)
    requires forall e :: 0 <= e < |terms| ==> Sorted(terms[e])
    ensures Moved(terms, at, to, term) && HasEngines(terms, Merge(term, engines))
  {
    hide Divided, IsNext, Sorted;
    to, engines := [], [];
    for engine := 0 to |terms|
      invariant |to| == |engines| == engine
      invariant forall e :: 0 <= e < engine ==>
                  to[e] == at[e] + (if at[e] < |terms[e]| && terms[e][at[e]] == term then 1 else 0)
      invariant forall e :: 0 <= e < engine ==> (engines[e] <==> term in terms[e])
    {
      HasNext(terms, at, term, engine);
      var same := at[engine] < |terms[engine]| && terms[engine][at[engine]] == term;
      engines := engines + [same];
      to := to + [if same then at[engine] + 1 else at[engine]];
    }
  }

  function Left(terms: seq<seq<string>>, at: seq<nat>, n: nat): int
    requires n <= |terms| && n <= |at|
  {
    if n == 0 then 0 else Left(terms, at, n - 1) + |terms[n - 1]| - at[n - 1]
  }

  lemma {:induction false} LeftShrinks(terms: seq<seq<string>>, at: seq<nat>, to: seq<nat>, term: string, n: nat)
    requires Positions(terms, at) && Positions(terms, to) && Moved(terms, at, to, term) && n <= |terms|
    ensures 0 <= Left(terms, to, n) <= Left(terms, at, n)
    ensures (exists e :: 0 <= e < n && at[e] < |terms[e]| && terms[e][at[e]] == term) ==> Left(terms, to, n) < Left(terms, at, n)
  {
    if n > 0 {
      LeftShrinks(terms, at, to, term, n - 1);
    }
  }

  /**
   The whole walk: every term some engine has is merged once, in order, with exactly the
   engines that have it -- except variables, and, under an intersection, unwanted terms.
   */
  method Walk(terms: seq<seq<string>>, intersect: bool, wanted: set<string>) returns (out: seq<Merge>)
    requires forall e, i, j :: 0 <= e < |terms| && 0 <= i < j < |terms[e]| ==> Less(terms[e][i], terms[e][j])
    ensures forall i, j :: 0 <= i < j < |out| ==> Less(out[i].term, out[j].term)
    ensures forall i :: 0 <= i < |out| ==> HasEngines(terms, out[i])
    ensures forall t: string :: (exists i :: 0 <= i < |out| && out[i].term == t) <==>
              && (exists e :: 0 <= e < |terms| && t in terms[e])
              && !(|t| > 0 && t[0] == '~') && (intersect ==> t in wanted)
    ensures forall i, e :: 0 <= i < |out| && 0 <= e < |terms| ==>
              |out[i].engines| == |terms| && (out[i].engines[e] <==> out[i].term in terms[e])
  {
    forall e | 0 <= e < |terms| ensures Sorted(terms[e]) {
      var list := terms[e];
      assert forall i, j :: 0 <= i < j < |list| ==> Less(terms[e][i], terms[e][j]);
    }
    hide Divided, IsNext, Kept, Moved, Behind, Sorted;
    out := [];
    var at: seq<nat> := seq(|terms|, i => 0);
    WalkStarts(terms, at, intersect, wanted);
    var more, term := NextTerm(terms, at);
    while more
      invariant Positions(terms, at) && Divided(terms, at) && WalkedTo(terms, at, intersect, wanted, out)
      invariant more ==> IsNext(terms, at, term)
      invariant !more ==> forall e :: 0 <= e < |terms| ==> at[e] == |terms[e]|
      decreases more, Left(terms, at, |terms|)
    {
      var to, engines := Advance(terms, at, term);
      MovedKeeps(terms, at, to, term);
      NextShrinks(terms, at, to, term);
      WalkedOn(terms, at, to, intersect, wanted, out, Merge(term, engines));
      if Kept(term, intersect, wanted) {
        out := out + [Merge(term, engines)];
      }
      at := to;
      more, term := NextTerm(terms, at);
    }
    WalkEnds(terms, at, intersect, wanted, out);
    forall t: string
      ensures Emits(out, t) <==>
                && (exists e :: 0 <= e < |terms| && t in terms[e])
                && !(|t| > 0 && t[0] == '~') && (intersect ==> t in wanted)
    {
      KeptIs(t, intersect, wanted);
    }
  }

  lemma KeptIs(term: string, intersect: bool, wanted: set<string>)
    ensures Kept(term, intersect, wanted) <==> !(|term| > 0 && term[0] == '~') && (intersect ==> term in wanted)
  {
  }

  lemma WalkStarts(terms: seq<seq<string>>, at: seq<nat>, intersect: bool, wanted: set<string>)
    requires |at| == |terms| && forall e :: 0 <= e < |at| ==> at[e] == 0
    ensures Positions(terms, at) && Divided(terms, at) && WalkedTo(terms, at, intersect, wanted, [])
  {
  }

  lemma NextShrinks(terms: seq<seq<string>>, at: seq<nat>, to: seq<nat>, term: string)
    requires Positions(terms, at) && Positions(terms, to) && Moved(terms, at, to, term) && IsNext(terms, at, term)
    ensures 0 <= Left(terms, to, |terms|) < Left(terms, at, |terms|)
  {
    LeftShrinks(terms, at, to, term, |terms|);
  }

  lemma WalkEnds(terms: seq<seq<string>>, at: seq<nat>, intersect: bool, wanted: set<string>, out: seq<Merge>)
    requires Positions(terms, at) && WalkedTo(terms, at, intersect, wanted, out)
    requires forall e :: 0 <= e < |terms| ==> at[e] == |terms[e]|
    ensures forall t: string :: Emits(out, t) <==> Kept(t, intersect, wanted) && exists e :: 0 <= e < |terms| && t in terms[e]
  {
    hide Kept, HasEngines;
    forall t: string
      ensures Emits(out, t) <==> Kept(t, intersect, wanted) && exists e :: 0 <= e < |terms| && t in terms[e]
    {
      if exists e :: 0 <= e < |terms| && t in terms[e] {
        var e :| 0 <= e < |terms| && t in terms[e];
        var j :| 0 <= j < |terms[e]| && terms[e][j] == t;
        assert 0 <= j < at[e];
        assert Behind(terms, at, t);
      }
    }
  }
}
