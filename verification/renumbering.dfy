/**
 Compaction's docid renumbering, and the rewriting loops that rely on it.

 Every output of a compaction (the filename table, .vec, .mvec, .attr, .pay) is
 written by the same walk: inputs in order, docids ascending, tombstoned rows
 dropped.  A `Column` is one input's share of one such output.
 */
module Renumbering {

  datatype Column<T> = Column(rows: seq<T>, dead: set<nat>)

  /** How many of the first n docids survive. */
  function Rank(dead: set<nat>, n: nat): (r: nat)
    ensures r <= n
  {
    if n == 0 then 0 else Rank(dead, n - 1) + (if n - 1 in dead then 0 else 1)
  }

  function Survivors<T>(c: Column<T>): (r: seq<T>)
    ensures |r| == Rank(c.dead, |c.rows|)
    decreases |c.rows|
  {
    if c.rows == [] then []
    else
      var n := |c.rows| - 1;
      Survivors(Column(c.rows[..n], c.dead)) + (if n in c.dead then [] else [c.rows[n]])
  }

  /** The merged output: the survivors of each input, inputs in the order given. */
  function Merge<T>(inputs: seq<Column<T>>): (r: seq<T>)
  {
    if inputs == [] then []
    else Merge(inputs[..|inputs| - 1]) + Survivors(inputs[|inputs| - 1])
  }

  /** Live documents in the inputs before the i-th. */
  function Base<T>(inputs: seq<Column<T>>, i: nat): (r: nat)
    requires i <= |inputs|
  {
    if i == 0 then 0 else Base(inputs, i - 1) + Rank(inputs[i - 1].dead, |inputs[i - 1].rows|)
  }

  predicate Survives<T>(inputs: seq<Column<T>>, i: nat, d: nat) {
    i < |inputs| && d < |inputs[i].rows| && d !in inputs[i].dead
  }

  function NewDocid<T>(inputs: seq<Column<T>>, i: nat, d: nat): (r: nat)
    requires i < |inputs|
  {
    Base(inputs, i) + Rank(inputs[i].dead, d)
  }

  lemma {:induction false} RankMonotone(dead: set<nat>, a: nat, b: nat)
    requires a <= b
    ensures Rank(dead, a) <= Rank(dead, b)
    ensures a < b && a !in dead ==> Rank(dead, a) < Rank(dead, b)
    decreases b
  {
    if a < b {
      RankMonotone(dead, a, b - 1);
    }
  }

  lemma {:induction false} BaseMonotone<T>(inputs: seq<Column<T>>, i: nat, j: nat)
    requires i <= j <= |inputs|
    ensures Base(inputs, i) <= Base(inputs, j)
    decreases j
  {
    if i < j {
      BaseMonotone(inputs, i, j - 1);
    }
  }

  lemma {:induction false} BaseOfPrefix<T>(inputs: seq<Column<T>>, n: nat, i: nat)
    requires i <= n <= |inputs|
    ensures Base(inputs[..n], i) == Base(inputs, i)
    decreases i
  {
    if i > 0 {
      BaseOfPrefix(inputs, n, i - 1);
    }
  }

  lemma {:induction false} MergeLength<T>(inputs: seq<Column<T>>)
    ensures |Merge(inputs)| == Base(inputs, |inputs|)
  {
    if inputs != [] {
      MergeLength(inputs[..|inputs| - 1]);
      BaseOfPrefix(inputs, |inputs| - 1, |inputs| - 1);
    }
  }

  lemma {:induction false} SurvivorAtRank<T>(c: Column<T>, d: nat)
    requires d < |c.rows| && d !in c.dead
    ensures Rank(c.dead, d) < |Survivors(c)|
    ensures Survivors(c)[Rank(c.dead, d)] == c.rows[d]
    decreases |c.rows|
  {
    RankMonotone(c.dead, d, |c.rows|);
    var n := |c.rows| - 1;
    if d < n {
      SurvivorAtRank(Column(c.rows[..n], c.dead), d);
    }
  }

  /** Row n of any merged output is the row of the document renumbered to n. */
  lemma {:induction false} RowFollowsDocument<T>(inputs: seq<Column<T>>, i: nat, d: nat)
    requires Survives(inputs, i, d)
    ensures NewDocid(inputs, i, d) < |Merge(inputs)|
    ensures Merge(inputs)[NewDocid(inputs, i, d)] == inputs[i].rows[d]
    decreases |inputs|
  {
    var n := |inputs| - 1;
    BaseOfPrefix(inputs, n, i);
    MergeLength(inputs[..n]);
    if i < n {
      RowFollowsDocument(inputs[..n], i, d);
    } else {
      SurvivorAtRank(inputs[n], d);
    }
  }

  lemma {:induction false} RankPreimage(dead: set<nat>, n: nat, r: nat) returns (d: nat)
    requires r < Rank(dead, n)
    ensures d < n && d !in dead && Rank(dead, d) == r
  {
    if n - 1 !in dead && Rank(dead, n - 1) == r {
      d := n - 1;
    } else {
      d := RankPreimage(dead, n - 1, r);
    }
  }

  /** Every output row comes from a surviving document. */
  lemma {:induction false} Origin<T>(inputs: seq<Column<T>>, n: nat) returns (i: nat, d: nat)
    requires n < |Merge(inputs)|
    ensures Survives(inputs, i, d) && NewDocid(inputs, i, d) == n
    ensures Merge(inputs)[n] == inputs[i].rows[d]
    decreases |inputs|
  {
    var m := |inputs| - 1;
    MergeLength(inputs[..m]);
    BaseOfPrefix(inputs, m, m);
    if n < |Merge(inputs[..m])| {
      i, d := Origin(inputs[..m], n);
      BaseOfPrefix(inputs, m, i);
    } else {
      i := m;
      d := RankPreimage(inputs[m].dead, |inputs[m].rows|, n - Base(inputs, m));
    }
    RowFollowsDocument(inputs, i, d);
  }

  /** Renumbering is strictly increasing in (input, docid), hence injective. */
  lemma NewDocidIncreases<T>(inputs: seq<Column<T>>, i: nat, d: nat, j: nat, e: nat)
    requires Survives(inputs, i, d) && Survives(inputs, j, e)
    requires i < j || (i == j && d < e)
    ensures NewDocid(inputs, i, d) < NewDocid(inputs, j, e)
  {
    if i < j {
      RankMonotone(inputs[i].dead, d, |inputs[i].rows|);
      BaseMonotone(inputs, i + 1, j);
    } else {
      RankMonotone(inputs[i].dead, d, e);
    }
  }

  /** The two columns describe the same inputs: same sizes, same tombstones. */
  predicate SameShape<S, T>(a: seq<Column<S>>, b: seq<Column<T>>) {
    |a| == |b| && forall i :: 0 <= i < |a| ==> |a[i].rows| == |b[i].rows| && a[i].dead == b[i].dead
  }

  lemma {:induction false} BaseDependsOnShape<S, T>(a: seq<Column<S>>, b: seq<Column<T>>, i: nat)
    requires SameShape(a, b) && i <= |a|
    ensures Base(a, i) == Base(b, i)
  {
    if i > 0 {
      BaseDependsOnShape(a, b, i - 1);
    }
  }

  /**
   Sidecar alignment: if row x of the merged documents and row y of a merged sidecar
   stem from the same input document, then x == y, and conversely every row has such
   an input document.
   */
  lemma SidecarsAlign<S, T>(documents: seq<Column<S>>, sidecar: seq<Column<T>>, n: nat) returns (i: nat, d: nat)
    requires SameShape(documents, sidecar)
    requires n < |Merge(documents)|
    ensures |Merge(documents)| == |Merge(sidecar)|
    ensures Survives(documents, i, d)
    ensures Merge(documents)[n] == documents[i].rows[d]
    ensures Merge(sidecar)[n] == sidecar[i].rows[d]
    ensures forall j: nat, e: nat :: Survives(documents, j, e) && (j, e) != (i, d) ==> NewDocid(documents, j, e) != n
  {
    i, d := Origin(documents, n);
    MergeLength(documents);
    MergeLength(sidecar);
    BaseDependsOnShape(documents, sidecar, |documents|);
    BaseDependsOnShape(documents, sidecar, i);
    RowFollowsDocument(sidecar, i, d);
    forall j: nat, e: nat | Survives(documents, j, e) && (j, e) != (i, d)
      ensures NewDocid(documents, j, e) != n
    {
      if j < i || (j == i && e < d) {
        NewDocidIncreases(documents, j, e, i, d);
      } else {
        NewDocidIncreases(documents, i, d, j, e);
      }
    }
  }

  /** The table's entry for docid d of input i: -1 for a tombstone. */
  function Number<T>(inputs: seq<Column<T>>, i: nat, d: nat): (r: int)
    requires i < |inputs|
  {
    if d in inputs[i].dead then -1 else NewDocid(inputs, i, d)
  }

  /** `row` numbers the first docids of input i. */
  ghost predicate Numbers<T>(row: seq<int>, inputs: seq<Column<T>>, i: nat)
    requires i < |inputs|
  {
    forall d :: 0 <= d < |row| ==> row[d] == Number(inputs, i, d)
  }

  /** The inner loop of the table's construction. */
  method NumberSegment<T>(inputs: seq<Column<T>>, segment: nat, first: nat) returns (row: seq<int>, next: nat)
    requires segment < |inputs| && first == Base(inputs, segment)
    ensures |row| == |inputs[segment].rows| && Numbers(row, inputs, segment)
    ensures next == Base(inputs, segment + 1)
  {
    var column := inputs[segment];
    row, next := [], first;
    for docid := 0 to |column.rows|
      invariant |row| == docid
      invariant next == first + Rank(column.dead, docid)
      invariant Numbers(row, inputs, segment)
    {
      if docid in column.dead {
        row := row + [-1];
      } else {
        row := row + [next];
        next := next + 1;
      }
    }
  }

  /** ANT_docid_renumberer: the renumbering table, filled by counting live documents. */
  class DocidRenumberer<T> {
    const inputs: seq<Column<T>>
    var newDocid: seq<seq<int>>
    var liveDocuments: nat

    ghost predicate Valid()
      reads this
    {
      && |newDocid| == |inputs|
      && (forall i :: 0 <= i < |inputs| ==> |newDocid[i]| == |inputs[i].rows| && Numbers(newDocid[i], inputs, i))
      && liveDocuments == |Merge(inputs)|
    }

    constructor (inputs: seq<Column<T>>)
      ensures Valid() && this.inputs == inputs
    {
      this.inputs := inputs;
      var table: seq<seq<int>> := [];
      var next: nat := 0;
      for segment := 0 to |inputs|
        invariant next == Base(inputs, segment)
        invariant |table| == segment
        invariant forall i :: 0 <= i < segment ==> |table[i]| == |inputs[i].rows| && Numbers(table[i], inputs, i)
      {
        var row;
        row, next := NumberSegment(inputs, segment, next);
        table := table + [row];
      }
      newDocid := table;
      liveDocuments := next;
      MergeLength(inputs);
    }

    function Renumber(segment: nat, oldDocid: nat): (r: int)
      requires Valid() && segment < |inputs| && oldDocid < |inputs[segment].rows|
      reads this
      ensures r < 0 <==> oldDocid in inputs[segment].dead
      ensures r >= 0 ==> r == NewDocid(inputs, segment, oldDocid)
    {
      assert Numbers(newDocid[segment], inputs, segment);
      newDocid[segment][oldDocid]
    }

    /** The walk every compaction output is written by, producing one sidecar's rows. */
    method Rewrite<U>(sidecar: seq<Column<U>>) returns (output: seq<U>)
      requires Valid() && SameShape(inputs, sidecar)
      ensures output == Merge(sidecar)
    {
      output := [];
      for input := 0 to |sidecar|
        invariant output == Merge(sidecar[..input])
      {
        ghost var before := output;
        var column := sidecar[input];
        for docid := 0 to |column.rows|
          invariant output == before + Survivors(Column(column.rows[..docid], column.dead))
        {
          assert column.rows[..docid + 1][..docid] == column.rows[..docid];
          if Renumber(input, docid) >= 0 {
            output := output + [column.rows[docid]];
          }
        }
        assert column.rows[..|column.rows|] == column.rows;
        assert sidecar[..input + 1][..input] == sidecar[..input];
      }
      assert sidecar[..|sidecar|] == sidecar;
    }
  }
}
