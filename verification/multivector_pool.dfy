/**
 The live writer's multi-vectors: a row count per document and one pool of rows, both
 grown by doubling; a document's rows start where the earlier documents' rows end.
 */
module MultivectorPools {

  type Row = seq<real>

  const FIRST_CAPACITY := 1024

  /** All rows, document after document. */
  function Flat(documents: seq<seq<Row>>): (r: seq<Row>) {
    if documents == [] then [] else Flat(documents[..|documents| - 1]) + documents[|documents| - 1]
  }

  /** The sum of the first n documents' counts. */
  function Offset(documents: seq<seq<Row>>, n: nat): (r: nat)
    requires n <= |documents|
  {
    if n == 0 then 0 else Offset(documents, n - 1) + |documents[n - 1]|
  }

  lemma {:induction false} OffsetIsLength(documents: seq<seq<Row>>, n: nat)
    requires n <= |documents|
    ensures Offset(documents, n) == |Flat(documents[..n])|
  {
    if n > 0 {
      OffsetIsLength(documents, n - 1);
      assert documents[..n][..n - 1] == documents[..n - 1];
    }
  }

  /** Document d's rows are the slice of the pool from its offset on. */
  lemma {:induction false} RowsAt(documents: seq<seq<Row>>, d: nat)
    requires d < |documents|
    ensures Offset(documents, d) + |documents[d]| <= |Flat(documents)|
    ensures Flat(documents)[Offset(documents, d)..Offset(documents, d) + |documents[d]|] == documents[d]
    decreases |documents|
  {
    var n := |documents| - 1;
    OffsetIsLength(documents, d);
    if d < n {
      RowsAt(documents[..n], d);
      OffsetOfPrefix(documents, n, d);
      var from, to := Offset(documents, d), Offset(documents, d) + |documents[d]|;
      assert Flat(documents)[from..to] == Flat(documents[..n])[from..to];
    }
  }

  lemma {:induction false} OffsetOfPrefix(documents: seq<seq<Row>>, n: nat, d: nat)
    requires d <= n <= |documents|
    ensures Offset(documents[..n], d) == Offset(documents, d)
    decreases d
  {
    if d > 0 {
      OffsetOfPrefix(documents, n, d - 1);
    }
  }

  // ------------------------------------------------------------------ MaxSim

  function Dot(a: Row, b: Row): real
    requires |a| == |b|
  {
    if a == [] then 0.0 else Dot(a[..|a| - 1], b[..|b| - 1]) + a[|a| - 1] * b[|b| - 1]
  }

  /** The inner product is symmetric and linear, and picks out a component against a unit vector. */
  lemma {:induction false} DotAdds(a: Row, b: Row, c: Row)
    requires |a| == |b| == |c|
    ensures Dot(a, Plus(b, c)) == Dot(a, b) + Dot(a, c) && Dot(a, b) == Dot(b, a)
  {
    if a != [] {
      var n := |a| - 1;
      DotAdds(a[..n], b[..n], c[..n]);
      assert Plus(b, c)[..n] == Plus(b[..n], c[..n]);
      assert a[n] * (b[n] + c[n]) == a[n] * b[n] + a[n] * c[n];
    }
  }

  lemma {:induction false} DotScales(x: real, a: Row, b: Row)
    requires |a| == |b|
    ensures Dot(a, Times(x, b)) == x * Dot(a, b)
  {
    if a != [] {
      var n := |a| - 1;
      DotScales(x, a[..n], b[..n]);
      TimesPrefix(x, b, n);
      assert a[n] * (x * b[n]) == x * (a[n] * b[n]);
    }
  }

  lemma TimesPrefix(x: real, a: Row, n: nat)
    requires n <= |a|
    ensures Times(x, a)[..n] == Times(x, a[..n])
  {
    var s, t := Times(x, a)[..n], Times(x, a[..n]);
    assert |s| == |t|;
    forall i | 0 <= i < n ensures s[i] == t[i] {
      assert a[..n][i] == a[i];
    }
  }

  lemma {:induction false} DotUnit(a: Row, k: nat)
    requires k < |a|
    ensures Dot(a, Unit(k, |a|)) == a[k]
    decreases |a|
  {
    var n := |a| - 1;
    if k < n {
      DotUnit(a[..n], k);
      assert Unit(k, |a|)[..n] == Unit(k, n);
    } else {
      assert Unit(k, |a|)[..n] == Times(0.0, a[..n]);
      DotScales(0.0, a[..n], a[..n]);
    }
  }

  function Plus(a: Row, b: Row): (r: Row)
    requires |a| == |b|
  {
    seq(|a|, i requires 0 <= i < |a| => a[i] + b[i])
  }

  function Times(x: real, a: Row): (r: Row) {
    seq(|a|, i requires 0 <= i < |a| => x * a[i])
  }

  function Unit(k: nat, n: nat): (r: Row) {
    seq(n, i => if i == k then 1.0 else 0.0)
  }

  ghost predicate Wide(rows: seq<Row>, dimension: nat) {
    forall i :: 0 <= i < |rows| ==> |rows[i]| == dimension
  }

  /** The best match of one query vector among the rows. */
  ghost predicate IsBest(best: real, query: Row, rows: seq<Row>, dimension: nat)
    requires |query| == dimension && Wide(rows, dimension)
  {
    && (exists j :: 0 <= j < |rows| && best == Dot(query, rows[j]))
    && forall j :: 0 <= j < |rows| ==> best >= Dot(query, rows[j])
  }

  /** Where the search for the best match starts: below any match of normalised vectors. */
  const FLOOR := -1000000000000000000000000000000.0

  function Larger(a: real, b: real): real {
    if b > a then b else a
  }

  function Best(query: Row, rows: seq<Row>): (r: real)
    requires Wide(rows, |query|)
  {
    var n := |rows| - 1;
    if rows == [] then FLOOR else Larger(Best(query, rows[..n]), Dot(query, rows[n]))
  }

  lemma {:induction false} BestBounds(query: Row, rows: seq<Row>)
    requires Wide(rows, |query|)
    ensures Best(query, rows) >= FLOOR && forall j :: 0 <= j < |rows| ==> Best(query, rows) >= Dot(query, rows[j])
    ensures Best(query, rows) == FLOOR || exists j :: 0 <= j < |rows| && Best(query, rows) == Dot(query, rows[j])
  {
    if rows != [] {
      var n := |rows| - 1;
      BestBounds(query, rows[..n]);
      forall j | 0 <= j < |rows| ensures Best(query, rows) >= Dot(query, rows[j]) {
        if j < n { assert rows[..n][j] == rows[j]; }
      }
      if Best(query, rows) != FLOOR && Best(query, rows) == Best(query, rows[..n]) {
        var j :| 0 <= j < n && Best(query, rows[..n]) == Dot(query, rows[..n][j]);
        assert rows[..n][j] == rows[j];
      }
    }
  }

  /** It is the best match, as long as no match is below the floor. */
  lemma BestIs(query: Row, rows: seq<Row>)
    requires rows != [] && Wide(rows, |query|) && Dot(query, rows[0]) > FLOOR
    ensures IsBest(Best(query, rows), query, rows, |query|)
  {
    BestBounds(query, rows);
  }

  /** Over the query's vectors, the best matches added up. */
  function MaxSim(queries: seq<Row>, rows: seq<Row>, dimension: nat): real
    requires Wide(rows, dimension) && Wide(queries, dimension)
  {
    if queries == [] then 0.0
    else MaxSim(queries[..|queries| - 1], rows, dimension) + Best(queries[|queries| - 1], rows)
  }

  /** One query vector gives its best match; more of them add up. */
  lemma {:induction false} MaxSimAdds(a: seq<Row>, b: seq<Row>, rows: seq<Row>, dimension: nat)
    requires Wide(rows, dimension) && Wide(a, dimension) && Wide(b, dimension)
    ensures Wide(a + b, dimension) && MaxSim(a + b, rows, dimension) == MaxSim(a, rows, dimension) + MaxSim(b, rows, dimension)
    ensures |a| == 1 ==> MaxSim(a, rows, dimension) == Best(a[0], rows)
    ensures a == [] ==> MaxSim(a, rows, dimension) == 0.0
    decreases |b|
  {
    assert forall i :: 0 <= i < |a + b| ==> |(a + b)[i]| == dimension;
    if b == [] {
      assert a + b == a;
    } else {
      var n := |b| - 1;
      MaxSimAdds(a, b[..n], rows, dimension);
      assert (a + b)[..|a + b| - 1] == a + b[..n];
    }
  }

  // ------------------------------------------------------------------ the pool

  /** Twice the capacity, and again until it is enough. */
  method Doubled(capacity: nat, needed: nat) returns (size: nat)
    requires capacity > 0
    ensures size >= needed && size >= 2 * capacity
  {
    size := capacity * 2;
    while needed > size
      invariant size >= 2 * capacity
      decreases needed - size
    {
      size := size * 2;
    }
  }

  class MultivectorPool {
    const dimension: nat
    var counts: array<nat>
    var data: array<Row>
    var total: nat
    ghost var documents: seq<seq<Row>>

    ghost predicate Valid()
      reads this, counts, data
    {
      && |documents| <= counts.Length
      && (forall d :: 0 <= d < |documents| ==> counts[d] == |documents[d]| && Wide(documents[d], dimension))
      && (forall d :: |documents| <= d < counts.Length ==> counts[d] == 0)
      && total <= data.Length && data[..total] == Flat(documents)
    }

    constructor (dimension: nat)
      ensures Valid() && documents == [] && this.dimension == dimension && fresh(counts) && fresh(data)
    {
      this.dimension := dimension;
      counts := new nat[0](_ => 0);
      data := new Row[0](_ => []);
      total := 0;
      documents := [];
    }

    method GrowCounts(docid: nat)
      requires Valid()
      modifies `counts
      ensures Valid() && docid < counts.Length && (counts == old(counts) || fresh(counts))
    {
      if docid >= counts.Length {
        var size := FIRST_CAPACITY;
        if counts.Length > 0 || docid >= FIRST_CAPACITY {
          size := Doubled(if counts.Length == 0 then FIRST_CAPACITY else counts.Length, docid + 1);
        }
        var grown := new nat[size](_ => 0);
        for d := 0 to counts.Length
          modifies grown
          invariant forall i :: 0 <= i < d ==> grown[i] == counts[i]
          invariant forall i :: d <= i < size ==> grown[i] == 0
        {
          grown[d] := counts[d];
        }
        counts := grown;
      }
    }

    method GrowData(rows: nat)
      requires Valid()
      modifies `data
      ensures Valid() && total + rows <= data.Length && (data == old(data) || fresh(data))
    {
      if total + rows > data.Length {
        var size := FIRST_CAPACITY;
        if data.Length > 0 || total + rows > FIRST_CAPACITY {
          size := Doubled(if data.Length == 0 then FIRST_CAPACITY else data.Length, total + rows);
        }
        var grown := new Row[size](_ => []);
        for i := 0 to total
          modifies grown
          invariant grown[..i] == data[..i]
        {
          grown[i] := data[i];
        }
        data := grown;
      }
    }

    /** The next document's rows, possibly none. */
    method Append(docid: nat, rows: seq<Row>)
      requires Valid() && docid == |documents| && Wide(rows, dimension)
      modifies this, counts, data
      ensures Valid() && documents == old(documents) + [rows]
      ensures (counts == old(counts) || fresh(counts)) && (data == old(data) || fresh(data))
    {
      GrowCounts(docid);
      GrowData(|rows|);
      counts[docid] := |rows|;
      AppendRows(rows);
      documents := documents + [rows];
      assert documents[..|documents| - 1] == old(documents);
    }

    method AppendRows(rows: seq<Row>)
      requires total + |rows| <= data.Length
      modifies `total, data
      ensures total == old(total) + |rows| && data[..total] == old(data[..total]) + rows
    {
      for row := 0 to |rows|
        invariant total == old(total) + row && total <= data.Length
        invariant data[..total] == old(data[..total]) + rows[..row]
      {
        ghost var was := data[..total];
        data[total] := rows[row];
        total := total + 1;
        assert data[..total] == was + [rows[row]];
      }
      assert rows[..|rows|] == rows;
    }

    /** flush(): one entry per document, cut out of the pool at a running offset. */
    method WriteSidecar(writerDocuments: nat) returns (sidecar: seq<seq<Row>>)
      requires Valid() && writerDocuments == |documents|
      ensures sidecar == documents
    {
      sidecar := [];
      var offset := 0;
      for docid := 0 to writerDocuments
        invariant offset == Offset(documents, docid) && sidecar == documents[..docid]
      {
        RowsAt(documents, docid);
        var m := counts[docid];
        var rows := data[..total][offset..offset + m];
        sidecar := sidecar + [rows];
        offset := offset + m;
      }
      assert documents[..writerDocuments] == documents;
    }

    /** maxsim_live(): 0 for a document without rows; else MaxSim over exactly its rows. */
    method MaxSimLive(docid: nat, queries: seq<Row>) returns (score: real)
      requires Valid() && Wide(queries, dimension)
      ensures score ==
                if docid < |documents| && documents[docid] != [] then MaxSim(queries, documents[docid], dimension) else 0.0
    {
      if docid >= counts.Length || counts[docid] == 0 || |queries| == 0 {
        return 0.0;
      }
      var offset := 0;
      for d := 0 to docid
        invariant offset == Offset(documents, d)
      {
        offset := offset + counts[d];
      }
      RowsAt(documents, docid);
      ghost var rows := documents[docid];
      score := 0.0;
      for i := 0 to |queries|
        invariant score == MaxSim(queries[..i], rows, dimension)
      {
        var best := BestOf(queries[i], offset, counts[docid], rows);
        assert queries[..i + 1][..i] == queries[..i];
        score := score + best;
      }
      assert queries[..|queries|] == queries;
    }

    /** The loop over one document's slice of the pool. */
    method BestOf(query: Row, offset: nat, count: nat, ghost rows: seq<Row>) returns (best: real)
      requires offset + count <= data.Length && count == |rows| && data[offset..offset + count] == rows
      requires |query| == dimension && Wide(rows, dimension)
      ensures best == Best(query, rows)
    {
      best := FLOOR;
      for j := 0 to count
        invariant best == Best(query, rows[..j])
      {
        assert data[offset + j] == data[offset..offset + count][j] == rows[j];
        assert rows[..j + 1][..j] == rows[..j];
        best := Larger(best, Dot(query, data[offset + j]));
      }
      assert rows[..count] == rows;
    }
  }
}
