/**
 The live writer's vectors and attributes, one row per document: a flat buffer of vectors with
 a bitmap that says which documents have one, and an array of attribute sets with gaps.  Both
 grow by doubling, and flush() writes row n of each sidecar from the document with docid n.
 */
module WriterRows {
  import opened SegmentModel
  import opened MultivectorPools

  // ------------------------------------------------------------------ the bitmap

  /** 1 << k. */
  function Mask(k: nat): bv8
    requires k < 8
  {
    if k == 0 then 1 else if k == 1 then 2 else if k == 2 then 4 else if k == 3 then 8
    else if k == 4 then 16 else if k == 5 then 32 else if k == 6 then 64 else 128
  }

  /** The eight masks are the powers of two, in order. */
  lemma MaskIs(k: nat)
    requires k < 8
    ensures Mask(k) as int == Doubling(k)
  {
    assert Doubling(1) == 2 && Doubling(2) == 4 && Doubling(3) == 8 && Doubling(4) == 16;
    assert Doubling(5) == 32 && Doubling(6) == 64 && Doubling(7) == 128;
  }

  function Doubling(k: nat): (r: nat) {
    if k == 0 then 1 else 2 * Doubling(k - 1)
  }

  predicate Bit(bitmap: seq<bv8>, d: nat)
    requires d / 8 < |bitmap|
  {
    bitmap[d / 8] & Mask(d % 8) != 0
  }

  lemma MaskedByte(b: bv8, j: nat, k: nat)
    requires j < 8 && k < 8
    ensures (b | Mask(k)) & Mask(j) != 0 <==> j == k || b & Mask(j) != 0
  {
    var m := Mask(j);
    if k == 0 {
      assert (b | 1) & m == (b & m) | (1 & m);
    } else if k == 1 {
      assert (b | 2) & m == (b & m) | (2 & m);
    } else if k == 2 {
      assert (b | 4) & m == (b & m) | (4 & m);
    } else if k == 3 {
      assert (b | 8) & m == (b & m) | (8 & m);
    } else if k == 4 {
      assert (b | 16) & m == (b & m) | (16 & m);
    } else if k == 5 {
      assert (b | 32) & m == (b & m) | (32 & m);
    } else if k == 6 {
      assert (b | 64) & m == (b & m) | (64 & m);
    } else {
      assert (b | 128) & m == (b & m) | (128 & m);
    }
  }

  /** Setting one document's bit sets no other's. */
  lemma BitSet(was: seq<bv8>, d: nat, e: nat)
    requires d / 8 < |was| && e / 8 < |was|
    ensures Bit(was[d / 8 := was[d / 8] | Mask(d % 8)], e) <==> e == d || Bit(was, e)
  {
    if e / 8 == d / 8 {
      MaskedByte(was[d / 8], e % 8, d % 8);
    }
  }

  // ------------------------------------------------------------------ the flat buffer

  /** What a document's row is: its vector, or zeros. */
  function RowOf(document: Option<Row>, dimension: nat): (r: Row)
    ensures document.None? ==> |r| == dimension
  {
    if document.Some? then document.value else seq(dimension, _ => 0.0)
  }

  /** Where row d starts in the flat buffer. */
  function Start(d: nat, dimension: nat): (r: nat) {
    d * dimension
  }

  ghost predicate RowStands(buffer: seq<real>, dimension: nat, d: nat, document: Option<Row>) {
    var from := Start(d, dimension);
    from + dimension <= |buffer| && buffer[from..from + dimension] == RowOf(document, dimension)
  }

  lemma RowsApart(d: nat, e: nat, dimension: nat)
    ensures d < e ==> Start(d, dimension) + dimension <= Start(e, dimension)
    ensures d <= e ==> Start(d, dimension) <= Start(e, dimension)
    ensures Start(0, dimension) == 0
  {
    Distribute(d, e, dimension);
    if d < e {
      Distribute(d + 1, e, dimension);
      Distribute(d, d + 1, dimension);
    }
  }

  lemma Distribute(d: nat, e: nat, dimension: nat)
    ensures d <= e ==> Start(e, dimension) == Start(d, dimension) + Start(e - d, dimension)
    ensures Start(1, dimension) == dimension && Start(0, dimension) == 0
  {
  }

  /** Writing one row leaves the others alone. */
  lemma RowStaysPut(was: seq<real>, now: seq<real>, dimension: nat, d: nat, e: nat, document: Option<Row>)
    requires RowStands(was, dimension, e, document) && e != d && |now| == |was|
    requires var from := Start(d, dimension);
             forall i :: 0 <= i < |was| && !(from <= i < from + dimension) ==> now[i] == was[i]
    ensures RowStands(now, dimension, e, document)
  {
    hide Start;
    RowsApart(d, e, dimension);
    RowsApart(e, d, dimension);
    var from := Start(e, dimension);
    assert now[from..from + dimension] == was[from..from + dimension];
  }

  lemma RowStaysInGrown(was: seq<real>, now: seq<real>, dimension: nat, e: nat, document: Option<Row>)
    requires RowStands(was, dimension, e, document) && |was| <= |now| && now[..|was|] == was
    ensures RowStands(now, dimension, e, document)
  {
    hide Start;
    var from := Start(e, dimension);
    forall i | from <= i < from + dimension ensures now[i] == was[i] {
      assert now[i] == now[..|was|][i];
    }
    assert now[from..from + dimension] == was[from..from + dimension];
  }

  /** How many documents have a vector. */
  function Present(documents: seq<Option<Row>>): (n: nat) {
    if documents == [] then 0
    else Present(documents[..|documents| - 1]) + if documents[|documents| - 1].Some? then 1 else 0
  }

  lemma {:induction false} NonePresent(documents: seq<Option<Row>>)
    ensures Present(documents) == 0 <==> forall d :: 0 <= d < |documents| ==> documents[d].None?
  {
    if documents != [] {
      NonePresent(documents[..|documents| - 1]);
    }
  }

  lemma BytesGrow(capacity: nat, size: nat)
    requires capacity <= size
    ensures (capacity + 7) / 8 <= (size + 7) / 8
    ensures forall d: nat :: d < capacity ==> d / 8 < (capacity + 7) / 8
  {
  }

  lemma GrownBits(was: seq<bv8>, now: seq<bv8>)
    requires |was| <= |now| && now[..|was|] == was && forall i :: |was| <= i < |now| ==> now[i] == 0
    ensures forall d: nat :: d / 8 < |now| ==> (Bit(now, d) <==> d / 8 < |was| && Bit(was, d))
  {
    forall d: nat | d / 8 < |now| ensures Bit(now, d) <==> d / 8 < |was| && Bit(was, d) {
      if d / 8 < |was| {
        assert now[d / 8] == now[..|was|][d / 8];
      } else {
        assert now[d / 8] == 0 && 0 & Mask(d % 8) == 0;
      }
    }
  }

  class DenseBuffer {
    const dimension: nat
    var capacity: nat
    var data: array<real>
    var presence: array<bv8>
    var present: nat
    ghost var documents: seq<Option<Row>>

    ghost predicate Sized()
      reads this, data, presence
    {
      data as object != presence as object && data.Length == Start(capacity, dimension) && presence.Length == (capacity + 7) / 8
    }

    /** Each document's row and bit, and no bit beyond them. */
    ghost predicate Valid()
      reads this, data, presence
    {
      && Sized() && |documents| <= capacity && present == Present(documents)
      && (forall d: nat :: d < |documents| ==> RowStands(data[..], dimension, d, documents[d]))
      && (forall d: nat :: d < |documents| && documents[d].Some? ==> |documents[d].value| == dimension)
      && (forall d: nat :: d / 8 < presence.Length ==> (Bit(presence[..], d) <==> d < |documents| && documents[d].Some?))
    }

    constructor (dimension: nat)
      ensures Valid() && documents == [] && this.dimension == dimension && fresh(data) && fresh(presence)
    {
      this.dimension := dimension;
      capacity, present := 0, 0;
      data := new real[0](_ => 0.0);
      presence := new bv8[0](_ => 0);
      documents := [];
    }

    method GrownRows(size: nat) returns (rows: array<real>)
      requires Valid() && capacity <= size
      ensures fresh(rows) && rows.Length == Start(size, dimension)
      ensures forall d: nat :: d < |documents| ==> RowStands(rows[..], dimension, d, documents[d])
    {
      hide Start, RowStands, Bit, Present, Mask, RowOf;
      RowsApart(capacity, size, dimension);
      rows := new real[Start(size, dimension)](_ => 0.0);
      for i := 0 to data.Length
        invariant rows[..i] == data[..i]
      {
        rows[i] := data[i];
      }
      ghost var was, now := data[..], rows[..];
      assert now[..|was|] == was;
      forall d: nat | d < |documents| ensures RowStands(now, dimension, d, documents[d]) {
        RowStaysInGrown(was, now, dimension, d, documents[d]);
      }
    }

    method GrownPresence(size: nat) returns (bits: array<bv8>)
      requires Valid() && capacity <= size
      ensures fresh(bits) && bits.Length == (size + 7) / 8
      ensures forall d: nat :: d / 8 < bits.Length ==> (Bit(bits[..], d) <==> d / 8 < presence.Length && Bit(presence[..], d))
    {
      hide Start, RowStands, Bit, Present, Mask, RowOf;
      BytesGrow(capacity, size);
      bits := new bv8[(size + 7) / 8](_ => 0);
      for i := 0 to presence.Length
        invariant bits[..i] == presence[..i]
        invariant forall j :: i <= j < bits.Length ==> bits[j] == 0
      {
        bits[i] := presence[i];
      }
      GrownBits(presence[..], bits[..]);
    }

    /** Twice the capacity until docid fits; the old rows and bits are copied. */
    method Grow(docid: nat)
      requires Valid()
      modifies `capacity, `data, `presence
      ensures Valid() && docid < capacity
      ensures (data == old(data) && presence == old(presence)) || (fresh(data) && fresh(presence))
    {
      hide Start, RowStands, Bit, Present, Mask, RowOf;
      if docid < capacity {
        return;
      }
      var size := FIRST_CAPACITY;
      if capacity > 0 || docid >= FIRST_CAPACITY {
        size := Doubled(if capacity == 0 then FIRST_CAPACITY else capacity, docid + 1);
      }
      var rows := GrownRows(size);
      var bits := GrownPresence(size);
      BytesGrow(|documents|, capacity);
      data, presence, capacity := rows, bits, size;
    }

    method PutRow(docid: nat, row: Row)
      requires |row| == dimension && Start(docid, dimension) + dimension <= data.Length
      modifies data
      ensures var from := Start(docid, dimension);
              && data[from..from + dimension] == row
              && forall i :: 0 <= i < data.Length && !(from <= i < from + dimension) ==> data[i] == old(data[i])
    {
      hide Start;
      var from := Start(docid, dimension);
      for i := 0 to dimension
        invariant data[from..from + i] == row[..i]
        invariant forall j :: 0 <= j < data.Length && !(from <= j < from + i) ==> data[j] == old(data[j])
      {
        data[from + i] := row[i];
        assert data[from..from + i + 1] == data[from..from + i] + [row[i]];
      }
    }

    method PutBit(docid: nat)
      requires docid / 8 < presence.Length
      modifies presence
      ensures forall d: nat :: d / 8 < presence.Length ==> (Bit(presence[..], d) <==> d == docid || old(Bit(presence[..], d)))
    {
      ghost var bits := presence[..];
      presence[docid / 8] := presence[docid / 8] | Mask(docid % 8);
      assert presence[..] == bits[docid / 8 := bits[docid / 8] | Mask(docid % 8)];
      hide Bit, Mask;
      forall d: nat | d / 8 < |bits| ensures Bit(presence[..], d) <==> d == docid || Bit(bits, d) {
        BitSet(bits, docid, d);
      }
    }

    /** The next document's vector, or none. */
    method Append(docid: nat, vector: Option<Row>)
      requires Valid() && docid == |documents| && (vector.Some? ==> |vector.value| == dimension)
      modifies this, data, presence
      ensures Valid() && documents == old(documents) + [vector]
      ensures (data == old(data) && presence == old(presence)) || (fresh(data) && fresh(presence))
    {
      hide Start, RowStands, Bit, Mask, RowOf, Present;
      Grow(docid);
      RowsApart(docid, capacity, dimension);
      BytesGrow(docid, capacity);
      RowIsWide(vector, dimension);
      ghost var was, bits := data[..], presence[..];
      PutRow(docid, RowOf(vector, dimension));
      ghost var now := data[..];
      RowsAfter(was, now, dimension, documents, vector);
      assert presence[..] == bits;
      if vector.Some? {
        PutBit(docid);
        present := present + 1;
      }
      assert data[..] == now;
      OneMore(documents, vector);
      documents := documents + [vector];
      forall d: nat | d / 8 < presence.Length
        ensures Bit(presence[..], d) <==> d < |documents| && documents[d].Some?
      {
        assert Bit(bits, d) <==> d < docid && documents[..docid][d].Some?;
      }
    }

    /** The row a document's bit and slice give. */
    method RowAt(docid: nat) returns (row: Option<Row>)
      requires Valid() && docid < |documents|
      ensures row == documents[docid]
    {
      hide Start, Mask, Present;
      assert RowStands(data[..], dimension, docid, documents[docid]);
      BytesGrow(docid, capacity);
      if presence[docid / 8] & Mask(docid % 8) != 0 {
        assert Bit(presence[..], docid);
        var from := Start(docid, dimension);
        row := Some(data[from..from + dimension]);
        assert data[..][from..from + dimension] == row.value;
      } else {
        assert !Bit(presence[..], docid);
        row := None;
      }
    }

    /** flush(): row n is the vector of the document with docid n; no file when there is none. */
    method WriteSidecar(writerDocuments: nat) returns (sidecar: Option<seq<Option<Row>>>)
      requires Valid() && writerDocuments == |documents|
      ensures sidecar == if forall d :: 0 <= d < |documents| ==> documents[d].None? then None else Some(documents)
    {
      hide Start, RowStands, Bit, Present;
      NonePresent(documents);
      if present == 0 {
        return None;
      }
      var rows: seq<Option<Row>> := [];
      for docid := 0 to writerDocuments
        invariant rows == documents[..docid]
      {
        var row := RowAt(docid);
        rows := rows + [row];
      }
      assert rows == documents;
      return Some(rows);
    }

    /** The signatures beside it: row n signs row n. */
    method WriteSignatures<S>(writerDocuments: nat, sign: Row -> S) returns (sidecar: seq<Option<S>>)
      requires Valid() && writerDocuments == |documents|
      ensures |sidecar| == |documents|
      ensures forall d :: 0 <= d < |documents| ==>
                sidecar[d] == if documents[d].Some? then Some(sign(documents[d].value)) else None
    {
      hide Start, RowStands, Bit, Present;
      sidecar := [];
      for docid := 0 to writerDocuments
        invariant |sidecar| == docid
        invariant forall d :: 0 <= d < docid ==>
                    sidecar[d] == if documents[d].Some? then Some(sign(documents[d].value)) else None
      {
        var row := RowAt(docid);
        sidecar := sidecar + [if row.Some? then Some(sign(row.value)) else None];
      }
    }
  }

  lemma RowIsWide(document: Option<Row>, dimension: nat)
    requires document.Some? ==> |document.value| == dimension
    ensures |RowOf(document, dimension)| == dimension
  {
  }

  lemma OneMore(documents: seq<Option<Row>>, vector: Option<Row>)
    ensures Present(documents + [vector]) == Present(documents) + if vector.Some? then 1 else 0
  {
    assert (documents + [vector])[..|documents|] == documents;
  }

  /** The rows once the next one is written. */
  lemma RowsAfter(was: seq<real>, now: seq<real>, dimension: nat, documents: seq<Option<Row>>, vector: Option<Row>)
    requires forall d: nat :: d < |documents| ==> RowStands(was, dimension, d, documents[d])
    requires var from := Start(|documents|, dimension);
             && from + dimension <= |was| == |now| && now[from..from + dimension] == RowOf(vector, dimension)
             && forall i :: 0 <= i < |was| && !(from <= i < from + dimension) ==> now[i] == was[i]
    ensures forall d: nat :: d <= |documents| ==> RowStands(now, dimension, d, (documents + [vector])[d])
  {
    RowIsThere(now, dimension, |documents|, vector);
    hide Start, RowStands, RowOf;
    forall d: nat | d < |documents| ensures RowStands(now, dimension, d, documents[d]) {
      RowStaysPut(was, now, dimension, |documents|, d, documents[d]);
    }
  }

  lemma RowIsThere(buffer: seq<real>, dimension: nat, d: nat, document: Option<Row>)
    requires var from := Start(d, dimension);
             from + dimension <= |buffer| && buffer[from..from + dimension] == RowOf(document, dimension)
    ensures RowStands(buffer, dimension, d, document)
  {
  }

  // ------------------------------------------------------------------ attributes

  datatype Value = Int(int) | Text(string) | Flag(bool)

  /** The values of the fields a document has, and its payload. */
  datatype Attributes = Attributes(fields: map<nat, seq<Value>>, payload: seq<bv8>)

  /** Which of the index's fields hold more than one value. */
  type Schema = seq<bool>

  /** What is stored of a set: of a field that holds one value, the first. */
  function Stored(schema: Schema, a: Attributes): (r: map<nat, seq<Value>>) {
    map f | f in a.fields && f < |schema| :: if schema[f] || a.fields[f] == [] then a.fields[f] else a.fields[f][..1]
  }

  /** A set made through the setters: known fields, one value where there is to be one. */
  ghost predicate Fits(schema: Schema, a: Attributes) {
    forall f :: f in a.fields ==> f < |schema| && (!schema[f] ==> |a.fields[f]| == 1)
  }

  lemma StoredIsWhole(schema: Schema, a: Attributes)
    ensures Fits(schema, a) ==> Stored(schema, a) == a.fields
    ensures Stored(schema, a) == a.fields ==> forall f :: f in a.fields ==> f < |schema| && (!schema[f] ==> |a.fields[f]| <= 1)
  {
    if Fits(schema, a) {
      assert forall f :: f in a.fields && !schema[f] ==> a.fields[f][..1] == a.fields[f];
    }
    forall f | f in a.fields && Stored(schema, a) == a.fields ensures f < |schema| && (!schema[f] ==> |a.fields[f]| <= 1) {
      assert f in Stored(schema, a);
    }
  }

  class AttributeBuffer {
    var sets: array<Option<Attributes>>
    ghost var documents: seq<Option<Attributes>>

    /** Slots without a set, and documents beyond the last slot, have none. */
    ghost predicate Valid()
      reads this, sets
    {
      && (forall d: nat :: d < |documents| ==> documents[d] == if d < sets.Length then sets[d] else None)
      && (forall d: nat :: |documents| <= d < sets.Length ==> sets[d].None?)
    }

    constructor ()
      ensures Valid() && documents == [] && fresh(sets)
    {
      sets := new Option<Attributes>[0](_ => None);
      documents := [];
    }

    /** Only a document with attributes makes the array grow, past those without. */
    method Append(docid: nat, attributes: Option<Attributes>)
      requires Valid() && docid == |documents|
      modifies this, sets
      ensures Valid() && documents == old(documents) + [attributes]
      ensures sets == old(sets) || fresh(sets)
    {
      if attributes.Some? {
        Capture(docid, attributes);
      }
      documents := documents + [attributes];
    }

    method Capture(docid: nat, attributes: Option<Attributes>)
      modifies `sets, sets
      ensures docid < sets.Length && sets[docid] == attributes && (sets == old(sets) || fresh(sets))
      ensures old(sets.Length) <= sets.Length
      ensures forall d :: 0 <= d < sets.Length && d != docid ==> sets[d] == if d < old(sets.Length) then old(sets[d]) else None
    {
      if docid >= sets.Length {
        var size := FIRST_CAPACITY;
        if sets.Length > 0 || docid >= FIRST_CAPACITY {
          size := Doubled(if sets.Length == 0 then FIRST_CAPACITY else sets.Length, docid + 1);
        }
        var grown := new Option<Attributes>[size](_ => None);
        for i := 0 to sets.Length
          modifies grown
          invariant forall j :: 0 <= j < i ==> grown[j] == sets[j]
          invariant forall j :: i <= j < size ==> grown[j].None?
        {
          grown[i] := sets[i];
        }
        sets := grown;
      }
      sets[docid] := attributes;
    }

    function SetAt(docid: nat): (r: Option<Attributes>)
      requires Valid() && docid < |documents|
      reads this, sets
      ensures r == documents[docid]
    {
      if docid < sets.Length then sets[docid] else None
    }

    /** flush(): row n holds the fields of the document with docid n, and is there without any. */
    method WriteColumns(writerDocuments: nat, schema: Schema) returns (sidecar: seq<map<nat, seq<Value>>>)
      requires Valid() && writerDocuments == |documents|
      ensures |sidecar| == |documents|
      ensures forall d :: 0 <= d < |documents| ==>
                sidecar[d] == if documents[d].Some? then Stored(schema, documents[d].value) else map[]
    {
      sidecar := [];
      for docid := 0 to writerDocuments
        invariant |sidecar| == docid
        invariant forall d :: 0 <= d < docid ==>
                    sidecar[d] == if documents[d].Some? then Stored(schema, documents[d].value) else map[]
      {
        var row: map<nat, seq<Value>> := map[];
        var attributes := SetAt(docid);
        if attributes.Some? {
          row := WriteFields(schema, attributes.value);
        }
        sidecar := sidecar + [row];
      }
    }

    /** One document, field by field of the schema. */
    static method WriteFields(schema: Schema, a: Attributes) returns (row: map<nat, seq<Value>>)
      ensures row == Stored(schema, a)
    {
      row := map[];
      for field := 0 to |schema|
        invariant row == map f | f in a.fields && f < field ::
                    if schema[f] || a.fields[f] == [] then a.fields[f] else a.fields[f][..1]
      {
        if field in a.fields {
          row := row[field := if schema[field] || a.fields[field] == [] then a.fields[field] else a.fields[field][..1]];
        }
      }
    }

    method WritePayloads(writerDocuments: nat) returns (sidecar: seq<seq<bv8>>)
      requires Valid() && writerDocuments == |documents|
      ensures |sidecar| == |documents|
      ensures forall d :: 0 <= d < |documents| ==>
                sidecar[d] == if documents[d].Some? then documents[d].value.payload else []
    {
      sidecar := [];
      for docid := 0 to writerDocuments
        invariant |sidecar| == docid
        invariant forall d :: 0 <= d < docid ==>
                    sidecar[d] == if documents[d].Some? then documents[d].value.payload else []
      {
        var attributes := SetAt(docid);
        sidecar := sidecar + [if attributes.Some? then attributes.value.payload else []];
      }
    }
  }
}
