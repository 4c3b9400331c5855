/**
 The file of the write-ahead log: what append() writes, what replay_next() makes of it, and
 what a record that a crash has torn does to the records around it.  A character stands for
 a byte.
 */
module WriteAheadLog {
  import opened SegmentModel
  import opened Operations

  /** A record as the file has it: the operation, the key, and the text if there is one. */
  datatype Line = Line(op: char, key: string, text: string)

  function LineOf(r: WalRecord): Line {
    match r
    case Added(k, doc) => Line('A', k, doc.text)
    case Updated(k, doc) => Line('U', k, doc.text)
    case Deleted(k) => Line('D', k, "")
  }

  predicate IsOp(op: char) {
    op == 'A' || op == 'U' || op == 'D'
  }

  /** What append() accepts, except that it never writes the text of a deletion. */
  predicate Writable(l: Line) {
    IsOp(l.op) && 1 <= |l.key| <= 8192 && |l.text| <= 256 * 1024 * 1024 && (l.op == 'D' ==> l.text == "")
  }

  // ------------------------------------------------------------------------ numbers

  /** n in `width` bytes, the lowest first. */
  function Number(n: nat, width: nat): (r: string)
    ensures |r| == width
  {
    if width == 0 then "" else [(n % 256) as char] + Number(n / 256, width - 1)
  }

  function Value(bytes: string): (n: nat) {
    if bytes == "" then 0 else bytes[0] as int + 256 * Value(bytes[1..])
  }

  function Power(width: nat): (r: nat) {
    if width == 0 then 1 else 256 * Power(width - 1)
  }

  lemma {:induction false} NumberIsRead(n: nat, width: nat)
    requires n < Power(width)
    ensures Value(Number(n, width)) == n
  {
    if width > 0 {
      NumberIsRead(n / 256, width - 1);
    }
  }

  lemma LengthsFit()
    ensures Power(4) == 0x1_0000_0000 && Power(8) == 0x1_0000_0000_0000_0000
  {
    assert Power(1) == 256 && Power(2) == 0x1_0000 && Power(3) == 0x100_0000;
    assert Power(5) == 0x100_0000_0000 && Power(6) == 0x1_0000_0000_0000 && Power(7) == 0x100_0000_0000_0000;
  }

  // ------------------------------------------------------------------------ records

  const NO_VECTOR := 0 as char

  /** The operation, the key behind its length, the text behind its length, and no vector. */
  function Written(l: Line): (r: string) {
    [l.op] + Number(|l.key|, 4) + l.key + Number(|l.text|, 8) + l.text + [NO_VECTOR]
  }

  lemma WrittenIs()
    ensures Written(Line('D', "k", "")) == "D" + [1 as char, 0 as char, 0 as char, 0 as char] + "k" + seq(9, _ => 0 as char)
    ensures Number(258, 4) == [2 as char, 1 as char, 0 as char, 0 as char]
  {
    assert Number(0, 8) == seq(8, _ => 0 as char) by { ZeroBytes(8); }
    assert Number(1, 4) == [1 as char] + Number(0, 3) && Number(0, 3) == seq(3, _ => 0 as char) by { ZeroBytes(3); }
    assert Number(258, 4) == [2 as char] + Number(1, 3) && Number(1, 3) == [1 as char] + Number(0, 2);
    ZeroBytes(2);
  }

  lemma {:induction false} ZeroBytes(width: nat)
    ensures Number(0, width) == seq(width, _ => 0 as char)
  {
    if width > 0 {
      ZeroBytes(width - 1);
    }
  }

  function Size(l: Line): (n: nat) {
    14 + |l.key| + |l.text|
  }

  function AllWritten(lines: seq<Line>): (r: string) {
    if lines == [] then "" else Written(lines[0]) + AllWritten(lines[1..])
  }

  /** replay_next(): the record at the head of what is left of the file, if it is whole. */
  function ReadAt(s: string): (r: Option<Line>)
    ensures r.Some? ==> Size(r.value) <= |s|
  {
    if |s| < 5 || !IsOp(s[0]) then None
    else
      var n := Value(s[1..5]);
      if n < 1 || n > 8192 || |s| < 13 + n then None
      else
        var m := Value(s[5 + n..13 + n]);
        if m > 268435456 || |s| < 14 + n + m || s[13 + n + m] != NO_VECTOR then None
        else Some(Line(s[0], s[5..5 + n], s[13 + n..13 + n + m]))
  }

  /** Records are replayed up to the first that is not whole. */
  function ReadAll(s: string): (r: seq<Line>)
    decreases |s|
  {
    var l := ReadAt(s);
    if l.None? then [] else [l.value] + ReadAll(s[Size(l.value)..])
  }

  lemma WrittenParts(l: Line, rest: string)
    ensures var s, n, m := Written(l) + rest, |l.key|, |l.text|;
            && |s| == Size(l) + |rest| && |Written(l)| == Size(l) && s[0] == l.op
            && s[1..5] == Number(n, 4) && s[5..5 + n] == l.key && s[5 + n..13 + n] == Number(m, 8)
            && s[13 + n..13 + n + m] == l.text && s[13 + n + m] == NO_VECTOR && s[Size(l)..] == rest
  {
  }

  lemma PartsAreRead(s: string, l: Line)
    requires Writable(l) && |s| >= Size(l) && s[0] == l.op
    requires var n, m := |l.key|, |l.text|;
             && Value(s[1..5]) == n && s[5..5 + n] == l.key && Value(s[5 + n..13 + n]) == m
             && s[13 + n..13 + n + m] == l.text && s[13 + n + m] == NO_VECTOR
    ensures ReadAt(s) == Some(l)
  {
    hide Value;
  }

  /** Whatever append() accepts, replay_next() reads back, wherever it stands. */
  lemma WrittenIsRead(l: Line, rest: string)
    requires Writable(l)
    ensures ReadAt(Written(l) + rest) == Some(l) && (Written(l) + rest)[Size(l)..] == rest
  {
    WrittenParts(l, rest);
    LengthsFit();
    NumberIsRead(|l.key|, 4);
    NumberIsRead(|l.text|, 8);
    hide Written, Number, Value, ReadAt;
    PartsAreRead(Written(l) + rest, l);
  }

  /** And what it refuses for its size, replay_next() would not read. */
  lemma RefusedIsNotRead(l: Line, rest: string)
    requires !(1 <= |l.key| <= 8192 && |l.text| <= 268435456) && |l.key| < Power(4) && |l.text| < Power(8)
    ensures ReadAt(Written(l) + rest) == None
  {
    WrittenParts(l, rest);
    NumberIsRead(|l.key|, 4);
    NumberIsRead(|l.text|, 8);
    hide Written, Number;
  }

  lemma {:induction false} LogRoundTrip(lines: seq<Line>, rest: string)
    requires forall i :: 0 <= i < |lines| ==> Writable(lines[i])
    ensures ReadAll(AllWritten(lines) + rest) == lines + ReadAll(rest)
  {
    if lines == [] {
      assert AllWritten(lines) + rest == rest;
    } else {
      var more := AllWritten(lines[1..]) + rest;
      WrittenNext(lines, rest);
      LogRoundTrip(lines[1..], rest);
      hide Written, ReadAt, ReadAll, AllWritten, Writable;
      WrittenIsRead(lines[0], more);
      ReadNext(Written(lines[0]) + more, lines[0]);
      HeadJoins(lines, ReadAll(rest));
    }
  }

  lemma WrittenNext(lines: seq<Line>, rest: string)
    requires lines != []
    ensures AllWritten(lines) + rest == Written(lines[0]) + (AllWritten(lines[1..]) + rest)
  {
    hide Written;
  }

  lemma HeadJoins(lines: seq<Line>, rest: seq<Line>)
    requires lines != []
    ensures [lines[0]] + (lines[1..] + rest) == lines + rest
  {
  }

  lemma ReadNext(s: string, l: Line)
    requires ReadAt(s) == Some(l)
    ensures ReadAll(s) == [l] + ReadAll(s[Size(l)..])
  {
  }

  // --------------------------------------------------------------------- torn records

  /** A record cut short, with too little behind it to make up for what is missing, is not read. */
  lemma CutShort(l: Line, t: string, more: string)
    requires Writable(l) && t < Written(l)
    requires more == "" || (|t| >= 13 + |l.key| && |t| + |more| < Size(l))
    ensures ReadAt(t + more) == None
  {
    WrittenParts(l, "");
    assert Written(l) + "" == Written(l);
    var s, w, n := t + more, Written(l), |l.key|;
    LengthsFit();
    NumberIsRead(n, 4);
    NumberIsRead(|l.text|, 8);
    assert t == w[..|t|];
    hide Written, Number, Power, Writable, IsOp;
    if |s| >= 5 {
      SameSlice(s, w, |t|, 1, 5);
      if |s| >= 13 + n {
        SameSlice(s, w, |t|, 5 + n, 13 + n);
      }
    }
  }

  lemma SameSlice(s: string, w: string, k: nat, from: nat, to: nat)
    requires from <= to <= k <= |s| && k <= |w| && s[..k] == w[..k]
    ensures s[from..to] == w[from..to]
  {
    assert s[from..to] == s[..k][from..to] && w[from..to] == w[..k][from..to];
  }

  /** A crash in the middle of append() costs the record it tears and no other. */
  lemma TornTailIsDropped(lines: seq<Line>, l: Line, t: string)
    requires (forall i :: 0 <= i < |lines| ==> Writable(lines[i])) && Writable(l) && t < Written(l)
    ensures ReadAll(AllWritten(lines) + t) == lines
  {
    CutShort(l, t, "");
    assert t + "" == t;
    hide Written, ReadAt, AllWritten;
    LogRoundTrip(lines, t);
    assert lines + [] == lines;
  }

  /**
   But nothing removes the torn record, and append() goes on behind it.  Once its lengths have
   reached the file, whatever is logged afterwards is lost to the next replay, until as much
   has been logged as was torn off.
   */
  lemma TearHidesWhatFollows(lines: seq<Line>, l: Line, t: string, later: seq<Line>)
    requires (forall i :: 0 <= i < |lines| ==> Writable(lines[i])) && Writable(l) && t < Written(l)
    requires 13 + |l.key| <= |t| && |t| + |AllWritten(later)| < Size(l)
    ensures ReadAll(AllWritten(lines) + t + AllWritten(later)) == lines
  {
    var rest := t + AllWritten(later);
    CutShort(l, t, AllWritten(later));
    hide Written, ReadAt, AllWritten;
    LogRoundTrip(lines, rest);
    assert AllWritten(lines) + t + AllWritten(later) == AllWritten(lines) + rest;
    assert lines + [] == lines;
  }

  const LONG := Line('A', "k", "abcdefghijklmnopqrstuvwxyz0123456789")
  const SHORT := Line('A', "m", "text")

  /** A document logged and acknowledged after such a crash is gone with the next one. */
  lemma LoggedAndLost()
    ensures Writable(LONG) && Writable(SHORT) && Written(LONG)[..14] < Written(LONG)
    ensures ReadAll(Written(LONG)[..14] + AllWritten([SHORT])) == []
  {
    var t := Written(LONG)[..14];
    assert AllWritten([SHORT]) == Written(SHORT) + AllWritten([]);
    WrittenParts(LONG, "");
    WrittenParts(SHORT, "");
    assert Written(SHORT) + "" == Written(SHORT) && Written(LONG) + "" == Written(LONG);
    hide Written;
    assert AllWritten([]) == "";
    TearHidesWhatFollows([], LONG, t, [SHORT]);
    assert AllWritten([]) + t + AllWritten([SHORT]) == t + AllWritten([SHORT]);
  }

  /** The index's limit on what it logs is that of the file, on both of its sides. */
  lemma LimitsAgree(r: WalRecord)
    requires ValidKey(r.key) && (!r.Deleted? ==> |r.document.text| < Power(8))
    ensures Recordable(r) <==> Writable(LineOf(r))
    ensures Recordable(r) <==> ReadAt(Written(LineOf(r))) == Some(LineOf(r))
    ensures Recordable(r) <==> r.Deleted? || |r.document.text| <= 268435456
  {
    var l := LineOf(r);
    LengthsFit();
    assert Written(l) + "" == Written(l);
    if Writable(l) {
      WrittenIsRead(l, "");
    } else {
      RefusedIsNotRead(l, "");
    }
  }

  lemma ReadStep(s: string)
    ensures ReadAll(s) == match ReadAt(s) case None => [] case Some(l) => [l] + ReadAll(s[Size(l)..])
  {
  }

  // ------------------------------------------------------------------------- the file

  lemma PiecesJoin(was: string, l: Line)
    ensures was + [l.op] + Number(|l.key|, 4) + l.key + Number(|l.text|, 8) + l.text + [NO_VECTOR] == was + Written(l)
  {
    hide Number;
    var a, b, c, d, e := [l.op], Number(|l.key|, 4), l.key, Number(|l.text|, 8), l.text;
    assert was + a + b + c + d + e + [NO_VECTOR] == was + (a + b + c + d + e + [NO_VECTOR]);
  }

  class LogFile {
    var file: string
    var position: nat
    var healthy: bool

    constructor (file: string)
      ensures this.file == file && position == 0 && healthy
    {
      this.file, position, healthy := file, 0, true;
    }

    /** True when nothing was written; from then on nothing is, until the log is truncated. */
    method Append(op: char, key: string, text: string) returns (failed: bool)
      modifies `file, `healthy
      ensures var l := Line(op, key, if op == 'D' then "" else text);
              && (failed <==> !(old(healthy) && Writable(l)))
              && file == (if failed then old(file) else old(file) + Written(l)) && healthy == !failed
    {
      if !healthy {
        return true;
      }
      if op != 'A' && op != 'U' && op != 'D' {
        healthy := false;
        return true;
      }
      if |key| < 1 || |key| > 8192 {
        healthy := false;
        return true;
      }
      var length := if op == 'D' then 0 else |text|;
      if length > 256 * 1024 * 1024 {
        healthy := false;
        return true;
      }
      hide Written, Number;
      ghost var was := file;
      file := file + [op];
      file := file + Number(|key|, 4);
      file := file + key;
      file := file + Number(length, 8);
      if length > 0 {
        file := file + text;
      }
      file := file + [NO_VECTOR];
      PiecesJoin(was, Line(op, key, if op == 'D' then "" else text));
      assert was + [op] + Number(|key|, 4) + key + Number(length, 8) + "" == was + [op] + Number(|key|, 4) + key + Number(length, 8);
      return false;
    }

    /** The position only moves past a whole record. */
    method ReplayNext() returns (found: bool, line: Line)
      requires position <= |file|
      modifies `position
      ensures var r := ReadAt(file[old(position)..]);
              && (found <==> r.Some?) && (found ==> line == r.value && position == old(position) + Size(line))
              && (!found ==> position == old(position)) && position <= |file|
    {
      found, line := false, Line('A', "", "");
      var s := file[position..];
      if |s| < 1 {
        return;
      }
      var op := s[0];
      if op != 'A' && op != 'U' && op != 'D' {
        return;
      }
      if |s| < 5 {
        return;
      }
      var n := Value(s[1..5]);
      if n < 1 || n > 8192 {
        return;
      }
      if |s| < 5 + n {
        return;
      }
      if |s| < 13 + n {
        return;
      }
      var m := Value(s[5 + n..13 + n]);
      if m > 256 * 1024 * 1024 {
        return;
      }
      if |s| < 13 + n + m {
        return;
      }
      if |s| < 14 + n + m || s[13 + n + m] != NO_VECTOR {
        return;
      }
      position := position + 14 + n + m;
      return true, Line(op, s[5..5 + n], s[13 + n..13 + n + m]);
    }

    /** open()'s loop. */
    method Replay() returns (lines: seq<Line>)
      requires position == 0
      modifies `position
      ensures lines == ReadAll(file)
    {
      hide ReadAt, ReadAll;
      lines := [];
      var found := true;
      assert file[0..] == file;
      while found
        invariant position <= |file|
        invariant found ==> ReadAll(file) == lines + ReadAll(file[position..])
        invariant !found ==> ReadAll(file) == lines
        decreases found, |file| - position
      {
        ghost var s := file[position..];
        ReadStep(s);
        var line;
        found, line := ReplayNext();
        if found {
          assert s[Size(line)..] == file[position..];
          assert lines + ([line] + ReadAll(file[position..])) == lines + [line] + ReadAll(file[position..]);
          lines := lines + [line];
        }
      }
    }

    /** Emptied, and healthy again. */
    method Truncate()
      modifies this
      ensures file == "" && position == 0 && healthy
    {
      file, position, healthy := "", 0, true;
    }
  }
}
