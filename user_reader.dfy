/** adobe.UserReader: reads the credential dump one record at a time, counting
 *  the physical lines it consumes and the records it returns, and reports
 *  every failure, running out of input included, as a ParseError that names
 *  the record and the line.
 */
module Adobe {
  import opened Text
  import opened Dump

  /** The error a ParseError wraps. */
  datatype Cause =
    | ReadEOF                                   // io.EOF from the buffered reader
    | AtoiFailed(num: string, syntax: bool)     // strconv.Atoi's *NumError: invalid syntax, or out of range
    | CountMismatch(expected: int, parsed: int) // the trailer's count differs from the records read
    | Unterminated                              // a joined row still lacks "|--"
    | TooFewColumns(columns: nat)

  /** Record is -1 for an error about the trailer's total. */
  datatype ParseError = ParseError(record: int, line: int, err: Cause)

  datatype ReadResult = Record(fields: seq<string>) | EOF | Failed(error: ParseError)

  /** The reader's counters and its place in the input. */
  datatype Cursor = Cursor(pos: nat, record: int, line: int)

  datatype Step = Step(result: ReadResult, after: Cursor)

  /** The text of an error as %v prints it. */
  function CauseText(c: Cause): string {
    match c
    case ReadEOF => "EOF"
    case AtoiFailed(num, syntax) =>
      "strconv.Atoi: parsing " + Quote(num) + ": " + (if syntax then "invalid syntax" else "value out of range")
    case CountMismatch(expected, parsed) =>
      Itoa(expected) + " records expected, but " + Itoa(parsed) + " parsed"
    case Unterminated => "unterminated row"
    case TooFewColumns(n) => "only " + Itoa(n) + " columns"
  }

  /** %q of a string, for strings that need no escape. */
  function Quote(s: string): string {
    "\"" + s + "\""
  }

  /** ParseError.Error. */
  function ErrorText(e: ParseError): (msg: string)
    ensures HasSuffix(msg, ": " + CauseText(e.err))
  {
    var head := if e.record == -1 then "record total" else "record " + Itoa(e.record);
    var msg := head + " on line " + Itoa(e.line) + ": " + CauseText(e.err);
    assert msg == (head + " on line " + Itoa(e.line)) + (": " + CauseText(e.err));
    msg
  }

  // ---------------------------------------------------------------------
  // Read, as a function of the input lines and the cursor

  /** Whether Read stopped because a read met the end of the input. */
  predicate HitEnd(r: ReadResult) {
    r.Failed? && r.error.err == ReadEOF
  }

  /** One call of Read on the lines from c.pos on. */
  function ReadSpec(lines: seq<string>, c: Cursor): Step
    requires c.pos <= |lines|
  {
    var k := NextNonBlank(lines, c.pos);
    var line := c.line + (k - c.pos) + 1;
    if k == |lines| then
      Step(Failed(ParseError(c.record, line, ReadEOF)), Cursor(k, c.record, line))
    else if IsTrailer(lines[k]) then
      TrailerSpec(lines[k], Cursor(k + 1, c.record, line))
    else if Terminated(lines[k]) then
      RecordSpec(lines[k], Cursor(k + 1, c.record, line))
    else
      JoinSpec(lines, k, c.record, line)
  }

  /** The end of Read on a trailer line: the count it states against the records read. */
  function TrailerSpec(t: string, c: Cursor): (s: Step)
    requires IsTrailer(t)
    ensures s.after == c && !HitEnd(s.result)
    ensures s.result == EOF || (s.result.Failed? && s.result.error.record == -1)
  {
    match TrailerCount(t)
    case Parsed(n) =>
      if n != c.record then Step(Failed(ParseError(-1, c.line, CountMismatch(n, c.record))), c)
      else Step(EOF, c)
    case SyntaxError =>
      Step(Failed(ParseError(-1, c.line, AtoiFailed(t[..|t| - |TrailerSuffix|], true))), c)
    case RangeError =>
      Step(Failed(ParseError(-1, c.line, AtoiFailed(t[..|t| - |TrailerSuffix|], false))), c)
  }

  /** The end of Read on line k, which is not terminated: it is joined with the next
      line, read as one more line. */
  function JoinSpec(lines: seq<string>, k: nat, record: int, line: int): (s: Step)
    requires k < |lines| && !Terminated(lines[k])
    ensures k + 1 <= s.after.pos <= |lines| && s.after.pos <= k + 2
    ensures s.after.line == line + 1
    ensures HitEnd(s.result) <==> k + 1 == |lines|
    ensures s.after.record == record + if s.result.Record? then 1 else 0
  {
    if k + 1 == |lines| then
      Step(Failed(ParseError(record, line + 1, ReadEOF)), Cursor(k + 1, record, line + 1))
    else if !Terminated(lines[k] + lines[k + 1]) then
      Step(Failed(ParseError(record, line + 1, Unterminated)), Cursor(k + 2, record, line + 1))
    else
      RecordSpec(lines[k] + lines[k + 1], Cursor(k + 2, record, line + 1))
  }

  /** The end of Read once a terminated row is in hand. */
  function RecordSpec(row: string, c: Cursor): (s: Step)
    requires Terminated(row)
    ensures s.after.pos == c.pos && s.after.line == c.line && !HitEnd(s.result)
    ensures s.after.record == c.record + if s.result.Record? then 1 else 0
  {
    var parts := Split(Body(row), Separator);
    if |parts| < 5 then Step(Failed(ParseError(c.record, c.line, TooFewColumns(|parts|))), c)
    else Step(Record(Columns(parts)), Cursor(c.pos, c.record + 1, c.line))
  }

  /** The row a successful Read parsed: the first non-blank line, joined with the next
      one when it was not terminated. */
  function RowRead(lines: seq<string>, k: nat, end: nat): string
    requires k < end <= |lines| && end <= k + 2
  {
    if end == k + 1 then lines[k] else lines[k] + lines[k + 1]
  }

  /** Blank lines are skipped and line counts every physical line consumed, plus the
      read attempt that met the end of the input; the cursor never moves back. */
  lemma ReadCountsLines(lines: seq<string>, c: Cursor)
    requires c.pos <= |lines|
    ensures var s := ReadSpec(lines, c);
      c.pos <= s.after.pos <= |lines|
      && (!HitEnd(s.result) ==> s.after.pos > NextNonBlank(lines, c.pos))
      && (HitEnd(s.result) ==> s.after.pos == |lines|)
      && s.after.line == c.line + (s.after.pos - c.pos) + (if HitEnd(s.result) then 1 else 0)
  {
  }

  /** record grows by one on a successful Read and stays put on an error or at the end. */
  lemma ReadCountsRecords(lines: seq<string>, c: Cursor)
    requires c.pos <= |lines|
    ensures ReadSpec(lines, c).after.record == c.record + if ReadSpec(lines, c).result.Record? then 1 else 0
  {
  }

  /** Running out of input is a ParseError; the only io.EOF is a trailer whose count
      matches the records read. */
  lemma ReadEndOfInput(lines: seq<string>, c: Cursor)
    requires c.pos <= |lines|
    ensures var k := NextNonBlank(lines, c.pos);
      (k == |lines| ==>
         ReadSpec(lines, c).result == Failed(ParseError(c.record, c.line + (k - c.pos) + 1, ReadEOF)))
      && (ReadSpec(lines, c).result == EOF <==>
            k < |lines| && IsTrailer(lines[k]) && TrailerCount(lines[k]) == Parsed(c.record))
  {
  }

  /** A trailer line ends the dump: io.EOF when its count is right, otherwise an error
      about the total (record -1). */
  lemma ReadTrailer(lines: seq<string>, c: Cursor)
    requires c.pos <= |lines|
    requires NextNonBlank(lines, c.pos) < |lines| && IsTrailer(lines[NextNonBlank(lines, c.pos)])
    ensures var s := ReadSpec(lines, c);
      s.after.pos == NextNonBlank(lines, c.pos) + 1
      && (s.result == EOF || (s.result.Failed? && s.result.error.record == -1))
  {
  }

  /** The trailer the dump itself ends with, "N rows selected." for the N records read,
      ends the reading with io.EOF. */
  lemma ReadOwnTrailer(lines: seq<string>, c: Cursor)
    requires c.pos <= |lines| && -IntBound <= c.record < IntBound
    requires NextNonBlank(lines, c.pos) < |lines|
    requires lines[NextNonBlank(lines, c.pos)] == Itoa(c.record) + TrailerSuffix
    ensures ReadSpec(lines, c).result == EOF
  {
    var t := lines[NextNonBlank(lines, c.pos)];
    assert t[|t| - |TrailerSuffix|..] == TrailerSuffix;
    assert t[|t| - 1] == '.';
    assert t[..|t| - |TrailerSuffix|] == Itoa(c.record);
    AtoiItoa(c.record);
  }

  /** A line that is neither a record nor a trailer is joined with exactly one more line;
      if that does not end the row the error is "unterminated row". */
  lemma ReadJoins(lines: seq<string>, c: Cursor)
    requires c.pos <= |lines|
    requires var k := NextNonBlank(lines, c.pos);
      k < |lines| && !Terminated(lines[k]) && !IsTrailer(lines[k])
    ensures var k := NextNonBlank(lines, c.pos);
      k + 1 == |lines| ==> ReadSpec(lines, c).result.Failed? && ReadSpec(lines, c).result.error.err == ReadEOF
    ensures var k := NextNonBlank(lines, c.pos);
      k + 1 < |lines| ==> ReadSpec(lines, c).after.pos == k + 2
    ensures var k := NextNonBlank(lines, c.pos);
      k + 1 < |lines| && !Terminated(lines[k] + lines[k + 1]) ==>
        ReadSpec(lines, c).result == Failed(ParseError(c.record, c.line + (k - c.pos) + 2, Unterminated))
  {
    ReadJoinsAtEnd(lines, c);
    ReadJoinsNext(lines, c);
    ReadJoinsUnterminated(lines, c);
  }

  lemma ReadJoinsAtEnd(lines: seq<string>, c: Cursor)
    requires c.pos <= |lines|
    requires var k := NextNonBlank(lines, c.pos);
      k < |lines| && !Terminated(lines[k]) && !IsTrailer(lines[k])
    ensures var k := NextNonBlank(lines, c.pos);
      k + 1 == |lines| ==> ReadSpec(lines, c).result.Failed? && ReadSpec(lines, c).result.error.err == ReadEOF
  {
    var k := NextNonBlank(lines, c.pos);
    ReadIsJoin(lines, c);
    JoinOutcome(lines, k, c.record, c.line + (k - c.pos) + 1);
  }

  lemma ReadJoinsNext(lines: seq<string>, c: Cursor)
    requires c.pos <= |lines|
    requires var k := NextNonBlank(lines, c.pos);
      k < |lines| && !Terminated(lines[k]) && !IsTrailer(lines[k])
    ensures var k := NextNonBlank(lines, c.pos);
      k + 1 < |lines| ==> ReadSpec(lines, c).after.pos == k + 2
  {
    var k := NextNonBlank(lines, c.pos);
    ReadIsJoin(lines, c);
    JoinOutcome(lines, k, c.record, c.line + (k - c.pos) + 1);
  }

  lemma ReadJoinsUnterminated(lines: seq<string>, c: Cursor)
    requires c.pos <= |lines|
    requires var k := NextNonBlank(lines, c.pos);
      k < |lines| && !Terminated(lines[k]) && !IsTrailer(lines[k])
    ensures var k := NextNonBlank(lines, c.pos);
      k + 1 < |lines| && !Terminated(lines[k] + lines[k + 1]) ==>
        ReadSpec(lines, c).result == Failed(ParseError(c.record, c.line + (k - c.pos) + 2, Unterminated))
  {
    var k := NextNonBlank(lines, c.pos);
    ReadIsJoin(lines, c);
    JoinOutcome(lines, k, c.record, c.line + (k - c.pos) + 1);
  }

  /** A row that is neither a trailer nor terminated is read by joining it to the next line. */
  lemma ReadIsJoin(lines: seq<string>, c: Cursor)
    requires c.pos <= |lines|
    requires var k := NextNonBlank(lines, c.pos);
      k < |lines| && !Terminated(lines[k]) && !IsTrailer(lines[k])
    ensures var k := NextNonBlank(lines, c.pos);
      ReadSpec(lines, c) == JoinSpec(lines, k, c.record, c.line + (k - c.pos) + 1)
  {
    var k := NextNonBlank(lines, c.pos);
    var line := c.line + (k - c.pos) + 1;
    assert k != |lines| && !IsTrailer(lines[k]) && !Terminated(lines[k]);
    assert ReadSpec(lines, c) == JoinSpec(lines, k, c.record, line);
  }

  /** The three ways a row continued on the next line ends. */
  lemma JoinOutcome(lines: seq<string>, k: nat, record: int, line: int)
    requires k < |lines| && !Terminated(lines[k])
    ensures var s := JoinSpec(lines, k, record, line);
      (k + 1 == |lines| ==> s.result.Failed? && s.result.error.err == ReadEOF)
      && (k + 1 < |lines| ==> s.after.pos == k + 2)
      && (k + 1 < |lines| && !Terminated(lines[k] + lines[k + 1]) ==>
            s.result == Failed(ParseError(record, line + 1, Unterminated)))
  {
    if k + 1 < |lines| && Terminated(lines[k] + lines[k + 1]) {
      assert JoinSpec(lines, k, record, line) == RecordSpec(lines[k] + lines[k + 1], Cursor(k + 2, record, line + 1));
    }
  }

  /** A successful Read has exactly five columns, the first four free of the separator,
      which joined with the separator and followed by "|--" give back the row read. */
  lemma ReadRecordShape(lines: seq<string>, c: Cursor)
    requires c.pos <= |lines|
    requires ReadSpec(lines, c).result.Record?
    ensures var k := NextNonBlank(lines, c.pos);
      var s := ReadSpec(lines, c);
      var fields := s.result.fields;
      k < s.after.pos <= k + 2
      && |fields| == 5
      && (forall j :: 0 <= j < 4 ==> !Contains(fields[j], Separator))
      && Join(fields, Separator) + Terminator == RowRead(lines, k, s.after.pos)
  {
    var k := NextNonBlank(lines, c.pos);
    var s := ReadSpec(lines, c);
    ColumnsOfBody(Body(RowRead(lines, k, s.after.pos)));
  }

  /** A terminated row splits into fewer than five pieces exactly when Read reports
      "only N columns". */
  lemma ReadTooFewColumns(lines: seq<string>, c: Cursor)
    requires c.pos <= |lines|
    requires var k := NextNonBlank(lines, c.pos);
      k < |lines| && Terminated(lines[k])
    ensures var k := NextNonBlank(lines, c.pos);
      var n := |Split(Body(lines[k]), Separator)|;
      (n < 5 <==> ReadSpec(lines, c).result.Failed?)
      && (n < 5 ==> ReadSpec(lines, c).result.error.err == TooFewColumns(n))
  {
  }

  /** A row joined from two lines fails the same way, the error naming the second line. */
  lemma ReadJoinedTooFewColumns(lines: seq<string>, c: Cursor)
    requires c.pos <= |lines|
    requires var k := NextNonBlank(lines, c.pos);
      k + 1 < |lines| && !Terminated(lines[k]) && !IsTrailer(lines[k]) && Terminated(lines[k] + lines[k + 1])
    ensures var k := NextNonBlank(lines, c.pos);
      var n := |Split(Body(lines[k] + lines[k + 1]), Separator)|;
      (n < 5 <==> ReadSpec(lines, c).result.Failed?)
      && (n < 5 ==> ReadSpec(lines, c).result == Failed(ParseError(c.record, c.line + (k - c.pos) + 2, TooFewColumns(n))))
  {
    var k := NextNonBlank(lines, c.pos);
    var line := c.line + (k - c.pos) + 1;
    ReadIsJoin(lines, c);
    assert JoinSpec(lines, k, c.record, line) == RecordSpec(lines[k] + lines[k + 1], Cursor(k + 2, c.record, line + 1));
  }

  /** ParseError.Error names the total for record -1 and the record otherwise. */
  lemma ErrorTextHead(e: ParseError)
    ensures e.record == -1 ==> ErrorText(e) == "record total on line " + Itoa(e.line) + ": " + CauseText(e.err)
    ensures e.record != -1 ==>
      ErrorText(e) == "record " + Itoa(e.record) + " on line " + Itoa(e.line) + ": " + CauseText(e.err)
  {
  }

  // ---------------------------------------------------------------------
  // The reader

  class UserReader {
    const lines: seq<string>
    var pos: nat
    var record: int
    var line: int

    ghost predicate Valid()
      reads this
    {
      pos <= |lines|
    }

    function State(): Cursor
      reads this
    {
      Cursor(pos, record, line)
    }

    /** NewUserReader. */
    constructor (input: seq<string>)
      ensures Valid() && lines == input
      ensures pos == 0 && record == 0 && line == 0
    {
      lines := input;
      pos := 0;
      record := 0;
      line := 0;
    }

    /** Read one record. */
    method Read() returns (r: ReadResult)
      requires Valid()
      modifies this
      ensures Valid()
      ensures Step(r, State()) == ReadSpec(lines, old(State()))
    {
      ghost var k := NextNonBlank(lines, pos);
      var l := "";
      while l == ""
        invariant old(pos) <= pos <= |lines|
        invariant line == old(line) + (pos - old(pos)) && record == old(record)
        invariant l == "" ==> pos <= k
        invariant l != "" ==> pos == k + 1 && k < |lines| && l == lines[k]
        decreases |lines| - pos
      {
        line := line + 1;
        if pos == |lines| {
          return Failed(ParseError(record, line, ReadEOF));
        }
        l := lines[pos];
        pos := pos + 1;
      }

      if !HasSuffix(l, Terminator) {
        if HasSuffix(l, TrailerSuffix) {
          r := ReadTotal(l);
          return;
        }

        line := line + 1;
        if pos == |lines| {
          return Failed(ParseError(record, line, ReadEOF));
        }
        l := l + lines[pos];
        pos := pos + 1;
        if !HasSuffix(l, Terminator) {
          return Failed(ParseError(record, line, Unterminated));
        }
      }
      r := ReadColumns(l);
    }

    /** The trailer branch of Read: the count against the records read. */
    method ReadTotal(l: string) returns (r: ReadResult)
      requires IsTrailer(l)
      ensures Step(r, State()) == TrailerSpec(l, State())
    {
      var count := l[..|l| - |TrailerSuffix|];
      var n := Atoi(count);
      if !n.Parsed? {
        return Failed(ParseError(-1, line, AtoiFailed(count, n.SyntaxError?)));
      }
      if n.value != record {
        return Failed(ParseError(-1, line, CountMismatch(n.value, record)));
      }
      return EOF;
    }

    /** The last step of Read: the row split into its columns. */
    method ReadColumns(l: string) returns (r: ReadResult)
      requires Terminated(l)
      modifies this
      ensures pos == old(pos) && line == old(line)
      ensures Step(r, State()) == RecordSpec(l, old(State()))
    {
      var fields := Split(l[..|l| - |Terminator|], Separator);
      if |fields| < 5 {
        return Failed(ParseError(record, line, TooFewColumns(|fields|)));
      }
      if |fields| > 5 {
        fields := fields[4 := Join(fields[4..], Separator)];
        fields := fields[..5];
      }
      record := record + 1;
      return Record(fields);
    }
  }
}
