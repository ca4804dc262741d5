/** The command-line scanner of the credential dump (package main, users.go):
 *  RowScanner reads the same dump as adobe.UserReader, counting Rows and
 *  Line, but returns each record as a User and reports errors as plain
 *  messages. Running out of input while looking for a row is a bare io.EOF,
 *  the same value a trailer with the right count gives.
 */
module Users {
  import opened Text
  import opened Dump
  import Adobe

  /** An account of the dump, its five columns in order. */
  datatype User = User(uid: string, username: string, email: string, password: string, hint: string)

  /** The errors Row builds with fmt.Errorf. */
  datatype RowError =
    | CountParse(num: string, syntax: bool)  // the trailer's count is not an int
    | RowsMismatch(rows: int, found: int)    // the trailer's count differs from Rows
    | ReadFailed(line: int)                  // the line to join with is missing
    | Unterminated(line: int)                // a joined row still lacks "|--"
    | TooFewColumns(columns: nat, line: int)

  datatype RowResult = Row(user: User) | EOF | Failed(err: RowError)

  /** The scanner's counters and its place in the input. */
  datatype Place = Place(pos: nat, rows: int, line: int)

  datatype RowStep = RowStep(result: RowResult, after: Place)

  /** The message of a Row error. */
  function RowErrorText(e: RowError): (msg: string)
    ensures |msg| > 7 && msg[..7] == "users: "
  {
    match e
    case CountParse(num, syntax) =>
      "users: row count parse error: " + Adobe.CauseText(Adobe.AtoiFailed(num, syntax))
    case RowsMismatch(rows, found) =>
      "users: dump specifies " + Itoa(rows) + " rows, but " + Itoa(found) + " found"
    case ReadFailed(line) => "users: error on line " + Itoa(line) + ": EOF"
    case Unterminated(line) => "users: unterminated row on line " + Itoa(line)
    case TooFewColumns(n, line) => "users: only " + Itoa(n) + " columns on line " + Itoa(line)
  }

  // ---------------------------------------------------------------------
  // Row, as a function of the input lines and the scanner's place

  /** One call of Row on the lines from p.pos on. */
  function RowSpec(lines: seq<string>, p: Place): RowStep
    requires p.pos <= |lines|
  {
    var k := NextNonBlank(lines, p.pos);
    var line := p.line + (k - p.pos) + 1;
    if k == |lines| then
      RowStep(EOF, Place(k, p.rows, line))
    else if IsTrailer(lines[k]) then
      CountSpec(lines[k], Place(k + 1, p.rows, line))
    else if Terminated(lines[k]) then
      UserSpec(lines[k], Place(k + 1, p.rows, line))
    else
      JoinRowSpec(lines, k, p.rows, line)
  }

  /** The end of Row on a trailer line: the count it states against Rows. */
  function CountSpec(t: string, p: Place): (s: RowStep)
    requires IsTrailer(t)
    ensures s.after == p && !s.result.Row?
  {
    match TrailerCount(t)
    case Parsed(n) =>
      if n != p.rows then RowStep(Failed(RowsMismatch(n, p.rows)), p)
      else RowStep(EOF, p)
    case SyntaxError => RowStep(Failed(CountParse(t[..|t| - |TrailerSuffix|], true)), p)
    case RangeError => RowStep(Failed(CountParse(t[..|t| - |TrailerSuffix|], false)), p)
  }

  /** The end of Row on line k, which is not terminated: it is joined with the next
      line, read as one more line. */
  function JoinRowSpec(lines: seq<string>, k: nat, rows: int, line: int): (s: RowStep)
    requires k < |lines| && !Terminated(lines[k])
    ensures k + 1 <= s.after.pos <= |lines| && s.after.pos <= k + 2
    ensures s.after.line == line + 1
    ensures s.result == Failed(ReadFailed(line + 1)) <==> k + 1 == |lines|
    ensures s.after.rows == rows + if s.result.Row? then 1 else 0
  {
    if k + 1 == |lines| then
      RowStep(Failed(ReadFailed(line + 1)), Place(k + 1, rows, line + 1))
    else if !Terminated(lines[k] + lines[k + 1]) then
      RowStep(Failed(Unterminated(line + 1)), Place(k + 2, rows, line + 1))
    else
      UserSpec(lines[k] + lines[k + 1], Place(k + 2, rows, line + 1))
  }

  /** The end of Row once a terminated row is in hand. */
  function UserSpec(row: string, p: Place): (s: RowStep)
    requires Terminated(row)
    ensures s.after.pos == p.pos && s.after.line == p.line
    ensures s.after.rows == p.rows + if s.result.Row? then 1 else 0
    ensures !s.result.EOF? && !(s.result.Failed? && s.result.err.ReadFailed?)
  {
    var parts := Split(Body(row), Separator);
    if |parts| < 5 then RowStep(Failed(TooFewColumns(|parts|, p.line)), p)
    else
      var f := Columns(parts);
      RowStep(Row(User(f[0], f[1], f[2], f[3], f[4])), Place(p.pos, p.rows + 1, p.line))
  }

  /** The five columns of a user, in the order of the dump. */
  function Fields(u: User): (f: seq<string>)
    ensures |f| == 5
  {
    [u.uid, u.username, u.email, u.password, u.hint]
  }

  /** Row read to the end of the input: no non-blank line was left, or the line to
      join with was missing. */
  predicate Exhausted(lines: seq<string>, p: Place)
    requires p.pos <= |lines|
  {
    var k := NextNonBlank(lines, p.pos);
    k == |lines| || (k + 1 == |lines| && !Terminated(lines[k]) && !IsTrailer(lines[k]))
  }

  /** Blank lines are skipped and Line counts every physical line consumed, plus the
      read attempt that met the end of the input; the scanner never moves back. */
  lemma RowCountsLines(lines: seq<string>, p: Place)
    requires p.pos <= |lines|
    ensures var s := RowSpec(lines, p);
      p.pos <= s.after.pos <= |lines|
      && (!Exhausted(lines, p) ==> s.after.pos > NextNonBlank(lines, p.pos))
      && (Exhausted(lines, p) ==> s.after.pos == |lines|)
      && s.after.line == p.line + (s.after.pos - p.pos) + (if Exhausted(lines, p) then 1 else 0)
  {
  }

  /** Rows grows by one for every User returned and stays put otherwise. */
  lemma RowCountsRows(lines: seq<string>, p: Place)
    requires p.pos <= |lines|
    ensures RowSpec(lines, p).after.rows == p.rows + if RowSpec(lines, p).result.Row? then 1 else 0
  {
  }

  /** Row ends with io.EOF exactly when the input holds no further non-blank line or
      the next one is a trailer whose count is Rows: a dump cut short before its
      trailer ends as quietly as a complete one. */
  lemma RowEndOfInput(lines: seq<string>, p: Place)
    requires p.pos <= |lines|
    ensures var k := NextNonBlank(lines, p.pos);
      RowSpec(lines, p).result == EOF <==>
        (k == |lines| || (IsTrailer(lines[k]) && TrailerCount(lines[k]) == Parsed(p.rows)))
  {
  }

  /** The trailer the dump itself ends with, "N rows selected." for the N rows read,
      ends the scan with io.EOF. */
  lemma RowOwnTrailer(lines: seq<string>, p: Place)
    requires p.pos <= |lines| && -IntBound <= p.rows < IntBound
    requires NextNonBlank(lines, p.pos) < |lines|
    requires lines[NextNonBlank(lines, p.pos)] == Itoa(p.rows) + TrailerSuffix
    ensures RowSpec(lines, p).result == EOF
  {
    var t := lines[NextNonBlank(lines, p.pos)];
    assert t[|t| - |TrailerSuffix|..] == TrailerSuffix;
    assert t[|t| - 1] == '.';
    assert t[..|t| - |TrailerSuffix|] == Itoa(p.rows);
    AtoiItoa(p.rows);
  }

  /** A line that is neither a record nor a trailer is joined with exactly one more line;
      if that does not end the row the error names the second line. */
  lemma RowJoins(lines: seq<string>, p: Place)
    requires p.pos <= |lines|
    requires var k := NextNonBlank(lines, p.pos);
      k < |lines| && !Terminated(lines[k]) && !IsTrailer(lines[k])
    ensures var k := NextNonBlank(lines, p.pos);
      k + 1 == |lines| ==> RowSpec(lines, p).result == Failed(ReadFailed(p.line + (k - p.pos) + 2))
    ensures var k := NextNonBlank(lines, p.pos);
      k + 1 < |lines| ==> RowSpec(lines, p).after.pos == k + 2
    ensures var k := NextNonBlank(lines, p.pos);
      k + 1 < |lines| && !Terminated(lines[k] + lines[k + 1]) ==>
        RowSpec(lines, p).result == Failed(Unterminated(p.line + (k - p.pos) + 2))
  {
    RowJoinsAtEnd(lines, p);
    RowJoinsNext(lines, p);
    RowJoinsUnterminated(lines, p);
  }

  lemma RowJoinsAtEnd(lines: seq<string>, p: Place)
    requires p.pos <= |lines|
    requires var k := NextNonBlank(lines, p.pos);
      k < |lines| && !Terminated(lines[k]) && !IsTrailer(lines[k])
    ensures var k := NextNonBlank(lines, p.pos);
      k + 1 == |lines| ==> RowSpec(lines, p).result == Failed(ReadFailed(p.line + (k - p.pos) + 2))
  {
    var k := NextNonBlank(lines, p.pos);
    RowIsJoin(lines, p);
    JoinRowOutcome(lines, k, p.rows, p.line + (k - p.pos) + 1);
  }

  lemma RowJoinsNext(lines: seq<string>, p: Place)
    requires p.pos <= |lines|
    requires var k := NextNonBlank(lines, p.pos);
      k < |lines| && !Terminated(lines[k]) && !IsTrailer(lines[k])
    ensures var k := NextNonBlank(lines, p.pos);
      k + 1 < |lines| ==> RowSpec(lines, p).after.pos == k + 2
  {
    var k := NextNonBlank(lines, p.pos);
    RowIsJoin(lines, p);
    JoinRowOutcome(lines, k, p.rows, p.line + (k - p.pos) + 1);
  }

  lemma RowJoinsUnterminated(lines: seq<string>, p: Place)
    requires p.pos <= |lines|
    requires var k := NextNonBlank(lines, p.pos);
      k < |lines| && !Terminated(lines[k]) && !IsTrailer(lines[k])
    ensures var k := NextNonBlank(lines, p.pos);
      k + 1 < |lines| && !Terminated(lines[k] + lines[k + 1]) ==>
        RowSpec(lines, p).result == Failed(Unterminated(p.line + (k - p.pos) + 2))
  {
    var k := NextNonBlank(lines, p.pos);
    RowIsJoin(lines, p);
    JoinRowOutcome(lines, k, p.rows, p.line + (k - p.pos) + 1);
  }

  /** A row that is neither a trailer nor terminated is read by joining it to the next line. */
  lemma RowIsJoin(lines: seq<string>, p: Place)
    requires p.pos <= |lines|
    requires var k := NextNonBlank(lines, p.pos);
      k < |lines| && !Terminated(lines[k]) && !IsTrailer(lines[k])
    ensures var k := NextNonBlank(lines, p.pos);
      RowSpec(lines, p) == JoinRowSpec(lines, k, p.rows, p.line + (k - p.pos) + 1)
  {
    var k := NextNonBlank(lines, p.pos);
    var line := p.line + (k - p.pos) + 1;
    assert k != |lines| && !IsTrailer(lines[k]) && !Terminated(lines[k]);
    assert RowSpec(lines, p) == JoinRowSpec(lines, k, p.rows, line);
  }

  /** The three ways a row continued on the next line ends. */
  lemma JoinRowOutcome(lines: seq<string>, k: nat, rows: int, line: int)
    requires k < |lines| && !Terminated(lines[k])
    ensures var s := JoinRowSpec(lines, k, rows, line);
      (k + 1 == |lines| ==> s.result == Failed(ReadFailed(line + 1)))
      && (k + 1 < |lines| ==> s.after.pos == k + 2)
      && (k + 1 < |lines| && !Terminated(lines[k] + lines[k + 1]) ==>
            s.result == Failed(Unterminated(line + 1)))
  {
    if k + 1 < |lines| && Terminated(lines[k] + lines[k + 1]) {
      assert JoinRowSpec(lines, k, rows, line) == UserSpec(lines[k] + lines[k + 1], Place(k + 2, rows, line + 1));
    }
  }

  /** A User's fields, joined with the separator and followed by "|--", give back the
      row read, and none but the hint holds the separator. */
  lemma RowUserShape(lines: seq<string>, p: Place)
    requires p.pos <= |lines|
    requires RowSpec(lines, p).result.Row?
    ensures var k := NextNonBlank(lines, p.pos);
      var s := RowSpec(lines, p);
      var f := Fields(s.result.user);
      k < s.after.pos <= k + 2
      && (forall j :: 0 <= j < 4 ==> !Contains(f[j], Separator))
      && Join(f, Separator) + Terminator == Adobe.RowRead(lines, k, s.after.pos)
  {
    ReadersAgree(lines, p);
    Adobe.ReadRecordShape(lines, Adobe.Cursor(p.pos, p.rows, p.line));
  }

  /** A terminated row splits into fewer than five pieces exactly when Row reports
      "only N columns". */
  lemma RowTooFewColumns(lines: seq<string>, p: Place)
    requires p.pos <= |lines|
    requires var k := NextNonBlank(lines, p.pos);
      k < |lines| && Terminated(lines[k])
    ensures var k := NextNonBlank(lines, p.pos);
      var n := |Split(Body(lines[k]), Separator)|;
      (n < 5 <==> RowSpec(lines, p).result.Failed?)
      && (n < 5 ==> RowSpec(lines, p).result.err == TooFewColumns(n, p.line + (k - p.pos) + 1))
  {
  }

  /** A row joined from two lines fails the same way, the error naming the second line. */
  lemma RowJoinedTooFewColumns(lines: seq<string>, p: Place)
    requires p.pos <= |lines|
    requires var k := NextNonBlank(lines, p.pos);
      k + 1 < |lines| && !Terminated(lines[k]) && !IsTrailer(lines[k]) && Terminated(lines[k] + lines[k + 1])
    ensures var k := NextNonBlank(lines, p.pos);
      var n := |Split(Body(lines[k] + lines[k + 1]), Separator)|;
      (n < 5 <==> RowSpec(lines, p).result.Failed?)
      && (n < 5 ==> RowSpec(lines, p).result.err == TooFewColumns(n, p.line + (k - p.pos) + 2))
  {
    var k := NextNonBlank(lines, p.pos);
    var line := p.line + (k - p.pos) + 1;
    RowIsJoin(lines, p);
    assert JoinRowSpec(lines, k, p.rows, line) == UserSpec(lines[k] + lines[k + 1], Place(k + 2, p.rows, line + 1));
  }

  /** From the same place, the two readers of the dump return the same records and
      move to the same place; they differ only in how they report errors and the end
      of the input. */
  lemma ReadersAgree(lines: seq<string>, p: Place)
    requires p.pos <= |lines|
    ensures var s := RowSpec(lines, p);
      var t := Adobe.ReadSpec(lines, Adobe.Cursor(p.pos, p.rows, p.line));
      (s.result.Row? <==> t.result.Record?)
      && (s.result.Row? ==> Fields(s.result.user) == t.result.fields)
      && s.after == Place(t.after.pos, t.after.record, t.after.line)
  {
    var k := NextNonBlank(lines, p.pos);
    var line := p.line + (k - p.pos) + 1;
    if k == |lines| {
    } else if IsTrailer(lines[k]) {
    } else if Terminated(lines[k]) {
      UserAgrees(lines[k], Place(k + 1, p.rows, line));
    } else if k + 1 < |lines| && Terminated(lines[k] + lines[k + 1]) {
      UserAgrees(lines[k] + lines[k + 1], Place(k + 2, p.rows, line + 1));
    }
  }

  lemma UserAgrees(row: string, p: Place)
    requires Terminated(row)
    ensures var s := UserSpec(row, p);
      var t := Adobe.RecordSpec(row, Adobe.Cursor(p.pos, p.rows, p.line));
      (s.result.Row? <==> t.result.Record?)
      && (s.result.Row? ==> Fields(s.result.user) == t.result.fields)
      && s.after == Place(t.after.pos, t.after.record, t.after.line)
  {
    var parts := Split(Body(row), Separator);
    if |parts| >= 5 {
      var f := Columns(parts);
      assert Fields(User(f[0], f[1], f[2], f[3], f[4])) == f;
    }
  }

  // ---------------------------------------------------------------------
  // The scanner

  class RowScanner {
    const lines: seq<string>
    var pos: nat
    var rows: int
    var line: int

    ghost predicate Valid()
      reads this
    {
      pos <= |lines|
    }

    function State(): Place
      reads this
    {
      Place(pos, rows, line)
    }

    /** NewRowScanner. */
    constructor (input: seq<string>)
      ensures Valid() && lines == input
      ensures pos == 0 && rows == 0 && line == 0
    {
      lines := input;
      pos := 0;
      rows := 0;
      line := 0;
    }

    /** Scan one row. */
    method Row() returns (r: RowResult)
      requires Valid()
      modifies this
      ensures Valid()
      ensures RowStep(r, State()) == RowSpec(lines, old(State()))
    {
      ghost var k := NextNonBlank(lines, pos);
      var l := "";
      while l == ""
        invariant old(pos) <= pos <= |lines|
        invariant line == old(line) + (pos - old(pos)) && rows == old(rows)
        invariant l == "" ==> pos <= k
        invariant l != "" ==> pos == k + 1 && k < |lines| && l == lines[k]
        decreases |lines| - pos
      {
        line := line + 1;
        if pos == |lines| {
          return EOF;
        }
        l := lines[pos];
        pos := pos + 1;
      }

      if !HasSuffix(l, Terminator) {
        if HasSuffix(l, TrailerSuffix) {
          r := RowCount(l);
          return;
        }

        line := line + 1;
        if pos == |lines| {
          return Failed(ReadFailed(line));
        }
        l := l + lines[pos];
        pos := pos + 1;
        if !HasSuffix(l, Terminator) {
          return Failed(Unterminated(line));
        }
      }
      r := RowUser(l);
    }

    /** The trailer branch of Row: the count against Rows. */
    method RowCount(l: string) returns (r: RowResult)
      requires IsTrailer(l)
      ensures RowStep(r, State()) == CountSpec(l, State())
    {
      var count := l[..|l| - |TrailerSuffix|];
      var n := Atoi(count);
      if !n.Parsed? {
        return Failed(CountParse(count, n.SyntaxError?));
      }
      if n.value != rows {
        return Failed(RowsMismatch(n.value, rows));
      }
      return EOF;
    }

    /** The last step of Row: the row split into the fields of a User. */
    method RowUser(l: string) returns (r: RowResult)
      requires Terminated(l)
      modifies this
      ensures pos == old(pos) && line == old(line)
      ensures RowStep(r, State()) == UserSpec(l, old(State()))
    {
      var row := Split(l[..|l| - |Terminator|], Separator);
      if |row| < 5 {
        return Failed(TooFewColumns(|row|, line));
      }
      if |row| > 5 {
        row := row[4 := Join(row[4..], Separator)];
        row := row[..5];
      }
      rows := rows + 1;
      return RowResult.Row(User(row[0], row[1], row[2], row[3], row[4]));
    }
  }
}
