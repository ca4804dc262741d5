/** The layout of the credential dump both readers parse. The dump is a text of
 *  lines; a record is one line, or two lines when the first one is broken,
 *  ending in "|--", with its five columns separated by "-|-"; the dump ends
 *  with a line "N rows selected." giving the number of records.
 *
 *  The buffered reader is modelled as the sequence of the '\n'-terminated lines
 *  of the input (without their '\n') and a cursor. A final fragment with no
 *  '\n' is read by bufio's ReadString('\n') together with io.EOF, and both
 *  readers then drop it, so it is left out of the sequence.
 */
module Dump {
  import opened Text

  const Terminator: string := "|--"
  const Separator: string := "-|-"
  const TrailerSuffix: string := " rows selected."

  /** The first non-blank line at or after pos, or |lines| when there is none. */
  function NextNonBlank(lines: seq<string>, pos: nat): (k: nat)
    requires pos <= |lines|
    ensures pos <= k <= |lines|
    ensures forall j :: pos <= j < k ==> lines[j] == ""
    ensures k < |lines| ==> lines[k] != ""
    decreases |lines| - pos
  {
    if pos == |lines| || lines[pos] != "" then pos else NextNonBlank(lines, pos + 1)
  }

  /** A line that ends a record. */
  predicate Terminated(line: string) {
    HasSuffix(line, Terminator)
  }

  /** A trailer line: not a record, ending in " rows selected.". */
  predicate IsTrailer(line: string) {
    !Terminated(line) && HasSuffix(line, TrailerSuffix)
  }

  /** The count a trailer line states, as strconv.Atoi reads it. */
  function TrailerCount(line: string): AtoiResult
    requires IsTrailer(line)
  {
    Atoi(line[..|line| - |TrailerSuffix|])
  }

  /** The line of a record without its terminator. */
  function Body(line: string): (body: string)
    requires Terminated(line)
    ensures body + Terminator == line
  {
    line[..|line| - |Terminator|]
  }

  /** The columns of a record: the pieces of the body between separators, with any
      pieces past the fifth joined back into the fifth (a hint that contains the
      separator). */
  function Columns(parts: seq<string>): (fields: seq<string>)
    requires |parts| >= 5
    ensures |fields| == 5
  {
    if |parts| > 5 then parts[4 := Join(parts[4..], Separator)][..5] else parts
  }

  /** A record line split into columns: exactly five, the first four free of the
      separator, and joining them with the separator gives back the body. */
  lemma ColumnsOfBody(body: string)
    requires |Split(body, Separator)| >= 5
    ensures var fields := Columns(Split(body, Separator));
      (forall k :: 0 <= k < 4 ==> !Contains(fields[k], Separator))
      && Join(fields, Separator) == body
  {
    var parts := Split(body, Separator);
    SplitPiecesFree(body, Separator);
    JoinSplit(body, Separator);
    ColumnsJoin(parts);
  }

  lemma ColumnsJoin(parts: seq<string>)
    requires |parts| >= 5
    ensures Columns(parts)[..4] == parts[..4]
    ensures Join(Columns(parts), Separator) == Join(parts, Separator)
  {
    if |parts| > 5 {
      var fields := Columns(parts);
      assert fields == parts[..4] + [Join(parts[4..], Separator)];
      JoinAppend(parts[..4], [Join(parts[4..], Separator)], Separator);
      JoinAppend(parts[..4], parts[4..], Separator);
      assert parts[..4] + parts[4..] == parts;
    }
  }
}
