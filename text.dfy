/** The pieces of Go's strings and strconv packages the dump readers use:
 *  suffix tests, strings.Split and strings.Join on a non-empty separator,
 *  decimal formatting (fmt's %d) and strconv.Atoi on a 64-bit int.
 */
module Text {

  datatype Option<T> = None | Some(value: T)

  predicate HasSuffix(s: string, suffix: string) {
    |suffix| <= |s| && s[|s| - |suffix|..] == suffix
  }

  /** sep occurs in s at index i. */
  predicate OccursAt(s: string, sep: string, i: nat) {
    i + |sep| <= |s| && s[i..i + |sep|] == sep
  }

  ghost predicate Contains(s: string, sep: string) {
    exists i: nat :: OccursAt(s, sep, i)
  }

  /** strings.Index from position i on: the first occurrence at or after i. */
  function FindFrom(s: string, sep: string, i: nat): (r: Option<nat>)
    requires i <= |s|
    ensures r.Some? ==> i <= r.value && OccursAt(s, sep, r.value)
    ensures r.Some? ==> forall j: nat :: i <= j < r.value ==> !OccursAt(s, sep, j)
    ensures r.None? ==> forall j: nat :: i <= j ==> !OccursAt(s, sep, j)
    decreases |s| - i
  {
    if i + |sep| > |s| then None
    else if s[i..i + |sep|] == sep then Some(i)
    else if i == |s| then None
    else FindFrom(s, sep, i + 1)
  }

  /** strings.Split(s, sep) for a non-empty sep: the pieces between the occurrences of
      sep found left to right without overlap. */
  function Split(s: string, sep: string): (parts: seq<string>)
    requires sep != ""
    ensures |parts| >= 1
    decreases |s|
  {
    match FindFrom(s, sep, 0)
    case None => [s]
    case Some(i) => [s[..i]] + Split(s[i + |sep|..], sep)
  }

  /** strings.Join. */
  function Join(parts: seq<string>, sep: string): string {
    if |parts| == 0 then ""
    else if |parts| == 1 then parts[0]
    else parts[0] + sep + Join(parts[1..], sep)
  }

  /** Joining the pieces with the separator gives back the string. */
  lemma {:induction false} JoinSplit(s: string, sep: string)
    requires sep != ""
    ensures Join(Split(s, sep), sep) == s
    decreases |s|
  {
    var r := FindFrom(s, sep, 0);
    if r.Some? {
      var i := r.value;
      var head, rest := s[..i], s[i + |sep|..];
      JoinSplit(rest, sep);
      JoinCons(head, Split(rest, sep), sep);
      Around(s, i, sep);
    }
  }

  lemma JoinCons(head: string, tail: seq<string>, sep: string)
    requires |tail| >= 1
    ensures Join([head] + tail, sep) == head + sep + Join(tail, sep)
  {
    assert ([head] + tail)[1..] == tail;
  }

  lemma Around(s: string, i: nat, sep: string)
    requires OccursAt(s, sep, i)
    ensures s == s[..i] + sep + s[i + |sep|..]
  {
    assert s == s[..i] + s[i..i + |sep|] + s[i + |sep|..];
  }

  /** Joining two non-empty runs of pieces puts one separator between them. */
  lemma {:induction false} JoinAppend(a: seq<string>, b: seq<string>, sep: string)
    requires |a| >= 1 && |b| >= 1
    ensures Join(a + b, sep) == Join(a, sep) + sep + Join(b, sep)
    decreases |a|
  {
    if |a| > 1 {
      JoinAppend(a[1..], b, sep);
      assert (a + b)[1..] == a[1..] + b;
      assert (a + b)[0] == a[0];
    } else {
      assert (a + b)[1..] == b;
    }
  }

  /** No piece contains the separator. */
  lemma {:induction false} SplitPiecesFree(s: string, sep: string)
    requires sep != ""
    ensures forall k :: 0 <= k < |Split(s, sep)| ==> !Contains(Split(s, sep)[k], sep)
    decreases |s|
  {
    match FindFrom(s, sep, 0)
    case None =>
      forall j: nat ensures !OccursAt(s, sep, j) {
        assert 0 <= j;
      }
    case Some(i) =>
      var rest := s[i + |sep|..];
      SplitPiecesFree(rest, sep);
      var head := s[..i];
      forall j: nat ensures !OccursAt(head, sep, j) {
        if OccursAt(head, sep, j) {
          assert head[j..j + |sep|] == s[j..j + |sep|];
          assert OccursAt(s, sep, j);
        }
      }
      var tail := Split(rest, sep);
      assert Split(s, sep) == [head] + tail;
      forall k | 0 <= k < |[head] + tail|
        ensures !Contains(([head] + tail)[k], sep)
      {
        if k > 0 {
          assert ([head] + tail)[k] == tail[k - 1];
        }
      }
  }

  // ---------------------------------------------------------------------
  // Decimal numbers

  const MaxUint64: int := 0xFFFF_FFFF_FFFF_FFFF
  /** The bound of a 64-bit int: ints lie in -IntBound .. IntBound - 1. */
  const IntBound: int := 0x8000_0000_0000_0000
  /** The smallest accumulator for which n*10 overflows a uint64. */
  const Cutoff: int := MaxUint64 / 10 + 1

  predicate IsDigit(c: char) {
    '0' <= c <= '9'
  }

  function DigitValue(c: char): (d: nat)
    requires IsDigit(c)
    ensures d < 10
  {
    c as int - '0' as int
  }

  function DigitChar(d: nat): (c: char)
    requires d < 10
    ensures IsDigit(c) && DigitValue(c) == d
  {
    ('0' as int + d) as char
  }

  predicate AllDigits(s: string) {
    forall k :: 0 <= k < |s| ==> IsDigit(s[k])
  }

  /** The value of the digits s read left to right after the digits already worth acc. */
  function Fold(acc: nat, s: string): nat
    requires AllDigits(s)
    decreases |s|
  {
    if s == [] then acc else Fold(acc * 10 + DigitValue(s[0]), s[1..])
  }

  /** The decimal digits of m, most significant first, without leading zeros. */
  function Digits(m: nat): (s: string)
    ensures s != [] && AllDigits(s)
  {
    if m < 10 then [DigitChar(m)] else Digits(m / 10) + [DigitChar(m % 10)]
  }

  /** fmt's %d of an int. */
  function Itoa(n: int): string {
    if n < 0 then "-" + Digits(-n) else Digits(n)
  }

  datatype AtoiResult = Parsed(value: int) | SyntaxError | RangeError

  /** The digit loop of strconv.ParseUint in base 10 from the accumulator n: a non-digit
      is a syntax error, and an overflow of the uint64 accumulator stops the scan with a
      range error at once, whatever follows. */
  function ScanUint(s: string, n: nat): AtoiResult
    requires n <= MaxUint64
  {
    if s == [] then Parsed(n)
    else if !IsDigit(s[0]) then SyntaxError
    else if n >= Cutoff then RangeError
    else if n * 10 + DigitValue(s[0]) > MaxUint64 then RangeError
    else ScanUint(s[1..], n * 10 + DigitValue(s[0]))
  }

  /** strconv.Atoi on a 64-bit platform: an optional sign, then at least one decimal
      digit, with a value in the range of int. */
  function Atoi(s: string): AtoiResult {
    if s == [] then SyntaxError
    else
      var neg := s[0] == '-';
      var digits := if s[0] == '-' || s[0] == '+' then s[1..] else s;
      if digits == [] then SyntaxError
      else
        match ScanUint(digits, 0)
        case Parsed(u) =>
          if !neg && u >= IntBound then RangeError
          else if neg && u > IntBound then RangeError
          else Parsed(if neg then -u else u)
        case other => other
  }

  lemma {:induction false} FoldGrows(acc: nat, s: string)
    requires AllDigits(s)
    ensures Fold(acc, s) >= acc
    ensures s != [] ==> Fold(acc, s) >= acc * 10 + DigitValue(s[0])
    decreases |s|
  {
    if s != [] {
      FoldGrows(acc * 10 + DigitValue(s[0]), s[1..]);
    }
  }

  lemma {:induction false} FoldSnoc(acc: nat, s: string, c: char)
    requires AllDigits(s) && IsDigit(c)
    ensures AllDigits(s + [c])
    ensures Fold(acc, s + [c]) == Fold(acc, s) * 10 + DigitValue(c)
    decreases |s|
  {
    if s != [] {
      assert (s + [c])[0] == s[0];
      assert (s + [c])[1..] == s[1..] + [c];
      FoldSnoc(acc * 10 + DigitValue(s[0]), s[1..], c);
    }
  }

  /** The digits of m are worth m. */
  lemma {:induction false} DigitsValue(m: nat)
    ensures Fold(0, Digits(m)) == m
  {
    if m >= 10 {
      DigitsValue(m / 10);
      FoldSnoc(0, Digits(m / 10), DigitChar(m % 10));
    }
  }

  /** Without overflow the digit loop computes the value of the digits. */
  lemma {:induction false} ScanFold(s: string, n: nat)
    requires n <= MaxUint64 && AllDigits(s) && Fold(n, s) <= MaxUint64
    ensures ScanUint(s, n) == Parsed(Fold(n, s))
    decreases |s|
  {
    FoldGrows(n, s);
    if s != [] {
      var n1 := n * 10 + DigitValue(s[0]);
      FoldGrows(n1, s[1..]);
      ScanFold(s[1..], n1);
    }
  }

  /** Whatever the digit loop accepts is all digits, and its value. */
  lemma {:induction false} ScanSound(s: string, n: nat)
    requires n <= MaxUint64 && ScanUint(s, n).Parsed?
    ensures AllDigits(s) && ScanUint(s, n).value == Fold(n, s)
    decreases |s|
  {
    if s != [] {
      ScanSound(s[1..], n * 10 + DigitValue(s[0]));
    }
  }

  /** Atoi parses back what %d prints, for every int. */
  lemma AtoiItoa(n: int)
    requires -IntBound <= n < IntBound
    ensures Atoi(Itoa(n)) == Parsed(n)
  {
    var m := if n < 0 then -n else n;
    DigitsValue(m);
    ScanFold(Digits(m), 0);
    if n < 0 {
      assert Itoa(n)[1..] == Digits(m);
    } else {
      assert !IsDigit('-') && !IsDigit('+');
      assert IsDigit(Digits(m)[0]);
    }
  }

  /** %d is one-to-one. */
  lemma ItoaInjective(n: int, n': int)
    requires -IntBound <= n < IntBound && -IntBound <= n' < IntBound
    requires Itoa(n) == Itoa(n')
    ensures n == n'
  {
    AtoiItoa(n);
    AtoiItoa(n');
  }

  /** Atoi accepts only an optional sign followed by digits, and returns their value. */
  lemma AtoiSound(s: string)
    requires Atoi(s).Parsed?
    ensures s != []
    ensures var digits := if s[0] == '-' || s[0] == '+' then s[1..] else s;
      digits != [] && AllDigits(digits)
      && Atoi(s).value == if s[0] == '-' then 0 - Fold(0, digits) else Fold(0, digits)
  {
    var digits := if s[0] == '-' || s[0] == '+' then s[1..] else s;
    ScanSound(digits, 0);
  }
}
