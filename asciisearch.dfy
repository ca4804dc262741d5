/** The printable-ASCII key enumerator of cmd/asciisearch.
 *
 *  A DES key whose eight bytes are printable ASCII characters with the parity
 *  bit cleared has, once its parity bits are dropped, eight 7-bit groups each
 *  in 16..63 (the characters ' '..'~' shifted right by one). searchASCIIKey
 *  fills the groups one level at a time, the level i being the bit position
 *  0, 7, ..., 49 of the group, and consults the cracker only when the last
 *  group is set. The cracker is a parameter (an oracle giving a verdict on a
 *  candidate); the global progress counter is the field of a Searcher.
 *
 *  The search is specified twice: by the functions Found, Tried and FoundKey,
 *  which follow the recursion of the search, and by the flat sequence of the
 *  candidates in the order the search tries them (LeavesFrom) together with
 *  the index of the first accepted one (FirstIn). SearchMeaning proves the two
 *  agree; the methods are proved against the first. AsciiKeySpace proves the
 *  flat sequence holds every printable key exactly once and nothing else. It is
 *  not in numerical order, since the lowest group changes slowest.
 */
module AsciiSearch {
  import opened KeyCodec

  /** unpackParity: the same spreading of a 56-bit key as IntersperseKey. */
  function UnpackParity(key56: bv64): (key64: bv64)
    ensures key64 == IntersperseKey(key56)
  {
    ((key56 & 0x7f) << 1) |
    ((key56 & (0x7f << 7)) << 2) |
    ((key56 & (0x7f << 14)) << 3) |
    ((key56 & (0x7f << 21)) << 4) |
    ((key56 & (0x7f << 28)) << 5) |
    ((key56 & (0x7f << 35)) << 6) |
    ((key56 & (0x7f << 42)) << 7) |
    ((key56 & (0x7f << 49)) << 8)
  }

  /** The cracker as searchASCIIKey consults it: a candidate key in, a verdict out. */
  type KeyCheck = bv64 -> bool

  /** The range of a group: the printable characters space to tilde, without their low bit. */
  const Lowest: bv64 := 0x20 >> 1
  const Highest: bv64 := 0x7e >> 1

  /** The bit positions of the groups; the last one, 49, is where the cracker is consulted. */
  predicate IsLevel(i: bv8) {
    i <= 49 && i % 7 == 0
  }

  /** The levels, listed. */
  lemma Levels(i: bv8)
    requires IsLevel(i)
    ensures i == 0 || i == 7 || i == 14 || i == 21 || i == 28 || i == 35 || i == 42 || i == 49
  {
  }

  lemma NextLevel(i: bv8)
    requires IsLevel(i) && i != 49
    ensures IsLevel(i + 7)
  {
  }

  // ---------------------------------------------------------------------
  // The search, following its recursion. Found, Tried and FoundKey cover the
  // group values b..Highest at level i below prefix; the functions ending in
  // Below cover the single group value b.

  /** Whether the search accepts a candidate once the group at level i has reached b. */
  function Found(check: KeyCheck, prefix: bv64, i: bv8, b: bv64): bool
    requires IsLevel(i) && Lowest <= b <= Highest + 1
    decreases 49 - i, 64 - b, 1
  {
    if b > Highest then false
    else FoundBelow(check, prefix, i, b) || Found(check, prefix, i, b + 1)
  }

  function FoundBelow(check: KeyCheck, prefix: bv64, i: bv8, b: bv64): bool
    requires IsLevel(i) && Lowest <= b <= Highest
    decreases 49 - i, 64 - b, 0
  {
    var k := prefix | (b << i);
    if i == 49 then check(k) else NextLevel(i); Found(check, k, i + 7, Lowest)
  }

  /** How many candidates the search rejects before it stops. */
  function Tried(check: KeyCheck, prefix: bv64, i: bv8, b: bv64): nat
    requires IsLevel(i) && Lowest <= b <= Highest + 1
    decreases 49 - i, 64 - b, 1
  {
    if b > Highest then 0
    else TriedBelow(check, prefix, i, b) +
         (if FoundBelow(check, prefix, i, b) then 0 else Tried(check, prefix, i, b + 1))
  }

  function TriedBelow(check: KeyCheck, prefix: bv64, i: bv8, b: bv64): nat
    requires IsLevel(i) && Lowest <= b <= Highest
    decreases 49 - i, 64 - b, 0
  {
    var k := prefix | (b << i);
    if i == 49 then (if check(k) then 0 else 1)
    else NextLevel(i); Tried(check, k, i + 7, Lowest)
  }

  /** The key the search returns: the accepted candidate, or 0. */
  function FoundKey(check: KeyCheck, prefix: bv64, i: bv8, b: bv64): bv64
    requires IsLevel(i) && Lowest <= b <= Highest + 1
    decreases 49 - i, 64 - b, 1
  {
    if b > Highest then 0
    else if FoundBelow(check, prefix, i, b) then FoundKeyBelow(check, prefix, i, b)
    else FoundKey(check, prefix, i, b + 1)
  }

  function FoundKeyBelow(check: KeyCheck, prefix: bv64, i: bv8, b: bv64): bv64
    requires IsLevel(i) && Lowest <= b <= Highest
    decreases 49 - i, 64 - b, 0
  {
    var k := prefix | (b << i);
    if i == 49 then k else NextLevel(i); FoundKey(check, k, i + 7, Lowest)
  }

  /** At the last level the candidate itself goes to the cracker. */
  lemma LeafStep(check: KeyCheck, prefix: bv64, b: bv64)
    requires Lowest <= b <= Highest
    ensures FoundBelow(check, prefix, 49, b) == check(prefix | (b << 49 as bv8))
    ensures TriedBelow(check, prefix, 49, b) == (if check(prefix | (b << 49 as bv8)) then 0 else 1)
    ensures FoundKeyBelow(check, prefix, 49, b) == prefix | (b << 49 as bv8)
  {
  }

  /** Above the last level the group value is placed and the next level is searched. */
  lemma FoundStep(check: KeyCheck, prefix: bv64, i: bv8, b: bv64)
    requires IsLevel(i) && Lowest <= b <= Highest && i != 49
    ensures IsLevel(i + 7)
    ensures FoundBelow(check, prefix, i, b) == Found(check, prefix | (b << i), i + 7, Lowest)
  {
    NextLevel(i);
  }

  lemma TriedStep(check: KeyCheck, prefix: bv64, i: bv8, b: bv64)
    requires IsLevel(i) && Lowest <= b <= Highest && i != 49
    ensures IsLevel(i + 7)
    ensures TriedBelow(check, prefix, i, b) == Tried(check, prefix | (b << i), i + 7, Lowest)
  {
    NextLevel(i);
  }

  lemma FoundKeyStep(check: KeyCheck, prefix: bv64, i: bv8, b: bv64)
    requires IsLevel(i) && Lowest <= b <= Highest && i != 49
    ensures IsLevel(i + 7)
    ensures FoundKeyBelow(check, prefix, i, b) == FoundKey(check, prefix | (b << i), i + 7, Lowest)
  {
    NextLevel(i);
  }

  // ---------------------------------------------------------------------
  // The candidates in the order they are tried

  /** The candidates the search hands to the cracker below prefix at level i, from the
      group value b on, in order. */
  function LeavesFrom(prefix: bv64, i: bv8, b: bv64): seq<bv64>
    requires IsLevel(i) && Lowest <= b <= Highest + 1
    decreases 49 - i, 64 - b, 1
  {
    if b > Highest then [] else Subtree(prefix, i, b) + LeavesFrom(prefix, i, b + 1)
  }

  /** The candidates once the group at level i is set to b. */
  function Subtree(prefix: bv64, i: bv8, b: bv64): seq<bv64>
    requires IsLevel(i) && Lowest <= b <= Highest
    decreases 49 - i, 64 - b, 0
  {
    var k := prefix | (b << i);
    if i == 49 then [k] else NextLevel(i); LeavesFrom(k, i + 7, Lowest)
  }

  lemma SubtreeLeaf(prefix: bv64, b: bv64)
    requires Lowest <= b <= Highest
    ensures Subtree(prefix, 49, b) == [prefix | (b << 49 as bv8)]
  {
  }

  lemma SubtreeStep(prefix: bv64, i: bv8, b: bv64)
    requires IsLevel(i) && Lowest <= b <= Highest && i != 49
    ensures IsLevel(i + 7)
    ensures Subtree(prefix, i, b) == LeavesFrom(prefix | (b << i), i + 7, Lowest)
  {
    NextLevel(i);
  }

  /** The index of the first candidate the cracker accepts, or |s| when it accepts none. */
  function FirstIn(check: KeyCheck, s: seq<bv64>): (n: nat)
    ensures n <= |s|
  {
    if s == [] then 0
    else if check(s[0]) then 0
    else 1 + FirstIn(check, s[1..])
  }

  /** Every candidate before FirstIn is rejected, and the one at FirstIn is accepted. */
  lemma {:induction false} FirstInMeaning(check: KeyCheck, s: seq<bv64>)
    ensures forall j :: 0 <= j < FirstIn(check, s) ==> !check(s[j])
    ensures FirstIn(check, s) < |s| ==> check(s[FirstIn(check, s)])
  {
    if s != [] && !check(s[0]) {
      FirstInMeaning(check, s[1..]);
    }
  }

  /** Scanning a + b: the first accepted candidate lies in a, or all of a is rejected and
      the scan goes on into b. */
  lemma {:induction false} FirstInAppend(check: KeyCheck, a: seq<bv64>, b: seq<bv64>)
    ensures FirstIn(check, a + b)
         == if FirstIn(check, a) < |a| then FirstIn(check, a) else |a| + FirstIn(check, b)
  {
    if a != [] {
      assert (a + b)[0] == a[0];
      assert (a + b)[1..] == a[1..] + b;
      FirstInAppend(check, a[1..], b);
    } else {
      assert a + b == b;
    }
  }

  /** The recursive description agrees with the flat one: the search rejects exactly the
      candidates before the first accepted one, stops with success iff there is one, and
      returns that one. */
  lemma {:induction false} SearchMeaning(check: KeyCheck, prefix: bv64, i: bv8, b: bv64)
    requires IsLevel(i) && Lowest <= b <= Highest + 1
    ensures Tried(check, prefix, i, b) == FirstIn(check, LeavesFrom(prefix, i, b))
    ensures Found(check, prefix, i, b) <==> Tried(check, prefix, i, b) < |LeavesFrom(prefix, i, b)|
    ensures Found(check, prefix, i, b) ==>
      FoundKey(check, prefix, i, b) == LeavesFrom(prefix, i, b)[Tried(check, prefix, i, b)]
    decreases 49 - i, 64 - b, 1
  {
    if b <= Highest {
      var sub, rest := Subtree(prefix, i, b), LeavesFrom(prefix, i, b + 1);
      SearchBelowMeaning(check, prefix, i, b);
      SearchMeaning(check, prefix, i, b + 1);
      FirstInAppend(check, sub, rest);
      assert LeavesFrom(prefix, i, b) == sub + rest;
    }
  }

  lemma {:induction false} SearchBelowMeaning(check: KeyCheck, prefix: bv64, i: bv8, b: bv64)
    requires IsLevel(i) && Lowest <= b <= Highest
    ensures TriedBelow(check, prefix, i, b) == FirstIn(check, Subtree(prefix, i, b))
    ensures FoundBelow(check, prefix, i, b) <==> TriedBelow(check, prefix, i, b) < |Subtree(prefix, i, b)|
    ensures FoundBelow(check, prefix, i, b) ==>
      FoundKeyBelow(check, prefix, i, b) == Subtree(prefix, i, b)[TriedBelow(check, prefix, i, b)]
    decreases 49 - i, 64 - b, 0
  {
    if i == 49 {
      LeafStep(check, prefix, b);
      SubtreeLeaf(prefix, b);
    } else {
      FoundStep(check, prefix, i, b);
      TriedStep(check, prefix, i, b);
      FoundKeyStep(check, prefix, i, b);
      SubtreeStep(prefix, i, b);
      SearchMeaning(check, prefix | (b << i), i + 7, Lowest);
    }
  }

  /** What a search of a whole level promises: a returned key is a candidate the cracker
      accepted, a failure means every candidate was rejected, and the rejected count is
      the number of candidates tried before the accepted one. */
  lemma SearchOutcome(check: KeyCheck, prefix: bv64, i: bv8)
    requires IsLevel(i)
    ensures Tried(check, prefix, i, Lowest) <= |LeavesFrom(prefix, i, Lowest)|
    ensures Found(check, prefix, i, Lowest) ==>
      check(FoundKey(check, prefix, i, Lowest)) && FoundKey(check, prefix, i, Lowest) in LeavesFrom(prefix, i, Lowest)
    ensures !Found(check, prefix, i, Lowest) ==>
      Tried(check, prefix, i, Lowest) == |LeavesFrom(prefix, i, Lowest)|
      && forall c :: c in LeavesFrom(prefix, i, Lowest) ==> !check(c)
    ensures forall j :: 0 <= j < Tried(check, prefix, i, Lowest) ==> !check(LeavesFrom(prefix, i, Lowest)[j])
  {
    SearchMeaning(check, prefix, i, Lowest);
    FirstInMeaning(check, LeavesFrom(prefix, i, Lowest));
  }

  // ---------------------------------------------------------------------
  // Every candidate is a printable key

  predicate GroupOk(c: bv64, j: bv64)
    requires j < 8
  {
    Lowest <= Septet(c, j) <= Highest
  }

  /** The groups below level i are in range and nothing is set from bit i up. */
  predicate PrefixOk(p: bv64, i: bv8) {
    i <= 56 && p >> i == 0
    && (i > 0 ==> GroupOk(p, 0)) && (i > 7 ==> GroupOk(p, 1))
    && (i > 14 ==> GroupOk(p, 2)) && (i > 21 ==> GroupOk(p, 3))
    && (i > 28 ==> GroupOk(p, 4)) && (i > 35 ==> GroupOk(p, 5))
    && (i > 42 ==> GroupOk(p, 6)) && (i > 49 ==> GroupOk(p, 7))
  }

  /** Placing a group value in range at level i extends a good prefix by one group. */
  lemma Place(p: bv64, i: bv8, b: bv64)
    requires IsLevel(i) && PrefixOk(p, i) && Lowest <= b <= Highest
    ensures PrefixOk(p | (b << i), i + 7)
  {
    if i == 0 {
    } else if i == 7 {
    } else if i == 14 {
    } else if i == 21 {
    } else if i == 28 {
    } else if i == 35 {
    } else if i == 42 {
    } else {
    }
  }

  /** Byte j of a 64-bit key, counting from the least significant. */
  function ByteOf(x: bv64, j: bv64): bv64
    requires j < 8
  {
    (x >> (8 * j)) & 0xFF
  }

  /** Every byte of the key is an even printable ASCII character. */
  ghost predicate PrintableKey(x: bv64) {
    forall j: bv64 :: j < 8 ==> ByteOf(x, j) % 2 == 0 && 0x20 <= ByteOf(x, j) <= 0x7E
  }

  lemma ByteOfSpread(x: bv64, j: bv64)
    requires j < 8 && x & ParityMask == 0
    ensures ByteOf(x, j) == KeyBits(x, j) << 1
  {
  }

  lemma GroupOkAt(c: bv64, j: bv64)
    requires PrefixOk(c, 56) && j < 8
    ensures GroupOk(c, j)
  {
  }

  /** A key whose eight groups are in range unpacks to eight even printable bytes. */
  lemma UnpackPrintable(c: bv64)
    requires PrefixOk(c, 56)
    ensures PrintableKey(UnpackParity(c))
  {
    forall j: bv64 | j < 8
      ensures ByteOf(IntersperseKey(c), j) % 2 == 0 && 0x20 <= ByteOf(IntersperseKey(c), j) <= 0x7E
    {
      GroupOkAt(c, j);
      IntersperseGroup(c, j);
      ByteOfSpread(IntersperseKey(c), j);
    }
  }

  lemma {:induction false} LeavesInRange(prefix: bv64, i: bv8, b: bv64)
    requires IsLevel(i) && Lowest <= b <= Highest + 1 && PrefixOk(prefix, i)
    ensures forall j :: 0 <= j < |LeavesFrom(prefix, i, b)| ==> PrefixOk(LeavesFrom(prefix, i, b)[j], 56)
    decreases 49 - i, 64 - b, 1
  {
    if b <= Highest {
      var sub, rest := Subtree(prefix, i, b), LeavesFrom(prefix, i, b + 1);
      SubtreeInRange(prefix, i, b);
      LeavesInRange(prefix, i, b + 1);
      assert LeavesFrom(prefix, i, b) == sub + rest;
      forall j | 0 <= j < |sub + rest|
        ensures PrefixOk((sub + rest)[j], 56)
      {
        if j >= |sub| {
          assert (sub + rest)[j] == rest[j - |sub|];
        }
      }
    }
  }

  lemma {:induction false} SubtreeInRange(prefix: bv64, i: bv8, b: bv64)
    requires IsLevel(i) && Lowest <= b <= Highest && PrefixOk(prefix, i)
    ensures forall j :: 0 <= j < |Subtree(prefix, i, b)| ==> PrefixOk(Subtree(prefix, i, b)[j], 56)
    decreases 49 - i, 64 - b, 0
  {
    Place(prefix, i, b);
    if i == 49 {
      SubtreeLeaf(prefix, b);
    } else {
      SubtreeStep(prefix, i, b);
      LeavesInRange(prefix | (b << i), i + 7, Lowest);
    }
  }

  /** The search started as main starts it, searchASCIIKey(c, 0, 0), only ever tries keys
      that unpack to eight even printable ASCII bytes. */
  lemma AsciiCandidates()
    ensures forall j :: 0 <= j < |LeavesFrom(0, 0, Lowest)| ==>
      PrintableKey(UnpackParity(LeavesFrom(0, 0, Lowest)[j]))
  {
    LeavesInRange(0, 0, Lowest);
    forall j | 0 <= j < |LeavesFrom(0, 0, Lowest)|
      ensures PrintableKey(UnpackParity(LeavesFrom(0, 0, Lowest)[j]))
    {
      UnpackPrintable(LeavesFrom(0, 0, Lowest)[j]);
    }
  }

  // ---------------------------------------------------------------------
  // Every printable key is a candidate, exactly once

  /** The bits of c below bit i. */
  function Below(c: bv64, i: bv8): bv64
    requires i <= 56
  {
    c & !(0xFFFF_FFFF_FFFF_FFFF << i)
  }

  /** The group of c at bit i. */
  function GroupAt(c: bv64, i: bv8): bv64
    requires i <= 56
  {
    (c >> i) & 0x7F
  }

  /** The bits of c below the next level are those below level i and the group at i. */
  lemma BelowNext(c: bv64, i: bv8)
    requires IsLevel(i)
    ensures Below(c, i + 7) == Below(c, i) | (GroupAt(c, i) << i)
  {
    Levels(i);
    if i == 0 {
    } else if i == 7 {
    } else if i == 14 {
    } else if i == 21 {
    } else if i == 28 {
    } else if i == 35 {
    } else if i == 42 {
    } else {
    }
  }

  /** Cutting c at the next level leaves what lies below level i alone. */
  lemma BelowNest(c: bv64, i: bv8)
    requires IsLevel(i)
    ensures Below(Below(c, i + 7), i) == Below(c, i)
  {
    Levels(i);
    if i == 0 {
    } else if i == 7 {
    } else if i == 14 {
    } else if i == 21 {
    } else if i == 28 {
    } else if i == 35 {
    } else if i == 42 {
    } else {
    }
  }

  /** Cutting c at the next level leaves the group at level i alone. */
  lemma GroupNest(c: bv64, i: bv8)
    requires IsLevel(i)
    ensures GroupAt(Below(c, i + 7), i) == GroupAt(c, i)
  {
    Levels(i);
    if i == 0 {
    } else if i == 7 {
    } else if i == 14 {
    } else if i == 21 {
    } else if i == 28 {
    } else if i == 35 {
    } else if i == 42 {
    } else {
    }
  }

  /** A group value placed above a prefix of i bits leaves the prefix readable. */
  lemma PlaceBelow(prefix: bv64, i: bv8, b: bv64)
    requires IsLevel(i) && prefix >> i == 0 && b <= 0x7F
    ensures Below(prefix | (b << i), i) == prefix
  {
    Levels(i);
    if i == 0 {
    } else if i == 7 {
    } else if i == 14 {
    } else if i == 21 {
    } else if i == 28 {
    } else if i == 35 {
    } else if i == 42 {
    } else {
    }
  }

  /** A group value placed above a prefix of i bits can be read back. */
  lemma PlaceGroup(prefix: bv64, i: bv8, b: bv64)
    requires IsLevel(i) && prefix >> i == 0 && b <= 0x7F
    ensures GroupAt(prefix | (b << i), i) == b
  {
    Levels(i);
    if i == 0 {
    } else if i == 7 {
    } else if i == 14 {
    } else if i == 21 {
    } else if i == 28 {
    } else if i == 35 {
    } else if i == 42 {
    } else {
    }
  }

  /** A group value placed above a prefix of i bits leaves nothing set from the next level up. */
  lemma PlaceBound(prefix: bv64, i: bv8, b: bv64)
    requires IsLevel(i) && prefix >> i == 0 && b <= 0x7F
    ensures (prefix | (b << i)) >> (i + 7) == 0
  {
    Levels(i);
    if i == 0 {
    } else if i == 7 {
    } else if i == 14 {
    } else if i == 21 {
    } else if i == 28 {
    } else if i == 35 {
    } else if i == 42 {
    } else {
    }
  }

  /** A key with all eight groups in range has a group in range at every level. */
  lemma LevelGroup(c: bv64, i: bv8)
    requires IsLevel(i) && PrefixOk(c, 56)
    ensures Lowest <= GroupAt(c, i) <= Highest
  {
    Levels(i);
    if i == 0 {
    } else if i == 7 {
    } else if i == 14 {
    } else if i == 21 {
    } else if i == 28 {
    } else if i == 35 {
    } else if i == 42 {
    } else {
    }
  }

  lemma BelowAll(c: bv64)
    requires c >> 56 == 0
    ensures Below(c, 56) == c
  {
  }

  /** Every group of c, read level by level, is in range. */
  ghost predicate LevelsOk(c: bv64) {
    forall i :: IsLevel(i) ==> Lowest <= GroupAt(c, i) <= Highest
  }

  /** Every key whose groups are all in range and that agrees with prefix below level i,
      and whose group at level i is at least b, is enumerated from b on. */
  lemma {:induction false} LeavesComplete(prefix: bv64, i: bv8, b: bv64, c: bv64)
    requires IsLevel(i) && Lowest <= b <= GroupAt(c, i)
    requires LevelsOk(c) && c >> 56 == 0 && Below(c, i) == prefix
    ensures c in LeavesFrom(prefix, i, b)
    decreases 49 - i, 64 - b, 1
  {
    assert LeavesFrom(prefix, i, b) == Subtree(prefix, i, b) + LeavesFrom(prefix, i, b + 1);
    if GroupAt(c, i) == b {
      SubtreeComplete(prefix, i, b, c);
    } else {
      LeavesComplete(prefix, i, b + 1, c);
    }
  }

  lemma {:induction false} SubtreeComplete(prefix: bv64, i: bv8, b: bv64, c: bv64)
    requires IsLevel(i) && Lowest <= b <= Highest && GroupAt(c, i) == b
    requires LevelsOk(c) && c >> 56 == 0 && Below(c, i) == prefix
    ensures c in Subtree(prefix, i, b)
    decreases 49 - i, 64 - b, 0
  {
    BelowNext(c, i);
    if i == 49 {
      SubtreeLeaf(prefix, b);
      BelowAll(c);
    } else {
      SubtreeStep(prefix, i, b);
      LeavesComplete(prefix | (b << i), i + 7, Lowest, c);
    }
  }

  /** Every candidate enumerated from b on agrees with prefix below level i and has a
      group of at least b at level i. */
  lemma {:induction false} LeavesShape(prefix: bv64, i: bv8, b: bv64)
    requires IsLevel(i) && Lowest <= b <= Highest + 1 && prefix >> i == 0
    ensures forall x :: x in LeavesFrom(prefix, i, b) ==> Below(x, i) == prefix && b <= GroupAt(x, i)
    decreases 49 - i, 64 - b, 1
  {
    if b <= Highest {
      SubtreeShape(prefix, i, b);
      LeavesShape(prefix, i, b + 1);
      assert LeavesFrom(prefix, i, b) == Subtree(prefix, i, b) + LeavesFrom(prefix, i, b + 1);
    }
  }

  lemma {:induction false} SubtreeShape(prefix: bv64, i: bv8, b: bv64)
    requires IsLevel(i) && Lowest <= b <= Highest && prefix >> i == 0
    ensures forall x :: x in Subtree(prefix, i, b) ==> Below(x, i) == prefix && GroupAt(x, i) == b
    decreases 49 - i, 64 - b, 0
  {
    var k := prefix | (b << i);
    PlaceBelow(prefix, i, b);
    PlaceGroup(prefix, i, b);
    if i == 49 {
      SubtreeLeaf(prefix, b);
    } else {
      PlaceBound(prefix, i, b);
      SubtreeStep(prefix, i, b);
      LeavesShape(k, i + 7, Lowest);
      forall x | x in Subtree(prefix, i, b)
        ensures Below(x, i) == prefix && GroupAt(x, i) == b
      {
        BelowNest(x, i);
        GroupNest(x, i);
      }
    }
  }

  /** Two sequences without repetitions and with no element in common concatenate to one
      without repetitions. */
  lemma AppendDistinct(s: seq<bv64>, r: seq<bv64>)
    requires forall j, k :: 0 <= j < k < |s| ==> s[j] != s[k]
    requires forall j, k :: 0 <= j < k < |r| ==> r[j] != r[k]
    requires forall x :: x in s ==> x !in r
    ensures forall j, k :: 0 <= j < k < |s + r| ==> (s + r)[j] != (s + r)[k]
  {
    forall j, k | 0 <= j < k < |s + r|
      ensures (s + r)[j] != (s + r)[k]
    {
      if k < |s| {
        assert (s + r)[j] == s[j] && (s + r)[k] == s[k];
      } else if j >= |s| {
        assert (s + r)[j] == r[j - |s|] && (s + r)[k] == r[k - |s|];
      } else {
        assert (s + r)[j] == s[j] && s[j] in s;
        assert (s + r)[k] == r[k - |s|] && r[k - |s|] in r;
      }
    }
  }

  /** No candidate is enumerated twice. */
  lemma {:induction false} LeavesDistinct(prefix: bv64, i: bv8, b: bv64)
    requires IsLevel(i) && Lowest <= b <= Highest + 1 && prefix >> i == 0
    ensures forall j, k :: 0 <= j < k < |LeavesFrom(prefix, i, b)| ==> LeavesFrom(prefix, i, b)[j] != LeavesFrom(prefix, i, b)[k]
    decreases 49 - i, 64 - b, 1
  {
    if b <= Highest {
      var s, r := Subtree(prefix, i, b), LeavesFrom(prefix, i, b + 1);
      SubtreeDistinct(prefix, i, b);
      LeavesDistinct(prefix, i, b + 1);
      SubtreeShape(prefix, i, b);
      LeavesShape(prefix, i, b + 1);
      assert LeavesFrom(prefix, i, b) == s + r;
      forall x | x in s
        ensures x !in r
      {
      }
      AppendDistinct(s, r);
    }
  }

  lemma {:induction false} SubtreeDistinct(prefix: bv64, i: bv8, b: bv64)
    requires IsLevel(i) && Lowest <= b <= Highest && prefix >> i == 0
    ensures forall j, k :: 0 <= j < k < |Subtree(prefix, i, b)| ==> Subtree(prefix, i, b)[j] != Subtree(prefix, i, b)[k]
    decreases 49 - i, 64 - b, 0
  {
    if i == 49 {
      SubtreeLeaf(prefix, b);
    } else {
      PlaceBound(prefix, i, b);
      SubtreeStep(prefix, i, b);
      LeavesDistinct(prefix | (b << i), i + 7, Lowest);
    }
  }

  /** A 56-bit key that unpacks to eight even printable bytes has every group in range. */
  lemma PrintableGroups(c: bv64)
    requires c < 1 << 56 && PrintableKey(UnpackParity(c))
    ensures PrefixOk(c, 56)
  {
    forall j: bv64 | j < 8
      ensures GroupOk(c, j)
    {
      IntersperseGroup(c, j);
      ByteOfSpread(IntersperseKey(c), j);
      assert 0x20 <= ByteOf(IntersperseKey(c), j) <= 0x7E;
    }
    assert GroupOk(c, 0) && GroupOk(c, 1) && GroupOk(c, 2) && GroupOk(c, 3);
    assert GroupOk(c, 4) && GroupOk(c, 5) && GroupOk(c, 6) && GroupOk(c, 7);
  }

  /** The search started as main starts it enumerates exactly the 56-bit keys that unpack
      to eight even printable ASCII bytes, each of them once. */
  lemma AsciiKeySpace()
    ensures forall c :: c in LeavesFrom(0, 0, Lowest) <==> c < 1 << 56 && PrintableKey(UnpackParity(c))
    ensures forall j, k :: 0 <= j < k < |LeavesFrom(0, 0, Lowest)| ==> LeavesFrom(0, 0, Lowest)[j] != LeavesFrom(0, 0, Lowest)[k]
  {
    AsciiCandidates();
    LeavesInRange(0, 0, Lowest);
    forall c | c < 1 << 56 && PrintableKey(UnpackParity(c))
      ensures c in LeavesFrom(0, 0, Lowest)
    {
      PrintableGroups(c);
      forall i | IsLevel(i)
        ensures Lowest <= GroupAt(c, i) <= Highest
      {
        LevelGroup(c, i);
      }
      LeavesComplete(0, 0, Lowest, c);
    }
    forall c | c in LeavesFrom(0, 0, Lowest)
      ensures c < 1 << 56
    {
      var j :| 0 <= j < |LeavesFrom(0, 0, Lowest)| && LeavesFrom(0, 0, Lowest)[j] == c;
    }
    LeavesDistinct(0, 0, Lowest);
  }

  /** When main's search fails, the cracker rejects every key that unpacks to printable
      ASCII; when it succeeds, the key it returns is such a key and is accepted. */
  lemma AsciiSearchComplete(check: KeyCheck)
    ensures !Found(check, 0, 0, Lowest) ==>
      forall c :: c < 1 << 56 && PrintableKey(UnpackParity(c)) ==> !check(c)
    ensures Found(check, 0, 0, Lowest) ==>
      check(FoundKey(check, 0, 0, Lowest)) && PrintableKey(UnpackParity(FoundKey(check, 0, 0, Lowest)))
  {
    SearchOutcome(check, 0, 0);
    AsciiKeySpace();
  }

  // ---------------------------------------------------------------------
  // The search itself

  /** The global count of rejected candidates. */
  class Searcher {
    var count: int

    constructor ()
      ensures count == 0
    {
      count := 0;
    }

    /** searchASCIIKey(c, keyPrefix, i): with SearchOutcome, the key returned is the first
        candidate the cracker accepts, (0, false) means all were rejected, and count grows
        by one per rejected candidate. */
    method SearchAsciiKey(check: KeyCheck, keyPrefix: bv64, i: bv8) returns (key: bv64, ok: bool)
      requires IsLevel(i)
      modifies this
      ensures ok == Found(check, keyPrefix, i, Lowest)
      ensures key == FoundKey(check, keyPrefix, i, Lowest)
      ensures count == old(count) + Tried(check, keyPrefix, i, Lowest)
      decreases 49 - i, 1
    {
      var b := Lowest;
      while b <= Highest
        invariant Lowest <= b <= Highest + 1
        invariant Found(check, keyPrefix, i, Lowest) == Found(check, keyPrefix, i, b)
        invariant FoundKey(check, keyPrefix, i, Lowest) == FoundKey(check, keyPrefix, i, b)
        invariant Tried(check, keyPrefix, i, Lowest) == count - old(count) + Tried(check, keyPrefix, i, b)
        decreases 64 - b
      {
        var found, accepted := SearchGroup(check, keyPrefix, i, b);
        if accepted {
          return found, true;
        }
        b := b + 1;
      }
      return 0, false;
    }

    /** One pass of the loop of searchASCIIKey: the group at level i set to b. */
    method SearchGroup(check: KeyCheck, keyPrefix: bv64, i: bv8, b: bv64) returns (key: bv64, ok: bool)
      requires IsLevel(i) && Lowest <= b <= Highest
      modifies this
      ensures ok == FoundBelow(check, keyPrefix, i, b)
      ensures ok ==> key == FoundKeyBelow(check, keyPrefix, i, b)
      ensures count == old(count) + TriedBelow(check, keyPrefix, i, b)
      decreases 49 - i, 0
    {
      var k := keyPrefix | (b << i);
      if i == 49 {
        LeafStep(check, keyPrefix, b);
        key, ok := k, check(k);
        if !ok {
          count := count + 1;
        }
      } else {
        FoundStep(check, keyPrefix, i, b);
        TriedStep(check, keyPrefix, i, b);
        FoundKeyStep(check, keyPrefix, i, b);
        key, ok := SearchAsciiKey(check, k, i + 7);
      }
    }
  }
}
