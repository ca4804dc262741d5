/** The 56-bit/64-bit DES key codec of the brute-force search (bruteforce/key.go).
 *
 *  A DES key has eight bytes whose low bit is a parity bit that the key schedule
 *  discards. IntersperseKey spreads the seven-bit groups of a 56-bit counter over
 *  the high seven bits of each byte, leaving every parity bit zero; CollapseKey
 *  gathers them back.
 */
module KeyCodec {

  /** The low bit of every byte. */
  const ParityMask: bv64 := 0x0101_0101_0101_0101

  /** Seven-bit group j (0 <= j < 8) of a 56-bit key: bits 7j .. 7j+6. */
  function Septet(x: bv64, j: bv64): bv64
    requires j < 8
  {
    (x >> (7 * j)) & 0x7F
  }

  /** The seven key bits of byte j (0 <= j < 8) of a 64-bit key: bits 8j+1 .. 8j+7. */
  function KeyBits(x: bv64, j: bv64): bv64
    requires j < 8
  {
    (x >> (8 * j + 1)) & 0x7F
  }

  /** A 64-bit key is determined by its eight key-bit groups and its parity bits. */
  lemma KeyBitsDetermine(x: bv64, y: bv64)
    requires forall j: bv64 :: j < 8 ==> KeyBits(x, j) == KeyBits(y, j)
    requires x & ParityMask == y & ParityMask
    ensures x == y
  {
    assert KeyBits(x, 0) == KeyBits(y, 0) && KeyBits(x, 1) == KeyBits(y, 1);
    assert KeyBits(x, 2) == KeyBits(y, 2) && KeyBits(x, 3) == KeyBits(y, 3);
    assert KeyBits(x, 4) == KeyBits(y, 4) && KeyBits(x, 5) == KeyBits(y, 5);
    assert KeyBits(x, 6) == KeyBits(y, 6) && KeyBits(x, 7) == KeyBits(y, 7);
  }

  /** A value below 2^56 is determined by its eight seven-bit groups. */
  lemma SeptetsDetermine(x: bv64, y: bv64)
    requires x < 1 << 56 && y < 1 << 56
    requires forall j: bv64 :: j < 8 ==> Septet(x, j) == Septet(y, j)
    ensures x == y
  {
    assert Septet(x, 0) == Septet(y, 0) && Septet(x, 1) == Septet(y, 1);
    assert Septet(x, 2) == Septet(y, 2) && Septet(x, 3) == Septet(y, 3);
    assert Septet(x, 4) == Septet(y, 4) && Septet(x, 5) == Septet(y, 5);
    assert Septet(x, 6) == Septet(y, 6) && Septet(x, 7) == Septet(y, 7);
  }

  /** IntersperseKey: the parity bits of the result are zero (the groups move by IntersperseGroup). */
  function IntersperseKey(key56: bv64): (key64: bv64)
    ensures key64 & ParityMask == 0
  {
    ((key56 & 0x7F) << 1) |
    ((key56 & (0x7F << 7)) << 2) |
    ((key56 & (0x7F << 14)) << 3) |
    ((key56 & (0x7F << 21)) << 4) |
    ((key56 & (0x7F << 28)) << 5) |
    ((key56 & (0x7F << 35)) << 6) |
    ((key56 & (0x7F << 42)) << 7) |
    ((key56 & (0x7F << 49)) << 8)
  }

  /** CollapseKey: the result is below 2^56 (the groups move by CollapseGroup). */
  function CollapseKey(key64: bv64): (key56: bv64)
    ensures key56 < 1 << 56
  {
    ((key64 >> 1) & 0x7F) |
    ((key64 >> 2) & (0x7F << 7)) |
    ((key64 >> 3) & (0x7F << 14)) |
    ((key64 >> 4) & (0x7F << 21)) |
    ((key64 >> 5) & (0x7F << 28)) |
    ((key64 >> 6) & (0x7F << 35)) |
    ((key64 >> 7) & (0x7F << 42)) |
    ((key64 >> 8) & (0x7F << 49))
  }

  /** Group j of the counter becomes the seven key bits of byte j. */
  lemma IntersperseGroup(key56: bv64, j: bv64)
    requires j < 8
    ensures KeyBits(IntersperseKey(key56), j) == Septet(key56, j)
  {
  }

  /** The seven key bits of byte j become group j of the counter. */
  lemma CollapseGroup(key64: bv64, j: bv64)
    requires j < 8
    ensures Septet(CollapseKey(key64), j) == KeyBits(key64, j)
  {
  }

  /** CollapseKey inverts IntersperseKey on every 56-bit value. */
  lemma CollapseIntersperse(key56: bv64)
    requires key56 < 1 << 56
    ensures CollapseKey(IntersperseKey(key56)) == key56
  {
    var back := CollapseKey(IntersperseKey(key56));
    forall j: bv64 | j < 8
      ensures Septet(back, j) == Septet(key56, j)
    {
      IntersperseGroup(key56, j);
      CollapseGroup(IntersperseKey(key56), j);
    }
    SeptetsDetermine(back, key56);
  }

  /** IntersperseKey after CollapseKey clears exactly the parity bits. */
  lemma IntersperseCollapse(key64: bv64)
    ensures IntersperseKey(CollapseKey(key64)) == key64 & !ParityMask
  {
    var back := IntersperseKey(CollapseKey(key64));
    forall j: bv64 | j < 8
      ensures KeyBits(back, j) == KeyBits(key64 & !ParityMask, j)
    {
      IntersperseGroup(CollapseKey(key64), j);
      CollapseGroup(key64, j);
    }
    KeyBitsDetermine(back, key64 & !ParityMask);
  }

  /** The parity bits of a 64-bit key do not reach CollapseKey. */
  lemma CollapseIgnoresParity(key64: bv64)
    ensures CollapseKey(key64) == CollapseKey(key64 & !ParityMask)
  {
    var a, b := CollapseKey(key64), CollapseKey(key64 & !ParityMask);
    forall j: bv64 | j < 8
      ensures Septet(a, j) == Septet(b, j)
    {
      CollapseGroup(key64, j);
      CollapseGroup(key64 & !ParityMask, j);
    }
    SeptetsDetermine(a, b);
  }

  /** Bits 56-63 of the counter do not reach IntersperseKey. */
  lemma IntersperseIgnoresHighBits(key56: bv64)
    ensures IntersperseKey(key56) == IntersperseKey(key56 & 0x00FF_FFFF_FFFF_FFFF)
  {
    var a, b := IntersperseKey(key56), IntersperseKey(key56 & 0x00FF_FFFF_FFFF_FFFF);
    forall j: bv64 | j < 8
      ensures KeyBits(a, j) == KeyBits(b, j)
    {
      IntersperseGroup(key56, j);
      IntersperseGroup(key56 & 0x00FF_FFFF_FFFF_FFFF, j);
    }
    KeyBitsDetermine(a, b);
  }
}
