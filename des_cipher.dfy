/** DES and Triple-DES block encryption (des/cipher.go).
 *
 *  The permutation tables, the S-box round function and the key schedule are
 *  not fixed here: they are the fields of a `Primitives` value that every
 *  operation takes as a parameter. The only thing assumed about them is that
 *  the initial and final permutations are inverse bijections (`Valid`). Every
 *  property below therefore holds for EVERY round function F and every key
 *  schedule.
 */
module Des {

  /** Sixteen round subkeys (a Go array of 16 words). */
  type Subkeys = s: seq<bv64> | |s| == 16 witness seq(16, _ => 0)

  /** Sixteen cumulative key-schedule rotations of one 28-bit half (result of ksRotate). */
  type Rotations = s: seq<bv32> | |s| == 16 witness seq(16, _ => 0)

  /** Three DES keys (a Go array of 3 words). */
  type TripleKey = s: seq<bv64> | |s| == 3 witness [0, 0, 0]

  /** The package-level helpers and tables of the des package that are outside this model. */
  datatype Primitives = Primitives(
    permuteInitialBlock: bv64 -> bv64,
    permuteFinalBlock: bv64 -> bv64,
    // one Feistel round function: expansion, key mixing, S-boxes and P, on a rotated half
    roundFunction: (bv32, bv64) -> bv32,
    generateSubkeys: bv64 -> Subkeys,
    // the permuted choices 1 and 2 of the key schedule
    permuteChoice1: bv64 -> bv64,
    permuteChoice2: bv64 -> bv64,
    ksRotate: bv32 -> Rotations,
    unpack: bv64 -> bv64)

  /** The initial and final permutations undo each other (checked bit by bit in the source's tests). */
  ghost predicate Valid(p: Primitives) {
    (forall b :: p.permuteFinalBlock(p.permuteInitialBlock(b)) == b) &&
    (forall b :: p.permuteInitialBlock(p.permuteFinalBlock(b)) == b)
  }

  lemma FinalPermutationInjective(p: Primitives, x: bv64, y: bv64)
    requires Valid(p)
    ensures p.permuteFinalBlock(x) == p.permuteFinalBlock(y) <==> x == y
  {
    if p.permuteFinalBlock(x) == p.permuteFinalBlock(y) {
      assert p.permuteInitialBlock(p.permuteFinalBlock(x)) == x;
      assert p.permuteInitialBlock(p.permuteFinalBlock(y)) == y;
    }
  }

  // ---------------------------------------------------------------------
  // Halves and rotations

  /** The high half of a block. */
  function High(b: bv64): bv32 {
    (b >> 32) as bv32
  }

  /** The low half of a block: the conversion to 32 bits truncates. */
  function Low(b: bv64): bv32 {
    (b & 0xFFFF_FFFF) as bv32
  }

  /** The block whose high half is hi and whose low half is lo. */
  function Join(hi: bv32, lo: bv32): (b: bv64)
    ensures High(b) == hi && Low(b) == lo
  {
    ((hi as bv64) << 32) | (lo as bv64)
  }

  lemma JoinHalves(b: bv64)
    ensures Join(High(b), Low(b)) == b
  {
  }

  /** A half rotated left by one bit. */
  function RotateLeft1(x: bv32): (r: bv32)
    ensures RotateRight1(r) == x
    ensures r == x.RotateLeft(1)
  {
    (x << 1) | (x >> 31)
  }

  /** A half rotated right by one bit. */
  function RotateRight1(x: bv32): (r: bv32)
    ensures r == x.RotateRight(1)
  {
    (x << 31) | (x >> 1)
  }

  lemma RotateLeftAfterRight(x: bv32)
    ensures RotateLeft1(RotateRight1(x)) == x
  {
  }

  // ---------------------------------------------------------------------
  // Feistel rounds

  /** Go's ^ on uint32; named so that the cancellation law below can be applied term by term. */
  function Xor(x: bv32, y: bv32): bv32 {
    x ^ y
  }

  lemma XorCancel(x: bv32, y: bv32)
    ensures Xor(Xor(x, y), y) == x
  {
  }

  /** The feistel helper: two rounds, the first mixing F of the right half into the left one,
      the second F of the new left half into the right one. */
  function Feistel(p: Primitives, l: bv32, r: bv32, k0: bv64, k1: bv64): (bv32, bv32) {
    var l' := Xor(l, p.roundFunction(r, k0));
    (l', Xor(r, p.roundFunction(l', k1)))
  }

  /** Two rounds run on the exchanged output with the keys exchanged give back the exchanged input. */
  lemma FeistelUndo(p: Primitives, l: bv32, r: bv32, k0: bv64, k1: bv64)
    ensures var out := Feistel(p, l, r, k0, k1); Feistel(p, out.1, out.0, k1, k0) == (r, l)
  {
    var a := p.roundFunction(r, k0);
    XorCancel(r, p.roundFunction(Xor(l, a), k1));
    XorCancel(l, a);
  }

  type KeyPair = (bv64, bv64)

  /** The double-rounds of the key pairs, applied in order. */
  function Rounds(p: Primitives, pairs: seq<KeyPair>, l: bv32, r: bv32): (bv32, bv32)
    decreases |pairs|
  {
    if |pairs| == 0 then (l, r)
    else
      var mid := Rounds(p, pairs[..|pairs| - 1], l, r);
      Feistel(p, mid.0, mid.1, pairs[|pairs| - 1].0, pairs[|pairs| - 1].1)
  }

  lemma {:induction false} RoundsPrepend(p: Primitives, k: KeyPair, rest: seq<KeyPair>, l: bv32, r: bv32)
    ensures var first := Feistel(p, l, r, k.0, k.1);
            Rounds(p, [k] + rest, l, r) == Rounds(p, rest, first.0, first.1)
    decreases |rest|
  {
    if |rest| > 0 {
      assert ([k] + rest)[..|rest|] == [k] + rest[..|rest| - 1];
      RoundsPrepend(p, k, rest[..|rest| - 1], l, r);
    } else {
      assert ([k] + rest)[..0] == [];
    }
  }

  /** The pairs in reverse order with the two keys of each pair exchanged. */
  function SwapReverse(pairs: seq<KeyPair>): seq<KeyPair> {
    seq(|pairs|, i requires 0 <= i < |pairs| => (pairs[|pairs| - 1 - i].1, pairs[|pairs| - 1 - i].0))
  }

  /** Reversing and exchanging twice gives the schedule back, so each of two schedules
      related this way inverts the other. */
  lemma SwapReverseTwice(pairs: seq<KeyPair>)
    ensures SwapReverse(SwapReverse(pairs)) == pairs
  {
    var once := SwapReverse(pairs);
    forall i | 0 <= i < |pairs|
      ensures SwapReverse(once)[i] == pairs[i]
    {
      assert once[|pairs| - 1 - i] == (pairs[i].1, pairs[i].0);
    }
  }

  /** Running the reversed, swapped schedule on the swapped output inverts the network. */
  lemma {:induction false} RoundsUndo(p: Primitives, pairs: seq<KeyPair>, l: bv32, r: bv32)
    ensures var out := Rounds(p, pairs, l, r); Rounds(p, SwapReverse(pairs), out.1, out.0) == (r, l)
    decreases |pairs|
  {
    if |pairs| > 0 {
      var n := |pairs| - 1;
      var a := pairs[..n];
      var k := pairs[n];
      var mid := Rounds(p, a, l, r);
      var out := Feistel(p, mid.0, mid.1, k.0, k.1);
      assert SwapReverse(pairs) == [(k.1, k.0)] + SwapReverse(a);
      RoundsPrepend(p, (k.1, k.0), SwapReverse(a), out.1, out.0);
      FeistelUndo(p, mid.0, mid.1, k.0, k.1);
      RoundsUndo(p, a, l, r);
    }
  }

  /** The subkeys of double-round i: (2i, 2i+1) when encrypting, (15-2i, 15-(2i+1)) when decrypting. */
  function PairAt(ks: Subkeys, decrypt: bool, i: nat): KeyPair
    requires i < 8
  {
    if decrypt then (ks[15 - 2 * i], ks[15 - (2 * i + 1)]) else (ks[2 * i], ks[2 * i + 1])
  }

  /** The eight key pairs of one pass, in the order the loop uses them. */
  function Pairs(ks: Subkeys, decrypt: bool): seq<KeyPair> {
    seq(8, i requires 0 <= i < 8 => PairAt(ks, decrypt, i))
  }

  /** Decryption uses the encryption subkeys in reverse order, each pair exchanged. */
  lemma DecryptPairsReversed(ks: Subkeys)
    ensures Pairs(ks, true) == SwapReverse(Pairs(ks, false))
    ensures Pairs(ks, false) == SwapReverse(Pairs(ks, true))
    ensures forall i :: 0 <= i < 8 ==> PairAt(ks, true, i) == (ks[15 - 2 * i], ks[14 - 2 * i])
  {
  }

  /** The first n double-rounds of one pass, as the loop of cryptBlock runs them. */
  function RoundsUpTo(p: Primitives, ks: Subkeys, decrypt: bool, n: nat, l: bv32, r: bv32): (bv32, bv32)
    requires n <= 8
    decreases n
  {
    if n == 0 then (l, r)
    else
      var mid := RoundsUpTo(p, ks, decrypt, n - 1, l, r);
      var k := PairAt(ks, decrypt, n - 1);
      Feistel(p, mid.0, mid.1, k.0, k.1)
  }

  lemma {:induction false} RoundsUpToIsRounds(p: Primitives, ks: Subkeys, decrypt: bool, n: nat, l: bv32, r: bv32)
    requires n <= 8
    ensures RoundsUpTo(p, ks, decrypt, n, l, r) == Rounds(p, Pairs(ks, decrypt)[..n], l, r)
    decreases n
  {
    if n > 0 {
      RoundsUpToIsRounds(p, ks, decrypt, n - 1, l, r);
      assert Pairs(ks, decrypt)[..n][..n - 1] == Pairs(ks, decrypt)[..n - 1];
    }
  }

  lemma FullPass(p: Primitives, ks: Subkeys, decrypt: bool, l: bv32, r: bv32)
    ensures RoundsUpTo(p, ks, decrypt, 8, l, r) == Rounds(p, Pairs(ks, decrypt), l, r)
  {
    RoundsUpToIsRounds(p, ks, decrypt, 8, l, r);
    assert Pairs(ks, decrypt)[..8] == Pairs(ks, decrypt);
  }

  // ---------------------------------------------------------------------
  // Block encryption

  /** Everything between the initial and final permutations: split, rotate left,
      run the double-rounds, rotate right, and join with the halves exchanged. */
  function Network(p: Primitives, pairs: seq<KeyPair>, b: bv64): bv64 {
    var out := Rounds(p, pairs, RotateLeft1(High(b)), RotateLeft1(Low(b)));
    Join(RotateRight1(out.1), RotateRight1(out.0))
  }

  lemma NetworkUndo(p: Primitives, pairs: seq<KeyPair>, b: bv64)
    ensures Network(p, SwapReverse(pairs), Network(p, pairs, b)) == b
  {
    var out := Rounds(p, pairs, RotateLeft1(High(b)), RotateLeft1(Low(b)));
    var c := Network(p, pairs, b);
    assert RotateLeft1(High(c)) == out.1 && RotateLeft1(Low(c)) == out.0 by {
      RotateLeftAfterRight(out.1);
      RotateLeftAfterRight(out.0);
    }
    RoundsUndo(p, pairs, RotateLeft1(High(b)), RotateLeft1(Low(b)));
    JoinHalves(b);
  }

  /** cryptBlock(block, decrypt) for the subkeys ks. */
  function Crypt(p: Primitives, ks: Subkeys, block: bv64, decrypt: bool): bv64 {
    p.permuteFinalBlock(Network(p, Pairs(ks, decrypt), p.permuteInitialBlock(block)))
  }

  function Encrypt(p: Primitives, ks: Subkeys, block: bv64): bv64 {
    Crypt(p, ks, block, false)
  }

  function Decrypt(p: Primitives, ks: Subkeys, block: bv64): bv64 {
    Crypt(p, ks, block, true)
  }

  lemma DecryptEncrypt(p: Primitives, ks: Subkeys, block: bv64)
    requires Valid(p)
    ensures Decrypt(p, ks, Encrypt(p, ks, block)) == block
  {
    var x := p.permuteInitialBlock(block);
    var c := Network(p, Pairs(ks, false), x);
    assert p.permuteInitialBlock(p.permuteFinalBlock(c)) == c;
    NetworkUndo(p, Pairs(ks, false), x);
    DecryptPairsReversed(ks);
  }

  lemma EncryptDecrypt(p: Primitives, ks: Subkeys, block: bv64)
    requires Valid(p)
    ensures Encrypt(p, ks, Decrypt(p, ks, block)) == block
  {
    var x := p.permuteInitialBlock(block);
    var c := Network(p, Pairs(ks, true), x);
    assert p.permuteInitialBlock(p.permuteFinalBlock(c)) == c;
    NetworkUndo(p, Pairs(ks, true), x);
    DecryptPairsReversed(ks);
  }

  /** The eight double-rounds of cryptBlock (and of each pass of the Triple-DES methods):
      round i takes the subkeys 2i and 2i+1, or 15-2i and 14-2i when decrypting. */
  method RunPass(p: Primitives, ks: Subkeys, decrypt: bool, l: bv32, r: bv32) returns (left: bv32, right: bv32)
    ensures (left, right) == Rounds(p, Pairs(ks, decrypt), l, r)
  {
    left, right := l, r;
    var i := 0;
    if decrypt {
      while i < 8
        invariant 0 <= i <= 8
        invariant (left, right) == RoundsUpTo(p, ks, true, i, l, r)
      {
        var f := Feistel(p, left, right, ks[15 - 2 * i], ks[15 - (2 * i + 1)]);
        left, right := f.0, f.1;
        i := i + 1;
      }
    } else {
      while i < 8
        invariant 0 <= i <= 8
        invariant (left, right) == RoundsUpTo(p, ks, false, i, l, r)
      {
        var f := Feistel(p, left, right, ks[2 * i], ks[2 * i + 1]);
        left, right := f.0, f.1;
        i := i + 1;
      }
    }
    FullPass(p, ks, decrypt, l, r);
  }

  /** An instance of DES encryption: its subkeys are written once, by construction. */
  class Cipher {
    const subkeys: Subkeys

    constructor NewCipher(p: Primitives, key: bv64)
      ensures subkeys == p.generateSubkeys(key)
    {
      subkeys := p.generateSubkeys(key);
    }

    method EncryptBlock(p: Primitives, block: bv64) returns (dst: bv64)
      ensures dst == Encrypt(p, subkeys, block)
      ensures Valid(p) ==> Decrypt(p, subkeys, dst) == block
    {
      dst := CryptBlock(p, block, false);
      if Valid(p) {
        DecryptEncrypt(p, subkeys, block);
      }
    }

    method DecryptBlock(p: Primitives, block: bv64) returns (dst: bv64)
      ensures dst == Decrypt(p, subkeys, block)
      ensures Valid(p) ==> Encrypt(p, subkeys, dst) == block
    {
      dst := CryptBlock(p, block, true);
      if Valid(p) {
        EncryptDecrypt(p, subkeys, block);
      }
    }

    method CryptBlock(p: Primitives, block: bv64, decrypt: bool) returns (dst: bv64)
      ensures dst == Crypt(p, subkeys, block, decrypt)
    {
      var b := p.permuteInitialBlock(block);
      var left, right := High(b), Low(b);

      left := RotateLeft1(left);
      right := RotateLeft1(right);

      left, right := RunPass(p, subkeys, decrypt, left, right);

      left := RotateRight1(left);
      right := RotateRight1(right);

      // exchange the halves, then the final permutation
      var preOutput := Join(right, left);
      dst := p.permuteFinalBlock(preOutput);
    }
  }

  // ---------------------------------------------------------------------
  // Triple DES

  /** The part of TripleDESCipher.EncryptBlock/DecryptBlock between its one initial and one
      final permutation: three runs of the double-rounds, the middle one on exchanged halves. */
  function TripleNetwork(p: Primitives, ps1: seq<KeyPair>, ps2: seq<KeyPair>, ps3: seq<KeyPair>, b: bv64): bv64 {
    var s1 := Rounds(p, ps1, RotateLeft1(High(b)), RotateLeft1(Low(b)));
    var s2 := Rounds(p, ps2, s1.1, s1.0);      // the middle pass runs on the exchanged halves
    var s3 := Rounds(p, ps3, s2.1, s2.0);
    Join(RotateRight1(s3.1), RotateRight1(s3.0))
  }

  /** TripleDESCipher.EncryptBlock (decrypt false) and DecryptBlock (decrypt true) as written:
      the outer passes run in the direction of the operation, the middle one in the other. */
  function TripleCrypt(p: Primitives, ks1: Subkeys, ks2: Subkeys, ks3: Subkeys, block: bv64, decrypt: bool): bv64 {
    var first := if decrypt then ks3 else ks1;
    var last := if decrypt then ks1 else ks3;
    p.permuteFinalBlock(TripleNetwork(p, Pairs(first, decrypt), Pairs(ks2, !decrypt), Pairs(last, decrypt),
                                      p.permuteInitialBlock(block)))
  }

  /** The last steps of the Triple-DES methods: rotate back, exchange, final permutation. */
  lemma TripleCryptResult(p: Primitives, ks1: Subkeys, ks2: Subkeys, ks3: Subkeys, block: bv64, decrypt: bool,
                          s1: (bv32, bv32), s2: (bv32, bv32), l: bv32, r: bv32)
    requires var b := p.permuteInitialBlock(block);
             s1 == Rounds(p, Pairs(if decrypt then ks3 else ks1, decrypt), RotateLeft1(High(b)), RotateLeft1(Low(b)))
    requires s2 == Rounds(p, Pairs(ks2, !decrypt), s1.1, s1.0)
    requires (l, r) == Rounds(p, Pairs(if decrypt then ks1 else ks3, decrypt), s2.1, s2.0)
    ensures p.permuteFinalBlock(Join(RotateRight1(r), RotateRight1(l))) == TripleCrypt(p, ks1, ks2, ks3, block, decrypt)
  {
  }

  /** Two networks in a row meet in a rotate-right/rotate-left pair that cancels. */
  lemma NetworkTwice(p: Primitives, ps1: seq<KeyPair>, ps2: seq<KeyPair>, b: bv64)
    ensures var s1 := Rounds(p, ps1, RotateLeft1(High(b)), RotateLeft1(Low(b)));
            var s2 := Rounds(p, ps2, s1.1, s1.0);
            Network(p, ps2, Network(p, ps1, b)) == Join(RotateRight1(s2.1), RotateRight1(s2.0))
  {
    var s1 := Rounds(p, ps1, RotateLeft1(High(b)), RotateLeft1(Low(b)));
    RotateLeftAfterRight(s1.0);
    RotateLeftAfterRight(s1.1);
  }

  lemma NetworkThrice(p: Primitives, ps1: seq<KeyPair>, ps2: seq<KeyPair>, ps3: seq<KeyPair>, b: bv64)
    ensures Network(p, ps3, Network(p, ps2, Network(p, ps1, b))) == TripleNetwork(p, ps1, ps2, ps3, b)
  {
    NetworkTwice(p, ps1, ps2, b);
    var s1 := Rounds(p, ps1, RotateLeft1(High(b)), RotateLeft1(Low(b)));
    var s2 := Rounds(p, ps2, s1.1, s1.0);
    var c := Network(p, ps2, Network(p, ps1, b));
    assert High(c) == RotateRight1(s2.1) && Low(c) == RotateRight1(s2.0);
    RotateLeftAfterRight(s2.0);
    RotateLeftAfterRight(s2.1);
  }

  /** Triple-DES encryption is encrypt-decrypt-encrypt: the inner IP/FP pairs cancel. */
  lemma TripleEncryptIsEde(p: Primitives, ks1: Subkeys, ks2: Subkeys, ks3: Subkeys, block: bv64)
    requires Valid(p)
    ensures TripleCrypt(p, ks1, ks2, ks3, block, false) == Encrypt(p, ks3, Decrypt(p, ks2, Encrypt(p, ks1, block)))
  {
    var x := p.permuteInitialBlock(block);
    var c1 := Network(p, Pairs(ks1, false), x);
    assert p.permuteInitialBlock(p.permuteFinalBlock(c1)) == c1;
    var c2 := Network(p, Pairs(ks2, true), c1);
    assert p.permuteInitialBlock(p.permuteFinalBlock(c2)) == c2;
    NetworkThrice(p, Pairs(ks1, false), Pairs(ks2, true), Pairs(ks3, false), x);
  }

  /** Triple-DES decryption is decrypt-encrypt-decrypt with the keys in reverse order. */
  lemma TripleDecryptIsDed(p: Primitives, ks1: Subkeys, ks2: Subkeys, ks3: Subkeys, block: bv64)
    requires Valid(p)
    ensures TripleCrypt(p, ks1, ks2, ks3, block, true) == Decrypt(p, ks1, Encrypt(p, ks2, Decrypt(p, ks3, block)))
  {
    var x := p.permuteInitialBlock(block);
    var c1 := Network(p, Pairs(ks3, true), x);
    assert p.permuteInitialBlock(p.permuteFinalBlock(c1)) == c1;
    var c2 := Network(p, Pairs(ks2, false), c1);
    assert p.permuteInitialBlock(p.permuteFinalBlock(c2)) == c2;
    NetworkThrice(p, Pairs(ks3, true), Pairs(ks2, false), Pairs(ks1, true), x);
  }

  lemma TripleDecryptEncrypt(p: Primitives, ks1: Subkeys, ks2: Subkeys, ks3: Subkeys, block: bv64)
    requires Valid(p)
    ensures TripleCrypt(p, ks1, ks2, ks3, TripleCrypt(p, ks1, ks2, ks3, block, false), true) == block
    ensures TripleCrypt(p, ks1, ks2, ks3, TripleCrypt(p, ks1, ks2, ks3, block, true), false) == block
  {
    var e1 := Encrypt(p, ks1, block);
    var e2 := Decrypt(p, ks2, e1);
    var e3 := Encrypt(p, ks3, e2);
    TripleEncryptIsEde(p, ks1, ks2, ks3, block);
    TripleDecryptIsDed(p, ks1, ks2, ks3, e3);
    DecryptEncrypt(p, ks3, e2);
    EncryptDecrypt(p, ks2, e1);
    DecryptEncrypt(p, ks1, block);

    var d1 := Decrypt(p, ks3, block);
    var d2 := Encrypt(p, ks2, d1);
    var d3 := Decrypt(p, ks1, d2);
    TripleDecryptIsDed(p, ks1, ks2, ks3, block);
    TripleEncryptIsEde(p, ks1, ks2, ks3, d3);
    EncryptDecrypt(p, ks1, d2);
    DecryptEncrypt(p, ks2, d1);
    EncryptDecrypt(p, ks3, block);
  }

  /** With one key used three times, Triple-DES is single DES. */
  lemma TripleWithOneKey(p: Primitives, ks: Subkeys, block: bv64)
    requires Valid(p)
    ensures TripleCrypt(p, ks, ks, ks, block, false) == Encrypt(p, ks, block)
    ensures TripleCrypt(p, ks, ks, ks, block, true) == Decrypt(p, ks, block)
  {
    TripleEncryptIsEde(p, ks, ks, ks, block);
    EncryptDecrypt(p, ks, Encrypt(p, ks, block));
    TripleDecryptIsDed(p, ks, ks, ks, block);
    DecryptEncrypt(p, ks, Decrypt(p, ks, block));
  }

  /** An instance of Triple-DES encryption holding three DES ciphers. */
  class TripleDESCipher {
    const cipher1: Cipher
    const cipher2: Cipher
    const cipher3: Cipher

    constructor NewTripleDESCipher(p: Primitives, key: TripleKey)
      ensures cipher1.subkeys == p.generateSubkeys(key[0])
      ensures cipher2.subkeys == p.generateSubkeys(key[1])
      ensures cipher3.subkeys == p.generateSubkeys(key[2])
    {
      cipher1 := new Cipher.NewCipher(p, key[0]);
      cipher2 := new Cipher.NewCipher(p, key[1]);
      cipher3 := new Cipher.NewCipher(p, key[2]);
    }

    method EncryptBlock(p: Primitives, block: bv64) returns (dst: bv64)
      ensures dst == TripleCrypt(p, cipher1.subkeys, cipher2.subkeys, cipher3.subkeys, block, false)
      ensures Valid(p) ==> dst == Encrypt(p, cipher3.subkeys, Decrypt(p, cipher2.subkeys, Encrypt(p, cipher1.subkeys, block)))
    {
      var b := p.permuteInitialBlock(block);
      var left, right := High(b), Low(b);

      left := RotateLeft1(left);
      right := RotateLeft1(right);

      ghost var l0, r0 := left, right;
      left, right := RunPass(p, cipher1.subkeys, false, left, right);
      ghost var s1 := (left, right);
      right, left := RunPass(p, cipher2.subkeys, true, right, left);
      ghost var s2 := (right, left);
      left, right := RunPass(p, cipher3.subkeys, false, left, right);
      ghost var l3, r3 := left, right;

      left := RotateRight1(left);
      right := RotateRight1(right);

      var preOutput := Join(right, left);
      dst := p.permuteFinalBlock(preOutput);
      TripleCryptResult(p, cipher1.subkeys, cipher2.subkeys, cipher3.subkeys, block, false, s1, s2, l3, r3);
      if Valid(p) {
        TripleEncryptIsEde(p, cipher1.subkeys, cipher2.subkeys, cipher3.subkeys, block);
      }
    }

    method DecryptBlock(p: Primitives, block: bv64) returns (dst: bv64)
      ensures dst == TripleCrypt(p, cipher1.subkeys, cipher2.subkeys, cipher3.subkeys, block, true)
      ensures Valid(p) ==> dst == Decrypt(p, cipher1.subkeys, Encrypt(p, cipher2.subkeys, Decrypt(p, cipher3.subkeys, block)))
    {
      var b := p.permuteInitialBlock(block);
      var left, right := High(b), Low(b);

      left := RotateLeft1(left);
      right := RotateLeft1(right);

      ghost var l0, r0 := left, right;
      left, right := RunPass(p, cipher3.subkeys, true, left, right);
      ghost var s1 := (left, right);
      right, left := RunPass(p, cipher2.subkeys, false, right, left);
      ghost var s2 := (right, left);
      left, right := RunPass(p, cipher1.subkeys, true, left, right);
      ghost var l3, r3 := left, right;

      left := RotateRight1(left);
      right := RotateRight1(right);

      var preOutput := Join(right, left);
      dst := p.permuteFinalBlock(preOutput);
      TripleCryptResult(p, cipher1.subkeys, cipher2.subkeys, cipher3.subkeys, block, true, s1, s2, l3, r3);
      if Valid(p) {
        TripleDecryptIsDed(p, cipher1.subkeys, cipher2.subkeys, cipher3.subkeys, block);
      }
    }
  }
}
