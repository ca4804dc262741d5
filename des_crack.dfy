/** The known-plaintext key checker (des/crack.go).
 *
 *  A Cracker holds one plaintext/ciphertext pair, both already through the
 *  initial permutation, and CheckKey runs the DES key schedule and the sixteen
 *  encryption rounds on the plaintext for a candidate key, stopping before the
 *  final permutation and comparing with the stored ciphertext.
 */
module DesCrack {
  import opened Des

  /** The two 28-bit halves of a PC1 output: the bits from 28 up, and the low 28 bits. */
  function SplitPermutedKey(x: bv64): (halves: (bv32, bv32))
    ensures halves.1 < 1 << 28
    ensures x < 1 << 56 ==> halves.0 < 1 << 28
  {
    var left := ((x >> 28) & 0xFFFF_FFFF) as bv32;
    var right := (((x << 4) & 0xFFFF_FFFF) as bv32) >> 4;
    (left, right)
  }

  /** The 56-bit input to PC2: l above the 28 bits of r. */
  function Combine(l: bv32, r: bv32): bv64 {
    ((l as bv64) << 28) | (r as bv64)
  }

  /** Splitting and recombining keeps the low 60 bits, so a 56-bit PC1 output comes back whole. */
  lemma CombineSplit(x: bv64)
    ensures Combine(SplitPermutedKey(x).0, SplitPermutedKey(x).1) == x & 0x0FFF_FFFF_FFFF_FFFF
    ensures x < 1 << 56 ==> Combine(SplitPermutedKey(x).0, SplitPermutedKey(x).1) == x
  {
  }

  /** Subkey i of CheckKey: PC2 of the i-th rotations of both halves, unpacked. */
  function CrackerSubkey(p: Primitives, key: bv64, i: nat): bv64
    requires i < 16
  {
    var halves := SplitPermutedKey(p.permuteChoice1(key));
    p.unpack(p.permuteChoice2(Combine(p.ksRotate(halves.0)[i], p.ksRotate(halves.1)[i])))
  }

  /** The sixteen subkeys CheckKey derives from a candidate key. */
  function CrackerSchedule(p: Primitives, key: bv64): Subkeys {
    seq(16, i requires 0 <= i < 16 => CrackerSubkey(p, key, i))
  }

  /** What CheckKey decides: the rounds of the candidate's schedule, run on the stored
      (initially permuted) plaintext, end at the stored (initially permuted) ciphertext. */
  predicate Accepts(p: Primitives, cipher: bv64, plain: bv64, key: bv64) {
    Network(p, Pairs(CrackerSchedule(p, key), false), plain) == cipher
  }

  /** Soundness and completeness of the check: with the stored values being IP(cipher) and
      IP(plain), a key is accepted exactly when its schedule encrypts plain to cipher. */
  lemma AcceptsIffEncrypts(p: Primitives, cipher: bv64, plain: bv64, key: bv64)
    requires Valid(p)
    ensures Accepts(p, p.permuteInitialBlock(cipher), p.permuteInitialBlock(plain), key)
            <==> Encrypt(p, CrackerSchedule(p, key), plain) == cipher
  {
    var n := Network(p, Pairs(CrackerSchedule(p, key), false), p.permuteInitialBlock(plain));
    assert p.permuteFinalBlock(p.permuteInitialBlock(cipher)) == cipher;
    assert p.permuteInitialBlock(p.permuteFinalBlock(n)) == n;
  }

  /** Where the checker's key schedule agrees with the cipher's, accepting a key is the same
      as NewCipher(key).EncryptBlock(plain) == cipher. */
  lemma AcceptsIffCipherEncrypts(p: Primitives, cipher: bv64, plain: bv64, key: bv64)
    requires Valid(p)
    requires p.generateSubkeys(key) == CrackerSchedule(p, key)
    ensures Accepts(p, p.permuteInitialBlock(cipher), p.permuteInitialBlock(plain), key)
            <==> Encrypt(p, p.generateSubkeys(key), plain) == cipher
  {
    AcceptsIffEncrypts(p, cipher, plain, key);
  }

  /** An instance of DES encryption specialised to one known plaintext/ciphertext pair.
      Its two fields are set by the constructor and never written again. */
  class Cracker {
    const cipher: bv64
    const plain: bv64

    constructor NewCracker(p: Primitives, cipher: bv64, plain: bv64)
      ensures this.cipher == p.permuteInitialBlock(cipher)
      ensures this.plain == p.permuteInitialBlock(plain)
    {
      this.cipher := p.permuteInitialBlock(cipher);
      this.plain := p.permuteInitialBlock(plain);
    }

    method CheckKey(p: Primitives, key: bv64) returns (ok: bool)
      ensures ok == Accepts(p, cipher, plain, key)
    {
      // apply PC1 permutation to key
      var permutedKey := p.permuteChoice1(key);

      // rotate halves of permuted key according to the rotation schedule
      var halves := SplitPermutedKey(permutedKey);
      var leftRotations := p.ksRotate(halves.0);
      var rightRotations := p.ksRotate(halves.1);

      // generate subkeys
      var subkeys := new bv64[16];
      var i := 0;
      while i < 16
        invariant 0 <= i <= 16
        invariant forall j :: 0 <= j < i ==> subkeys[j] == CrackerSubkey(p, key, j)
      {
        var pc2Input := Combine(leftRotations[i], rightRotations[i]);
        subkeys[i] := p.unpack(p.permuteChoice2(pc2Input));
        i := i + 1;
      }
      assert subkeys[..] == CrackerSchedule(p, key);
      var ks: Subkeys := subkeys[..];

      var left, right := High(plain), Low(plain);

      left := RotateLeft1(left);
      right := RotateLeft1(right);

      // the forward pass of cryptBlock
      left, right := RunPass(p, ks, false, left, right);

      left := RotateRight1(left);
      right := RotateRight1(right);

      // switch left & right
      var preOutput := Join(right, left);
      ok := preOutput == cipher;
    }
  }
}
