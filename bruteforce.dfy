/** The sequential core of the 56-bit DES brute-force search (bruteforce/des.go).
 *
 *  desSearchRange tries the counters of a half-open range in increasing order:
 *  each counter is spread into a 64-bit key by IntersperseKey, written
 *  big-endian into an 8-byte buffer, and used to decrypt the fixed ciphertext;
 *  the first counter whose decryption is the fixed plaintext "password" wins.
 *  The DES block decryption of the Go standard library is a parameter of the
 *  search (an oracle on key and block bytes); IsDes states when such an oracle
 *  agrees with the Des module, and AcceptedIffEncrypts uses it.
 *
 *  The workers of main share a cursor k and a done flag; one claim step
 *  (under the mutex) is modelled by the Dispatcher class.
 */
module BruteForce {
  import opened Des
  import opened KeyCodec

  /** The fixed ciphertext block the search attacks. */
  const CipherBytes: seq<bv8> := [0x2f, 0xca, 0x9b, 0x00, 0x3d, 0xe3, 0x97, 0x78]

  /** The known plaintext: the ASCII bytes of "password". */
  const PlainBytes: seq<bv8> := [0x70, 0x61, 0x73, 0x73, 0x77, 0x6f, 0x72, 0x64]

  datatype Option<T> = None | Some(value: T)

  // ---------------------------------------------------------------------
  // Big-endian byte order (encoding/binary)

  /** Eight bytes as a 64-bit value, the first byte most significant. */
  function Pack(b0: bv8, b1: bv8, b2: bv8, b3: bv8, b4: bv8, b5: bv8, b6: bv8, b7: bv8): bv64 {
    ((b0 as bv64) << 56) | ((b1 as bv64) << 48) | ((b2 as bv64) << 40) | ((b3 as bv64) << 32) |
    ((b4 as bv64) << 24) | ((b5 as bv64) << 16) | ((b6 as bv64) << 8) | (b7 as bv64)
  }

  /** The byte of v at shift s. */
  function ByteAt(v: bv64, s: bv64): bv8
    requires s < 64
  {
    ((v >> s) & 0xFF) as bv8
  }

  lemma PackBytesAt(v: bv64)
    ensures Pack(ByteAt(v, 56), ByteAt(v, 48), ByteAt(v, 40), ByteAt(v, 32),
                 ByteAt(v, 24), ByteAt(v, 16), ByteAt(v, 8), ByteAt(v, 0)) == v
  {
  }

  lemma BytesAtPack(b0: bv8, b1: bv8, b2: bv8, b3: bv8, b4: bv8, b5: bv8, b6: bv8, b7: bv8)
    ensures var v := Pack(b0, b1, b2, b3, b4, b5, b6, b7);
      ByteAt(v, 56) == b0 && ByteAt(v, 48) == b1 && ByteAt(v, 40) == b2 && ByteAt(v, 32) == b3 &&
      ByteAt(v, 24) == b4 && ByteAt(v, 16) == b5 && ByteAt(v, 8) == b6 && ByteAt(v, 0) == b7
  {
  }

  /** binary.BigEndian.Uint64 */
  function Uint64Of(b: seq<bv8>): bv64
    requires |b| == 8
  {
    Pack(b[0], b[1], b[2], b[3], b[4], b[5], b[6], b[7])
  }

  /** The eight bytes binary.BigEndian.PutUint64 writes for v; Uint64 reads v back. */
  function BigEndian(v: bv64): (b: seq<bv8>)
    ensures |b| == 8
    ensures Uint64Of(b) == v
  {
    PackBytesAt(v);
    [ByteAt(v, 56), ByteAt(v, 48), ByteAt(v, 40), ByteAt(v, 32),
     ByteAt(v, 24), ByteAt(v, 16), ByteAt(v, 8), ByteAt(v, 0)]
  }

  /** Writing back what Uint64 read gives the same eight bytes. */
  lemma BigEndianOfUint64(b: seq<bv8>)
    requires |b| == 8
    ensures BigEndian(Uint64Of(b)) == b
  {
    BytesAtPack(b[0], b[1], b[2], b[3], b[4], b[5], b[6], b[7]);
  }

  // ---------------------------------------------------------------------
  // desSearchRange

  /** uint64 counters and bounds, as integers: every sum below is written out modulo 2^64. */
  const Modulus: int := 0x1_0000_0000_0000_0000

  type Uint64 = x: int | 0 <= x < 0x1_0000_0000_0000_0000

  /** des.NewCipher(key).Decrypt(out, cipher) of the Go standard library, as a function from
      the 8 key bytes and the 8 ciphertext bytes to the 8 plaintext bytes. */
  type DesDecrypt = (seq<bv8>, seq<bv8>) -> seq<bv8>

  /** The test of one counter: the key bytes of IntersperseKey(i) decrypt cipher to plain. */
  predicate Accepted(decrypt: DesDecrypt, i: Uint64) {
    decrypt(BigEndian(IntersperseKey(i as bv64)), CipherBytes) == PlainBytes
  }

  /** decrypt is DES as modelled by the Des module, on big-endian blocks. */
  ghost predicate IsDes(p: Primitives, decrypt: DesDecrypt) {
    forall key: seq<bv8>, c: seq<bv8> | |key| == 8 && |c| == 8 ::
      decrypt(key, c) == BigEndian(Decrypt(p, p.generateSubkeys(Uint64Of(key)), Uint64Of(c)))
  }

  /** Comparing the eight bytes written for v with b is comparing v with the value b holds. */
  lemma BigEndianMatches(v: bv64, b: seq<bv8>)
    requires |b| == 8
    ensures BigEndian(v) == b <==> v == Uint64Of(b)
  {
    if v == Uint64Of(b) {
      BigEndianOfUint64(b);
    }
  }

  /** When decrypt is DES, a counter passes exactly when its key encrypts "password" to the
      fixed ciphertext. */
  lemma AcceptedIffEncrypts(p: Primitives, decrypt: DesDecrypt, i: Uint64)
    requires Valid(p) && IsDes(p, decrypt)
    ensures Accepted(decrypt, i)
            <==> Encrypt(p, p.generateSubkeys(IntersperseKey(i as bv64)), Uint64Of(PlainBytes)) == Uint64Of(CipherBytes)
  {
    var ks := p.generateSubkeys(IntersperseKey(i as bv64));
    var c := Uint64Of(CipherBytes);
    var d := Decrypt(p, ks, c);
    assert decrypt(BigEndian(IntersperseKey(i as bv64)), CipherBytes) == BigEndian(d);
    BigEndianMatches(d, PlainBytes);
    if Accepted(decrypt, i) {
      EncryptDecrypt(p, ks, c);
    }
    if Encrypt(p, ks, Uint64Of(PlainBytes)) == c {
      DecryptEncrypt(p, ks, Uint64Of(PlainBytes));
    }
  }

  /** The test of desSearchRange as a predicate on counters. */
  function CounterTest(decrypt: DesDecrypt): Uint64 -> bool {
    (i: Uint64) => Accepted(decrypt, i)
  }

  /** The least counter of [lo, hi) that passes accept, if there is one. */
  function FirstAccepted(accept: Uint64 -> bool, lo: Uint64, hi: Uint64): (r: Option<Uint64>)
    ensures r.Some? ==> lo <= r.value < hi && accept(r.value)
    ensures r.Some? ==> forall j: Uint64 :: lo <= j < r.value ==> !accept(j)
    ensures r.None? ==> forall j: Uint64 :: lo <= j < hi ==> !accept(j)
    decreases hi - lo
  {
    if lo >= hi then None
    else if accept(lo) then Some(lo)
    else FirstAccepted(accept, lo + 1, hi)
  }

  /** desSearchRange(min, max): the least counter of [min, max) that passes, if any
      (nothing is tried when min >= max). The error result of the source is always nil;
      err == false stands for it. */
  method DesSearchRange(decrypt: DesDecrypt, min: Uint64, max: Uint64) returns (key: Uint64, ok: bool, err: bool)
    ensures !err
    ensures (if ok then Some(key) else None) == FirstAccepted(CounterTest(decrypt), min, max)
    ensures !ok ==> key == 0
  {
    // key and out are Go arrays of 8 bytes, that is values: they are modelled as sequences
    var i: Uint64 := min;
    while i < max
      invariant min <= i
      invariant FirstAccepted(CounterTest(decrypt), i, max) == FirstAccepted(CounterTest(decrypt), min, max)
    {
      var k := IntersperseKey(i as bv64);
      var keyBytes := BigEndian(k);
      var out := decrypt(keyBytes, CipherBytes);
      if out == PlainBytes {
        return i, true, false;
      }
      i := i + 1;
    }
    return 0, false, false;
  }

  // ---------------------------------------------------------------------
  // Claiming ranges (one step of a worker of main, under the mutex)

  datatype Range = Range(min: Uint64, max: Uint64)

  /** k + step in uint64 arithmetic. */
  function AddWrap(k: Uint64, step: Uint64): (s: Uint64)
    ensures s == (k + step) % Modulus
  {
    if k + step < Modulus then k + step else k + step - Modulus
  }

  /** One claim as written: nothing once k == end or done; otherwise [k, k+step),
      with k+step wrapping modulo 2^64 and not clamped to end. The cursor moves to the
      end of the claimed range. */
  function NextClaim(end: Uint64, step: Uint64, k: Uint64, done: bool): (r: Option<Range>)
    ensures r.None? <==> (k == end || done)
    ensures r.Some? ==> r.value.min == k && r.value.max == (k + step) % Modulus
  {
    if k == end || done then None
    else Some(Range(k, AddWrap(k, step)))
  }

  /** Once a key is found no range is handed out again, whatever the cursor. */
  lemma DoneStopsClaims(end: Uint64, step: Uint64, k: Uint64)
    ensures NextClaim(end, step, k, true) == None
  {
  }

  /** The cursor after n claims from start. */
  function CursorAfter(start: Uint64, step: Uint64, n: nat): Uint64 {
    if n == 0 then start else AddWrap(CursorAfter(start, step, n - 1), step)
  }

  lemma ModAdd(a: int, b: int)
    ensures (a % Modulus + b) % Modulus == (a + b) % Modulus
  {
    var q := a / Modulus;
    assert a == q * Modulus + a % Modulus;
    assert a + b == (a % Modulus + b) + q * Modulus;
    ModShift(a % Modulus + b, q);
  }

  lemma {:induction false} ModShift(x: int, q: int)
    ensures (x + q * Modulus) % Modulus == x % Modulus
    decreases if q < 0 then -q else q
  {
    if q > 0 {
      ModShift(x, q - 1);
      assert x + q * Modulus == (x + (q - 1) * Modulus) + Modulus;
    } else if q < 0 {
      ModShift(x, q + 1);
      assert x + q * Modulus == (x + (q + 1) * Modulus) - Modulus;
    }
  }

  /** The cursor after n claims is start + n*step modulo 2^64. */
  lemma {:induction false} CursorAfterIs(start: Uint64, step: Uint64, n: nat)
    ensures CursorAfter(start, step, n) == (start + n * step) % Modulus
  {
    if n > 0 {
      CursorAfterIs(start, step, n - 1);
      var a := start + (n - 1) * step;
      MulSucc(n, step);
      ModAdd(a, step);
    }
  }

  lemma MulSucc(n: nat, step: int)
    requires n > 0
    ensures (n - 1) * step + step == n * step
  {
  }

  /** The stop test is k == end: the cursor stops after n claims exactly when
      n*step and end - start agree modulo 2^64. */
  lemma CursorReachesEnd(start: Uint64, end: Uint64, step: Uint64, n: nat)
    ensures CursorAfter(start, step, n) == end <==> (n * step) % Modulus == (end - start) % Modulus
  {
    CursorAfterIs(start, step, n);
    CursorEqualsEnd(CursorAfter(start, step, n), n * step, start, end);
  }

  lemma CursorEqualsEnd(cursor: Uint64, c: int, start: Uint64, end: Uint64)
    requires cursor == (start + c) % Modulus
    ensures cursor == end <==> c % Modulus == (end - start) % Modulus
  {
    ShiftEq(c, end - start, start);
    assert end - start + start == end;
  }

  /** Adding the same amount on both sides keeps (in)equality modulo 2^64. */
  lemma ShiftEq(x: int, y: int, s: int)
    ensures (x + s) % Modulus == (y + s) % Modulus <==> x % Modulus == y % Modulus
  {
    var xm, ym, sm := x % Modulus, y % Modulus, s % Modulus;
    ModAdd(x, s);
    ModAdd(s, xm);
    ModAdd(y, s);
    ModAdd(s, ym);
    assert xm + s == s + xm && sm + xm == xm + sm;
    assert ym + s == s + ym && sm + ym == ym + sm;
  }

  /** As written, a claim is not clamped to end and the stop test is equality: with
      start 0, end 3 and step 2 the second range [2, 4) already covers the key 3, which
      lies outside [start, end), and the cursor (always even) never equals end, so the
      workers never stop unless a key is found: they claim forever, the cursor wrapping
      at 2^64 and cycling through the even values. */
  lemma {:induction false} ClaimOverrunsEnd(n: nat)
    ensures NextClaim(3, 2, 2, false) == Some(Range(2, 4))
    ensures CursorAfter(0, 2, n) % 2 == 0
    ensures NextClaim(3, 2, CursorAfter(0, 2, n), false).Some?
  {
    if n > 0 {
      ClaimOverrunsEnd(n - 1);
    }
  }

  /** The evidently intended claim: stop once the cursor has reached or passed end, and
      never hand out keys at or beyond end. A step of 0, with which the code as written
      never moves the cursor, is taken here to claim all of [k, end) at once. */
  function ClampedClaim(end: Uint64, step: Uint64, k: Uint64, done: bool): (r: Option<Range>)
    ensures r.None? <==> (k >= end || done)
    ensures r.Some? ==> r.value.min == k && k < r.value.max <= end
    ensures r.Some? && step > 0 ==> r.value.max == (if end - k <= step then end else k + step)
  {
    if k >= end || done then None
    else Some(Range(k, if end - k <= step || step == 0 then end else k + step))
  }

  /** The ranges handed out by successive clamped claims from k, until none is left. */
  function ClampedRanges(end: Uint64, step: Uint64, k: Uint64): seq<Range>
    decreases end - k
  {
    match ClampedClaim(end, step, k, false)
    case None => []
    case Some(r) => [r] + ClampedRanges(end, step, r.max)
  }

  /** The clamped claims tile [k, end): they start at k, each range is non-empty and
      begins where the previous one ended, and the last one ends exactly at end. */
  lemma {:induction false} ClampedRangesTile(end: Uint64, step: Uint64, k: Uint64)
    ensures var rs := ClampedRanges(end, step, k);
      && (|rs| == 0 <==> k >= end)
      && (|rs| > 0 ==> rs[0].min == k && rs[|rs| - 1].max == end)
      && (forall i :: 0 <= i < |rs| ==> k <= rs[i].min < rs[i].max <= end)
      && (forall i :: 0 <= i < |rs| - 1 ==> rs[i].max == rs[i + 1].min)
    decreases end - k
  {
    var rs := ClampedRanges(end, step, k);
    if k < end {
      var r := ClampedClaim(end, step, k, false).value;
      ClampedRangesTile(end, step, r.max);
      var tail := ClampedRanges(end, step, r.max);
      assert rs == [r] + tail;
      forall i | 0 <= i < |rs| - 1
        ensures rs[i].max == rs[i + 1].min
      {
        if i > 0 {
          assert rs[i] == tail[i - 1] && rs[i + 1] == tail[i];
        }
      }
    }
  }

  /** The clamped ranges follow one another without overlap: every range ends at or
      before the start of every later one. */
  lemma {:induction false} ClampedRangesDisjoint(end: Uint64, step: Uint64, k: Uint64)
    ensures var rs := ClampedRanges(end, step, k);
      forall i, j :: 0 <= i < j < |rs| ==> rs[i].max <= rs[j].min
  {
    var rs := ClampedRanges(end, step, k);
    ClampedRangesTile(end, step, k);
    forall i, j | 0 <= i < j < |rs|
      ensures rs[i].max <= rs[j].min
    {
      var m := i + 1;
      while m < j
        invariant i < m <= j
        invariant rs[i].max <= rs[m].min
      {
        m := m + 1;
      }
    }
  }

  /** Every key of [k, end) lies in some clamped range, and by ClampedRangesDisjoint in
      no other. */
  lemma ClampedRangesCover(end: Uint64, step: Uint64, k: Uint64, key: Uint64)
    requires k <= key < end
    ensures exists i :: (0 <= i < |ClampedRanges(end, step, k)|
                         && ClampedRanges(end, step, k)[i].min <= key < ClampedRanges(end, step, k)[i].max)
    decreases end - k
  {
    var r := ClampedClaim(end, step, k, false).value;
    var tail := ClampedRanges(end, step, r.max);
    assert ClampedRanges(end, step, k) == [r] + tail;
    if key >= r.max {
      ClampedRangesCover(end, step, r.max, key);
      var i :| 0 <= i < |tail| && tail[i].min <= key < tail[i].max;
      assert ClampedRanges(end, step, k)[i + 1] == tail[i];
    } else {
      assert ClampedRanges(end, step, k)[0] == r;
    }
  }

  /** The worker state behind the mutex: the cursor k and the done flag. */
  class Dispatcher {
    const end: Uint64
    const step: Uint64
    var k: Uint64
    var done: bool

    constructor (start: Uint64, end: Uint64, step: Uint64)
      ensures this.end == end && this.step == step && k == start && !done
    {
      this.end := end;
      this.step := step;
      k := start;
      done := false;
    }

    /** One claim: nothing once the cursor is at end or the key was found; otherwise the
        range from the cursor of length step, the cursor moving to its end. */
    method Claim() returns (r: Option<Range>)
      modifies this
      ensures r == NextClaim(end, step, old(k), old(done))
      ensures k == (if r.Some? then r.value.max else old(k)) && done == old(done)
    {
      if k == end || done {
        return None;
      }
      var min, max := k, AddWrap(k, step);
      k := max;
      return Some(Range(min, max));
    }

    /** The claim step as evidently intended (ClampedClaim): the last range is cut at end
        and the workers stop once the cursor reaches it, so the ranges handed out tile
        [start, end) (ClampedRangesTile). */
    method ClaimClamped() returns (r: Option<Range>)
      modifies this
      ensures r == ClampedClaim(end, step, old(k), old(done))
      ensures k == (if r.Some? then r.value.max else old(k)) && done == old(done)
    {
      if k >= end || done {
        return None;
      }
      var max := if end - k <= step || step == 0 then end else k + step;
      r := Some(Range(k, max));
      k := max;
    }

    /** Set by a worker that found the key. */
    method MarkFound()
      modifies this
      ensures done && k == old(k)
    {
      done := true;
    }
  }
}
