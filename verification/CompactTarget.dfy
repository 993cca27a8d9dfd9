/** 256-bit integers as bytes, the compact target encoding, and the byte-wise proof-of-work check of
    header-chain/src/header_chain.rs. */
module CompactTarget {
  import opened Arithmetic
  import opened Wrappers
  import opened Hashing

  /** 2^256 and 2^255. */
  const U256_MODULUS: nat := 0x1_0000_0000_0000_0000_0000_0000_0000_0000_0000_0000_0000_0000_0000_0000_0000_0000
  const U256_HALF: nat := 0x8000_0000_0000_0000_0000_0000_0000_0000_0000_0000_0000_0000_0000_0000_0000_0000

  lemma {:induction false} U256Powers()
    ensures Pow2(255) == U256_HALF && Pow2(256) == U256_MODULUS
  {
    hide Pow2;
    Pow2Of32();
    Pow2Add(32, 32);
    Pow2Add(64, 64);
    Pow2Add(128, 128);
    Pow2Succ(255);
  }

  /** `wrapping_add` and `wrapping_mul` keep the residue modulo 2^256. */
  function Wrap256(n: nat): (r: nat)
    ensures r < U256_MODULUS
  {
    n % U256_MODULUS
  }

  lemma {:induction false} Wrap256Small(n: nat)
    requires n < U256_MODULUS
    ensures Wrap256(n) == n
  {
  }

  lemma {:induction false} WrapAdd(a: nat, b: nat)
    ensures Wrap256(Wrap256(a) + b) == Wrap256(a + b)
  {
    var q, q2 := a / U256_MODULUS, (a % U256_MODULUS + b) / U256_MODULUS;
    DivModUnique(a + b, U256_MODULUS, q + q2, (a % U256_MODULUS + b) % U256_MODULUS);
  }

  /** Comparison with 2^255 and 2^256 through the number of binary digits. */
  lemma {:induction false} BitLength256(t: nat)
    ensures t < U256_MODULUS <==> BitLength(t) <= 256
    ensures t < U256_HALF <==> BitLength(t) <= 255
  {
    U256Powers();
    BitLengthAtMost(t, 255);
    BitLengthAtMost(t, 256);
  }

  lemma {:induction false} BitLengthAtMost(t: nat, k: nat)
    ensures t < Pow2(k) <==> BitLength(t) <= k
  {
    if t > 0 {
      BitLengthBounds(t);
      if BitLength(t) <= k { Pow2Mono(BitLength(t), k); } else { Pow2Mono(k, BitLength(t) - 1); }
    }
  }

  type U32 = n: nat | n < 0x1_0000_0000

  type I32 = n: int | -0x8000_0000 <= n < 0x8000_0000

  /** The number a big-endian byte string denotes. */
  function BeValue(s: seq<Byte>): nat {
    if s == [] then 0 else 256 * BeValue(s[..|s| - 1]) + s[|s| - 1]
  }

  function Mirrored(s: seq<Byte>): (r: seq<Byte>)
    ensures |r| == |s| && forall i :: 0 <= i < |s| ==> r[i] == s[|s| - 1 - i]
  {
    seq(|s|, i requires 0 <= i < |s| => s[|s| - 1 - i])
  }

  /** The number a little-endian byte string denotes. */
  function LeValue(s: seq<Byte>): nat {
    BeValue(Mirrored(s))
  }

  function BeBytes(n: nat, k: nat): (r: seq<Byte>)
    ensures |r| == k
  {
    if k == 0 then [] else BeBytes(n / 256, k - 1) + [n % 256]
  }

  function LeBytes(n: nat, k: nat): (r: seq<Byte>)
    ensures |r| == k
  {
    Mirrored(BeBytes(n, k))
  }

  function Le32(n: nat): (r: seq<Byte>)
    ensures |r| == 4
  {
    LeBytes(n, 4)
  }

  lemma {:induction false} BeRoundTrip(n: nat, k: nat)
    requires n < Pow2(8 * k)
    ensures BeValue(BeBytes(n, k)) == n
  {
    if k > 0 {
      Pow2Add(8 * (k - 1), 8);
      assert Pow2(8) == 256;
      BeRoundTrip(n / 256, k - 1);
      assert BeBytes(n, k)[..k - 1] == BeBytes(n / 256, k - 1);
    }
  }

  lemma {:induction false} LeRoundTrip(n: nat, k: nat)
    requires n < Pow2(8 * k)
    ensures LeValue(LeBytes(n, k)) == n
  {
    hide BeBytes;
    hide BeValue;
    BeRoundTrip(n, k);
    assert Mirrored(LeBytes(n, k)) == BeBytes(n, k);
  }

  /** The first byte of a little-endian string has the weight one, that of a big-endian one the highest. */
  lemma {:induction false} BytesWritten(b: Byte, s: seq<Byte>)
    ensures LeValue([]) == 0 && BeValue([]) == 0
    ensures LeValue([b] + s) == b + 256 * LeValue(s)
    ensures BeValue([b] + s) == b * Pow2(8 * |s|) + BeValue(s)
    decreases |s|
  {
    assert Mirrored([]) == [];
    var m := Mirrored([b] + s);
    assert m == Mirrored(s) + [b] && m[..|m| - 1] == Mirrored(s);
    if s == [] {
      assert [b] + s == [b] && [b][..0] == [] && Pow2(0) == 1;
    } else {
      var t, x := s[..|s| - 1], s[|s| - 1];
      assert ([b] + s)[..|s|] == [b] + t;
      BytesWritten(b, t);
      Pow2Add(8 * |t|, 8);
      assert Pow2(8) == 256;
      BeStep(b, Pow2(8 * |t|), Pow2(8 * |s|), BeValue(t), x);
    }
  }

  lemma {:induction false} BeStep(b: nat, p: nat, q: nat, v: nat, x: nat)
    requires q == p * 256
    ensures 256 * (b * p + v) + x == b * q + (256 * v + x)
  {
    MulAssoc(b, p, 256);
  }

  lemma {:induction false} BeBound(s: seq<Byte>)
    ensures BeValue(s) < Pow2(8 * |s|)
  {
    if s != [] {
      BeBound(s[..|s| - 1]);
      Pow2Add(8 * (|s| - 1), 8);
      assert Pow2(8) == 256;
    }
  }

  /** `to_be_bytes`. */
  function ToBytes(n: nat): (r: Digest)
    requires n < U256_MODULUS
    ensures BeValue(r) == n
  {
    U256Powers();
    BeRoundTrip(n, 32);
    BeBytes(n, 32)
  }

  /** The first differing byte decides the comparison of two numbers. */
  lemma {:induction false} FirstDifference(a: seq<Byte>, b: seq<Byte>, i: nat)
    requires |a| == |b| && i < |a| && a[..i] == b[..i] && a[i] < b[i]
    ensures BeValue(a) < BeValue(b)
  {
    var n := |a| - 1;
    if i < n {
      assert a[..n][..i] == a[..i] && b[..n][..i] == b[..i];
      FirstDifference(a[..n], b[..n], i);
    } else {
      assert a[..n] == b[..n];
    }
  }

  /** `check_hash_valid`: the source panics where this returns false. */
  method CheckHashValid(hash: Digest, target: Digest) returns (ok: bool)
    ensures ok == (LeValue(hash) <= BeValue(target))
  {
    ghost var mirrored := Mirrored(hash);
    for i := 0 to 32
      invariant mirrored[..i] == target[..i]
    {
      if hash[31 - i] < target[i] {
        FirstDifference(mirrored, target, i);
        return true;
      } else if hash[31 - i] > target[i] {
        FirstDifference(target, mirrored, i);
        return false;
      }
      assert mirrored[..i + 1] == mirrored[..i] + [target[i]] && target[..i + 1] == target[..i] + [target[i]];
    }
    assert mirrored == mirrored[..32] && target == target[..32];
    return true;
  }

  // ---------- the compact encoding ----------

  /** `bits_to_target`: a left shift by 256 or more bits leaves zero. */
  function BitsToTarget(bits: nat): (r: nat) {
    var size := bits / 0x100_0000;
    var mantissa := bits % 0x100_0000;
    if size <= 3 then ShiftedRight(mantissa, 8 * (3 - size)) else Wrap256(ShiftedLeft(mantissa, 8 * (size - 3)))
  }

  function ShiftedRight(m: nat, k: nat): nat {
    DivNonNeg(m, Pow2(k));
    m / Pow2(k)
  }

  function ShiftedLeft(m: nat, k: nat): nat {
    MulNonNeg(m, Pow2(k));
    m * Pow2(k)
  }

  /** The exponent the encoder chooses: whole bytes, with room for the sign bit of the mantissa. */
  function Exponent(target: nat): int {
    33 - (263 - BitLength(target)) / 8
  }

  /** `target_to_bits`; None where the source indexes outside the 32 bytes. */
  function TargetToBits(target: nat): (r: Option<nat>)
    requires target < U256_MODULUS
  {
    var e := Exponent(target);
    if 3 <= e <= 32 then Some(e * 0x100_0000 + ShiftedRight(target, 8 * (e - 3)) % 0x100_0000) else None
  }

  lemma {:induction false} Slice(s: seq<Byte>, k: nat)
    requires k <= |s|
    ensures BeValue(s[..k]) == ShiftedRight(BeValue(s), 8 * (|s| - k))
    decreases |s| - k
  {
    if k == |s| {
      assert s[..k] == s;
      assert Pow2(0) == 1;
    } else {
      var d := 8 * (|s| - k - 1);
      Slice(s, k + 1);
      assert s[..k + 1][..k] == s[..k];
      assert BeValue(s[..k]) == BeValue(s[..k + 1]) / 256;
      DivDiv(BeValue(s), Pow2(d), 256);
      Pow2Add(d, 8);
      assert Pow2(8) == 256;
    }
  }

  function Be3(a: int, b: int, c: int): int {
    0x1_0000 * a + 0x100 * b + c
  }

  lemma {:induction false} LastThree(s: seq<Byte>)
    requires |s| >= 3
    ensures BeValue(s) % 0x100_0000 == Be3(s[|s| - 3], s[|s| - 2], s[|s| - 1])
  {
    var a := s[..|s| - 1];
    var b := a[..|a| - 1];
    var c := b[..|b| - 1];
    assert BeValue(s) == 256 * BeValue(a) + s[|s| - 1];
    assert BeValue(a) == 256 * BeValue(b) + s[|s| - 2];
    assert BeValue(b) == 256 * BeValue(c) + s[|s| - 3];
    DivModUnique(BeValue(s), 0x100_0000, BeValue(c), Be3(s[|s| - 3], s[|s| - 2], s[|s| - 1]));
  }

  lemma {:induction false} DigestBound(s: Digest)
    ensures BeValue(s) < U256_MODULUS
    ensures BitLength(BeValue(s)) <= 256
  {
    BeBound(s);
    U256Powers();
    BitLength256(BeValue(s));
  }

  /** The encoder on bytes, as written: three bytes starting at the leading one. */
  method EncodeTarget(target: Digest) returns (r: Option<nat>)
    ensures BeValue(target) < U256_MODULUS
    ensures r == TargetToBits(BeValue(target))
  {
    DigestBound(target);
    hide ShiftedRight;
    hide BeValue;
    hide BitLength;
    var targetBits := BitLength(BeValue(target));
    var size := (263 - targetBits) / 8;
    if size - 1 < 0 || size + 1 >= 32 { return None; }
    Slice(target, size + 2);
    LastThree(target[..size + 2]);
    return Some(0x100_0000 * (33 - size) + Be3(target[size - 1], target[size], target[size + 1]));
  }

  /** Which targets the encoder accepts, and how the chosen exponent frames them. */
  lemma {:induction false} EncoderDomain(t: nat)
    requires t < U256_MODULUS
    ensures TargetToBits(t).Some? <==> 0x8000 <= t < U256_HALF
    ensures TargetToBits(t).Some? ==>
              var k := 8 * (Exponent(t) - 3); k >= 0 && 0x8000 * Pow2(k) <= t < 0x80_0000 * Pow2(k)
  {
    Pow2Small();
    BitLength256(t);
    BitLengthAtMost(t, 15);
    if TargetToBits(t).Some? { ExponentFrames(t, 8 * (Exponent(t) - 3)); }
  }

  lemma {:induction false} ExponentFrames(t: nat, k: nat)
    requires k + 15 < BitLength(t) <= k + 23
    ensures 0x8000 * Pow2(k) <= t < 0x80_0000 * Pow2(k)
  {
    Pow2Small();
    BitLengthAtMost(t, k + 15);
    BitLengthAtMost(t, k + 23);
    Pow2Add(k, 15);
    Pow2Add(k, 23);
  }

  lemma {:induction false} Pow2Small()
    ensures Pow2(8) == 0x100 && Pow2(15) == 0x8000 && Pow2(16) == 0x1_0000
    ensures Pow2(23) == 0x80_0000 && Pow2(24) == 0x100_0000
  {
    assert Pow2(8) == 0x100;
    Pow2Add(8, 7);
    assert Pow2(7) == 0x80;
    Pow2Add(8, 8);
    Pow2Add(8, 15);
    Pow2Add(8, 16);
  }

  lemma {:induction false} MantissaFits(m: nat, k: nat)
    requires m < 0x80_0000 && k <= 232
    ensures m * Pow2(k) < U256_HALF
  {
    Pow2Small();
    U256Powers();
    MulMono(m, 0x80_0000 - 1, Pow2(k));
    Pow2Add(23, k);
    Pow2Mono(23 + k, 255);
  }

  /** A compact value written as exponent and mantissa decodes to mantissa times a power of 256. */
  lemma {:induction false} DecodeParts(e: nat, m: nat)
    requires 3 <= e <= 32 && m < 0x80_0000
    ensures BitsToTarget(e * 0x100_0000 + m) == m * Pow2(8 * (e - 3)) < U256_HALF
  {
    DivModUnique(e * 0x100_0000 + m, 0x100_0000, e, m);
    MantissaFits(m, 8 * (e - 3));
    assert ShiftedLeft(m, 8 * (e - 3)) == m * Pow2(8 * (e - 3));
    ShiftByZero(m);
    Wrap256Small(m * Pow2(8 * (e - 3)));
    hide ShiftedLeft;
    hide ShiftedRight;
    hide Wrap256;
  }

  /** The decoder in one formula, for any 32 bits: the mantissa's point stands after its third byte. */
  lemma {:induction false} DecodeWritten(bits: U32)
    ensures bits % 0x100_0000 * Pow2(8 * (bits / 0x100_0000)) >= 0
    ensures BitsToTarget(bits) == bits % 0x100_0000 * Pow2(8 * (bits / 0x100_0000)) / 0x100_0000 % U256_MODULUS
  {
    hide Pow2;
    var size, m := bits / 0x100_0000, bits % 0x100_0000;
    Pow2Small();
    MulNonNeg(m, Pow2(8 * size));
    if size <= 3 {
      var up, down := Pow2(8 * size), Pow2(8 * (3 - size));
      Pow2Add(8 * size, 8 * (3 - size));
      Cancelled(m, up, down);
      DivAtMost(m, down);
      DivModUnique(m / down, U256_MODULUS, 0, m / down);
    } else {
      Pow2Add(8 * (size - 3), 24);
      MulAssoc(m, Pow2(8 * (size - 3)), 0x100_0000);
      MulNonNeg(m, Pow2(8 * (size - 3)));
      DivModUnique(m * Pow2(8 * size), 0x100_0000, m * Pow2(8 * (size - 3)), 0);
    }
  }

  lemma {:induction false} Cancelled(m: nat, up: nat, down: nat)
    requires up > 0 && down > 0
    ensures up * down > 0 && m * up / (up * down) == m / down
  {
    MulMono(1, up, down);
    var q, r := m / down, m % down;
    assert m == q * down + r;
    assert m * up == q * (up * down) + r * up;
    MulMono(r + 1, down, up);
    MulNonNeg(r, up);
    DivModUnique(m * up, up * down, q, r * up);
  }

  lemma {:induction false} DivAtMost(m: nat, d: nat)
    requires d > 0
    ensures 0 <= m / d <= m
  {
    var q := m / d;
    assert m == q * d + m % d;
    MulMono(1, d, q);
  }

  lemma {:induction false} ShiftByZero(m: nat)
    ensures ShiftedRight(m, 0) == m && m * Pow2(0) == m
  {
    assert Pow2(0) == 1;
  }

  lemma {:induction false} MantissaRange(t: nat, unit: nat)
    requires unit > 0 && 0x8000 * unit <= t < 0x80_0000 * unit
    ensures 0x8000 <= t / unit < 0x80_0000
  {
    var m := t / unit;
    assert m * unit <= t < (m + 1) * unit;
    if m < 0x8000 { MulMono(m + 1, 0x8000, unit); }
    if m >= 0x80_0000 { MulMono(0x80_0000, m, unit); }
  }

  lemma {:induction false} TruncationError(t: nat, unit: nat, m: nat)
    requires unit > 0 && m == t / unit && m >= 0x8000
    ensures m * unit <= t && (t - m * unit) * 0x8000 < m * unit && t - m * unit < unit
  {
    assert t - m * unit < unit;
    MulMono(0x8000, m, unit);
  }

  /** Encoding keeps the top 16 to 23 bits: the decoded target is at most the target, by less than one part in 2^15 and by less
      than the weight of the mantissa's last bit, so no other mantissa comes closer from below. */
  lemma {:induction false} EncodeThenDecode(t: nat)
    requires 0x8000 <= t < U256_HALF
    ensures TargetToBits(t).Some?
    ensures var bits := TargetToBits(t).value;
            var t' := BitsToTarget(bits);
            3 <= bits / 0x100_0000 <= 32 && 0x8000 <= bits % 0x100_0000 <= 0x7F_FFFF &&
            t' <= t && (t - t') * 0x8000 < t' && t - t' < Pow2(8 * (bits / 0x100_0000 - 3))
  {
    EncoderDomain(t);
    var e := Exponent(t);
    var unit := Pow2(8 * (e - 3));
    var m := t / unit;
    MantissaRange(t, unit);
    TruncationError(t, unit, m);
    DivModUnique(m, 0x100_0000, 0, m);
    DivModUnique(e * 0x100_0000 + m, 0x100_0000, e, m);
    DecodeParts(e, m);
  }

  /** Decoding then encoding is the identity on normalised compact values. */
  lemma {:induction false} DecodeThenEncode(bits: nat)
    requires 3 <= bits / 0x100_0000 <= 32 && 0x8000 <= bits % 0x100_0000 <= 0x7F_FFFF
    ensures BitsToTarget(bits) < U256_MODULUS && TargetToBits(BitsToTarget(bits)) == Some(bits)
  {
    hide BitsToTarget;
    hide TargetToBits;
    var e, m := bits / 0x100_0000, bits % 0x100_0000;
    DecodeParts(e, m);
    EncodeParts(m, e);
  }

  lemma {:induction false} EncodeParts(m: nat, e: nat)
    requires 0x8000 <= m < 0x80_0000 && 3 <= e <= 32 && m * Pow2(8 * (e - 3)) < U256_MODULUS
    ensures TargetToBits(m * Pow2(8 * (e - 3))) == Some(e * 0x100_0000 + m)
  {
    hide Pow2;
    hide Exponent;
    ExponentOfProduct(m, e);
    DivModUnique(m * Pow2(8 * (e - 3)), Pow2(8 * (e - 3)), m, 0);
    DivModUnique(m, 0x100_0000, 0, m);
  }

  lemma {:induction false} ExponentOfProduct(m: nat, e: nat)
    requires 0x8000 <= m < 0x80_0000 && 3 <= e <= 32
    ensures Exponent(m * Pow2(8 * (e - 3))) == e
  {
    var k := 8 * (e - 3);
    var t := m * Pow2(k);
    Pow2Small();
    Pow2Add(k, 15);
    Pow2Add(k, 23);
    FrameProduct(m, Pow2(k));
    LengthFromFrame(t, k);
    ExponentFromLength(t, e);
  }

  lemma {:induction false} FrameProduct(m: nat, unit: nat)
    requires 0x8000 <= m < 0x80_0000 && unit > 0
    ensures 0x8000 * unit <= m * unit < 0x80_0000 * unit
  {
    MulMono(0x8000, m, unit);
    MulMono(m + 1, 0x80_0000, unit);
  }

  lemma {:induction false} LengthFromFrame(t: nat, k: nat)
    requires Pow2(k + 15) <= t < Pow2(k + 23)
    ensures k + 15 < BitLength(t) <= k + 23
  {
    BitLengthAtMost(t, k + 15);
    BitLengthAtMost(t, k + 23);
  }

  lemma {:induction false} ExponentFromLength(t: nat, e: nat)
    requires 3 <= e && 8 * (e - 3) + 15 < BitLength(t) <= 8 * (e - 3) + 23
    ensures Exponent(t) == e
  {
    DivModUnique(263 - BitLength(t), 8, 33 - e, 263 - BitLength(t) - 8 * (33 - e));
  }
}
