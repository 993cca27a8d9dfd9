/** Powers of two, bitwise operators on naturals and the few nonlinear facts the other modules need. */
module Arithmetic {

  function Pow2(n: nat): (r: nat)
    ensures r > 0
  {
    if n == 0 then 1 else 2 * Pow2(n - 1)
  }

  lemma {:induction false} Pow2Add(a: nat, b: nat)
    ensures Pow2(a + b) == Pow2(a) * Pow2(b)
  {
    if a == 0 {
    } else {
      Pow2Add(a - 1, b);
      MulAssoc(2, Pow2(a - 1), Pow2(b));
    }
  }

  lemma {:induction false} Pow2Mono(a: nat, b: nat)
    requires a <= b
    ensures Pow2(a) <= Pow2(b)
  {
    if a < b { Pow2Mono(a, b - 1); }
  }

  lemma {:induction false} Pow2StrictMono(a: nat, b: nat)
    requires a < b
    ensures 2 * Pow2(a) <= Pow2(b)
  {
    Pow2Mono(a + 1, b);
  }

  lemma {:induction false} Pow2Succ(n: nat)
    ensures Pow2(n + 1) == 2 * Pow2(n)
  {
  }

  lemma {:induction false} PowerBound(i: nat)
    requires i <= 30
    ensures Pow2(i) <= 0x4000_0000
  {
    assert Pow2(10) == 1024;
    Pow2Add(10, 10);
    Pow2Add(20, 10);
    Pow2Mono(i, 30);
  }

  lemma {:induction false} Pow2Of32()
    ensures Pow2(32) == 0x1_0000_0000
  {
    assert Pow2(8) == 0x100;
    Pow2Add(8, 8);
    Pow2Add(16, 16);
  }

  /** n shifted right by k. */
  function Shr(n: nat, k: nat): nat
  {
    if k == 0 then n else Shr(n, k - 1) / 2
  }

  lemma {:induction false} ShrIsDiv(n: nat, k: nat)
    ensures Shr(n, k) == n / Pow2(k)
  {
    if k > 0 {
      ShrIsDiv(n, k - 1);
      DivDiv(n, Pow2(k - 1), 2);
    }
  }

  lemma {:induction false} ShrHalf(n: nat, k: nat)
    ensures Shr(n / 2, k) == Shr(n, k + 1)
  {
    if k > 0 { ShrHalf(n, k - 1); }
  }

  /** `wrapping_add(1)` on 32-bit counters. */
  function WrappingInc(n: nat): (r: nat)
    ensures n < 0x1_0000_0000 ==> r < 0x1_0000_0000 && r == (n + 1) % 0x1_0000_0000
  {
    if n + 1 == 0x1_0000_0000 then 0 else n + 1
  }

  lemma {:induction false} MulAssoc(a: int, b: int, c: int)
    ensures a * (b * c) == (a * b) * c
  {
  }

  lemma {:induction false} MulMono(a: int, b: int, c: int)
    requires a <= b && 0 <= c
    ensures a * c <= b * c && c * a <= c * b
  {
  }

  lemma {:induction false} MulNonNeg(a: int, b: int)
    requires 0 <= a && 0 <= b
    ensures 0 <= a * b
  {
  }

  lemma {:induction false} DivNonNeg(n: nat, d: nat)
    requires d > 0
    ensures 0 <= n / d
  {
    var q := n / d;
    assert n == q * d + n % d;
    if q < 0 { MulMono(q, -1, d); }
  }

  /** Euclidean division is characterised by its defining equation. */
  lemma {:induction false} DivModUnique(n: int, d: int, q: int, r: int)
    requires d > 0 && 0 <= r < d && n == q * d + r
    ensures n / d == q && n % d == r
  {
    var q', r' := n / d, n % d;
    assert n == q' * d + r';
    assert (q - q') * d == r' - r;
    if q > q' { MulMono(1, q - q', d); }
    if q < q' { MulMono(q - q', -1, d); }
  }

  lemma {:induction false} DivDiv(n: nat, a: nat, b: nat)
    requires a > 0 && b > 0
    ensures a * b > 0 && n / (a * b) == n / a / b
  {
    var q, r := n / a, n % a;
    var q2, r2 := q / b, q % b;
    MulMono(1, b, a);
    MulMono(r2, b - 1, a);
    assert n == (q2 * b + r2) * a + r;
    assert (q2 * b + r2) * a + r == q2 * (a * b) + (r2 * a + r) by {
      assert (q2 * b) * a == q2 * (a * b);
    }
    assert r2 * a + r < a * b;
    DivModUnique(n, a * b, q2, r2 * a + r);
  }

  /** The bitwise exclusive or of two unsigned integers. */
  function BitXor(a: nat, b: nat): nat
    decreases a + b
  {
    if a == 0 && b == 0 then 0
    else 2 * BitXor(a / 2, b / 2) + (if a % 2 == b % 2 then 0 else 1)
  }

  /** The bitwise conjunction of two unsigned integers. */
  function BitAnd(a: nat, b: nat): nat
    decreases a
  {
    if a == 0 then 0
    else 2 * BitAnd(a / 2, b / 2) + (if a % 2 == 1 && b % 2 == 1 then 1 else 0)
  }

  /** Number of binary digits of n; an unsigned machine word of width w has w - BitLength leading zeros. */
  function BitLength(n: nat): nat
  {
    if n == 0 then 0 else 1 + BitLength(n / 2)
  }

  /** Number of set bits. */
  function Ones(n: nat): nat
  {
    if n == 0 then 0 else n % 2 + Ones(n / 2)
  }

  /** Appending a low bit commutes with reduction modulo a power of two. */
  lemma {:induction false} DoubleMod(h: nat, bit: nat, m: nat)
    requires bit < 2 && m > 0
    ensures (2 * h + bit) % (2 * m) == 2 * (h % m) + bit
    ensures (2 * h + bit) / (2 * m) == h / m
  {
    var q, r := h / m, h % m;
    assert 2 * h + bit == q * (2 * m) + (2 * r + bit);
    DivModUnique(2 * h + bit, 2 * m, q, 2 * r + bit);
  }

  lemma {:induction false} BitAndMask(a: nat, k: nat)
    ensures BitAnd(a, Pow2(k) - 1) == a % Pow2(k)
    decreases k
  {
    if k == 0 {
      BitAndZero(a);
    } else {
      var m := Pow2(k - 1);
      assert (Pow2(k) - 1) / 2 == m - 1;
      BitAndMask(a / 2, k - 1);
      var h := a / 2;
      DoubleMod(h, a % 2, m);
      assert a == 2 * h + a % 2;
    }
  }

  lemma {:induction false} BitAndZero(a: nat)
    ensures BitAnd(a, 0) == 0
  {
    if a > 0 { BitAndZero(a / 2); }
  }

  lemma {:induction false} BitAndEven(a: nat, m: nat)
    ensures BitAnd(a, 2 * m) == 2 * BitAnd(a / 2, m)
  {
    assert 2 * m / 2 == m && 2 * m % 2 == 0;
    if a == 0 { assert BitAnd(0 / 2, m) == 0; }
  }

  /** Testing one bit with a shifted one. */
  lemma {:induction false} BitAndBit(a: nat, k: nat)
    ensures (BitAnd(a, Pow2(k)) != 0) == (Shr(a, k) % 2 == 1)
    decreases k
  {
    if k == 0 {
      if a > 0 { BitAndZero(a / 2); }
    } else {
      ShrHalf(a, k - 1);
      BitAndBit(a / 2, k - 1);
      BitAndEven(a, Pow2(k - 1));
    }
  }

  lemma {:induction false} BitLengthBounds(n: nat)
    requires n > 0
    ensures BitLength(n) >= 1
    ensures Pow2(BitLength(n) - 1) <= n < Pow2(BitLength(n))
  {
    if n > 1 { BitLengthBounds(n / 2); }
  }

  lemma {:induction false} BitLengthUnique(n: nat, k: nat)
    requires k >= 1 && Pow2(k - 1) <= n < Pow2(k)
    ensures BitLength(n) == k
  {
    BitLengthBounds(n);
    if BitLength(n) < k { Pow2Mono(BitLength(n), k - 1); }
    if BitLength(n) > k { Pow2Mono(k, BitLength(n) - 1); }
  }
}
