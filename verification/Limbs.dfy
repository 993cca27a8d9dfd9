/** Big integers on the script stack: base-b limbs with the least significant one on top (bitvm/src/bigint/mod.rs). */
module Limbs {
  import opened Arithmetic
  import opened ScriptMachine

  /** `BigIntImpl<N_BITS, LIMB_SIZE>`. */
  datatype Width = Width(nBits: nat, limb: nat)

  /** More than one limb. */
  predicate Shaped(w: Width) {
    0 < w.limb < w.nBits
  }

  /** The two compile-time assertions: more than one limb, limbs below 31 bits. */
  predicate Valid(w: Width) {
    Shaped(w) && w.limb < 31
  }

  function NLimbs(w: Width): (n: nat)
    requires Shaped(w)
    ensures n >= 2 && (n - 1) * w.limb < w.nBits <= n * w.limb
  {
    Ceiling(w.nBits, w.limb);
    (w.nBits + w.limb - 1) / w.limb
  }

  /** Bits in the most significant limb. */
  function Head(w: Width): (h: nat)
    requires Shaped(w)
    ensures 0 < h <= w.limb && w.nBits == (NLimbs(w) - 1) * w.limb + h
  {
    SplitProduct(NLimbs(w), w.limb);
    w.nBits - (NLimbs(w) - 1) * w.limb
  }

  function Base(w: Width): nat {
    Pow2(w.limb)
  }

  function HeadOffset(w: Width): nat
    requires Shaped(w)
  {
    Pow2(Head(w))
  }

  /** One more than the largest number of that width. */
  function Capacity(w: Width): nat {
    Pow2(w.nBits)
  }

  lemma {:induction false} Ceiling(n: nat, d: nat)
    requires 0 < d < n
    ensures var q := (n + d - 1) / d; q >= 2 && (q - 1) * d < n <= q * d
  {
    var q := (n + d - 1) / d;
    assert n + d - 1 == q * d + (n + d - 1) % d;
    SplitProduct(q, d);
    if q <= 1 { MulMono(q, 1, d); }
  }

  lemma {:induction false} SplitProduct(q: int, d: int)
    ensures (q - 1) * d == q * d - d
  {
  }

  // ---------- digits ----------

  function Lo(v: int, b: nat): (r: nat)
    requires b > 0
    ensures r < b
  {
    v % b
  }

  lemma {:induction false} LoIsMod(v: int, b: nat)
    requires b > 0
    ensures Lo(v, b) == v % b
  {
  }

  function Up(v: int, b: nat): int
    requires b > 0
  {
    v / b
  }

  lemma {:induction false} Split(v: int, b: nat)
    requires b > 0
    ensures v == Up(v, b) * b + Lo(v, b)
  {
  }

  lemma {:induction false} SplitUnique(v: int, b: nat, q: int, r: nat)
    requires r < b && v == q * b + r
    ensures Up(v, b) == q && Lo(v, b) == r
  {
    DivModUnique(v, b, q, r);
  }

  /** v without its j lowest limbs. */
  function Hi(j: nat, b: nat, v: int): int
    requires b > 0
  {
    if j == 0 then v else Hi(j - 1, b, Up(v, b))
  }

  /** The j lowest limbs of v, least significant first. */
  function Low(j: nat, b: nat, v: int): (l: seq<int>)
    requires b > 0
    ensures |l| == j
  {
    if j == 0 then [] else [Lo(v, b)] + Low(j - 1, b, Up(v, b))
  }

  /** v as k limbs and a most significant limb that takes the rest. */
  function Digits(k: nat, b: nat, v: int): (l: seq<int>)
    requires b > 0
    ensures |l| == k + 1
  {
    Low(k, b, v) + [Hi(k, b, v)]
  }

  /** The limbs of a number of width w. */
  function Number(w: Width, v: int): (l: seq<int>)
    requires Shaped(w)
    ensures |l| == NLimbs(w)
  {
    Digits(NLimbs(w) - 1, Base(w), v)
  }

  /** The number v on top of the stack. */
  function On(w: Width, v: int, r: Stack): Stack
    requires Shaped(w)
  {
    Prepend(Number(w, v), r)
  }

  /** The value of a list of limbs. */
  function Value(b: nat, l: seq<int>): int {
    if l == [] then 0 else l[0] + b * Value(b, l[1..])
  }

  /** h times the j-th power of b. */
  function Scale(j: nat, b: nat, h: nat): nat {
    if j == 0 then h else MulNonNeg(b, Scale(j - 1, b, h)); b * Scale(j - 1, b, h)
  }

  lemma {:induction false} ScaleIsPow2(j: nat, l: nat, h: nat)
    ensures 0 <= j * l && Scale(j, Pow2(l), Pow2(h)) == Pow2(j * l + h)
    decreases j
  {
    MulNonNeg(j, l);
    if j > 0 {
      SplitProduct(j, l);
      ScaleIsPow2(j - 1, l, h);
      Pow2Add(l, (j - 1) * l + h);
    }
  }

  lemma {:induction false} CapacityIsScale(w: Width)
    requires Shaped(w)
    ensures Capacity(w) == Scale(NLimbs(w) - 1, Base(w), HeadOffset(w))
  {
    ScaleIsPow2(NLimbs(w) - 1, w.limb, Head(w));
  }

  /** A number is below h shifted up by j limbs exactly when what lies above its j limbs is below h. */
  lemma {:induction false} HiBelow(j: nat, b: nat, h: nat, v: int)
    requires b > 0
    ensures Hi(j, b, v) < h <==> v < Scale(j, b, h)
    decreases j
  {
    if j > 0 {
      HiBelow(j - 1, b, h, Up(v, b));
      Split(v, b);
      hide Up;
      hide Lo;
      BelowProduct(v, Up(v, b), Lo(v, b), b, Scale(j - 1, b, h));
    }
  }

  lemma {:induction false} BelowProduct(v: int, q: int, r: nat, b: nat, c: int)
    requires r < b && v == q * b + r
    ensures q < c <==> v < b * c
  {
    if q < c { MulMono(q + 1, c, b); } else { MulMono(c, q, b); }
  }

  /** Reduction modulo the capacity keeps the low limbs and reduces the top one. */
  lemma {:induction false} DigitsOfMod(j: nat, b: nat, h: nat, v: int)
    requires b > 0 && h > 0
    ensures Scale(j, b, h) > 0
    ensures Low(j, b, v % Scale(j, b, h)) == Low(j, b, v)
    ensures Hi(j, b, v % Scale(j, b, h)) == Hi(j, b, v) % h
    decreases j
  {
    if j > 0 {
      var c := Scale(j - 1, b, h);
      DigitsOfMod(j - 1, b, h, Up(v, b));
      ModOfProduct(v, b, c);
    }
  }

  lemma {:induction false} ModOfProduct(v: int, b: nat, c: nat)
    requires b > 0 && c > 0
    ensures b * c > 0 && Lo(v % (b * c), b) == Lo(v, b) && Up(v % (b * c), b) == Up(v, b) % c
  {
    var q, r := Up(v, b), Lo(v, b);
    var qq, qr := q / c, q % c;
    Split(v, b);
    MulMono(1, c, b);
    hide Up;
    hide Lo;
    assert q == qq * c + qr;
    Regroup(qq, c, qr, b);
    BelowProduct(qr * b + r, qr, r, b, c);
    DivModUnique(v, b * c, qq, qr * b + r);
    SplitUnique(qr * b + r, b, qr, r);
  }

  lemma {:induction false} Regroup(q: int, c: int, r: int, b: int)
    ensures (q * c + r) * b == q * (b * c) + r * b
  {
    MulAssoc(q, c, b);
  }

  /** Digits add up to the number they spell. */
  lemma {:induction false} ValueOfDigits(k: nat, b: nat, v: int)
    requires b > 0
    ensures Value(b, Digits(k, b, v)) == v
    decreases k
  {
    if k > 0 {
      ValueOfDigits(k - 1, b, Up(v, b));
      DigitsStep(k, b, v);
      Split(v, b);
    }
  }

  lemma {:induction false} DigitsStep(k: nat, b: nat, v: int)
    requires b > 0 && k > 0
    ensures Digits(k, b, v) == [Lo(v, b)] + Digits(k - 1, b, Up(v, b))
    ensures Digits(k, b, v)[1..] == Digits(k - 1, b, Up(v, b))
  {
  }

  lemma {:induction false} NoLimbs(b: nat, v: int)
    requires b > 0
    ensures Low(0, b, v) == [] && Hi(0, b, v) == v && Digits(0, b, v) == [v]
  {
  }

  lemma {:induction false} NextLimb(k: nat, b: nat, v: int)
    requires b > 0 && k > 0
    ensures Hi(k, b, v) == Hi(k - 1, b, Up(v, b))
    ensures Low(k, b, v) == [Lo(v, b)] + Low(k - 1, b, Up(v, b))
  {
  }

  /** The limbs of v on the stack, from the least significant one on. */
  function Stacked(k: nat, b: nat, v: int, r: Stack): Stack
    requires b > 0
  {
    if k == 0 then Cell(v, r) else Cell(Lo(v, b), Stacked(k - 1, b, Up(v, b), r))
  }

  lemma {:induction false} DigitsAreStacked(k: nat, b: nat, v: int, r: Stack)
    requires b > 0
    ensures Prepend(Digits(k, b, v), r) == Stacked(k, b, v, r)
    decreases k
  {
    if k == 0 {
      assert Digits(0, b, v) == [v] && [v][1..] == [];
    } else {
      DigitsStep(k, b, v);
      DigitsAreStacked(k - 1, b, Up(v, b), r);
    }
  }

  /** Limbs in range, the top one below h. */
  predicate InRange(b: nat, h: nat, l: seq<int>) {
    l != [] && 0 <= l[|l| - 1] < h && forall i :: 0 <= i < |l| - 1 ==> 0 <= l[i] < b
  }

  /** Every list of limbs in range is the digits of exactly one number below the capacity. */
  lemma {:induction false} InRangeIsDigits(b: nat, h: nat, l: seq<int>)
    requires b > 0 && InRange(b, h, l)
    ensures 0 <= Value(b, l) < Scale(|l| - 1, b, h)
    ensures l == Digits(|l| - 1, b, Value(b, l))
    decreases |l|
  {
    if |l| > 1 {
      var t := l[1..];
      forall i | 0 <= i < |t| - 1 ensures 0 <= t[i] < b { assert t[i] == l[i + 1]; }
      assert t[|t| - 1] == l[|l| - 1];
      InRangeIsDigits(b, h, t);
      var q := Value(b, t);
      MulNonNeg(b, q);
      SplitUnique(Value(b, l), b, q, l[0]);
      BelowProduct(Value(b, l), q, l[0], b, Scale(|l| - 2, b, h));
      DigitsStep(|l| - 1, b, Value(b, l));
      assert l == [l[0]] + t;
    } else {
      assert Value(b, l) == l[0] + b * Value(b, l[1..]);
      assert l == [l[0]];
    }
  }

  lemma {:induction false} DigitsInRange(k: nat, b: nat, h: nat, v: nat)
    requires b > 0 && v < Scale(k, b, h)
    ensures InRange(b, h, Digits(k, b, v))
    decreases k
  {
    HiBelow(k, b, h, v);
    if k > 0 {
      UpNonNeg(v, b);
      DigitsStep(k, b, v);
      HiBelow(k - 1, b, h, Up(v, b));
      DigitsInRange(k - 1, b, h, Up(v, b));
    }
  }

  lemma {:induction false} UpNonNeg(v: int, b: nat)
    requires b > 0
    ensures v >= 0 <==> Up(v, b) >= 0
  {
    Split(v, b);
    BelowProduct(v, Up(v, b), Lo(v, b), b, 0);
  }

  lemma {:induction false} HiNonNeg(j: nat, b: nat, v: int)
    requires b > 0
    ensures v >= 0 <==> Hi(j, b, v) >= 0
    decreases j
  {
    if j > 0 {
      UpNonNeg(v, b);
      HiNonNeg(j - 1, b, Up(v, b));
    }
  }

  lemma {:induction false} UpUp(v: nat, a: nat, b: nat)
    requires a > 0 && b > 0
    ensures a * b > 0 && Up(v, a) >= 0 && Up(Up(v, a), b) == Up(v, a * b)
  {
    DivDiv(v, a, b);
    UpNonNeg(v, a);
  }

  /** The last limb, seen from the other end. */
  lemma {:induction false} HiLast(j: nat, b: nat, v: int)
    requires b > 0 && j > 0
    ensures Hi(j, b, v) == Up(Hi(j - 1, b, v), b)
    ensures Low(j, b, v) == Low(j - 1, b, v) + [Lo(Hi(j - 1, b, v), b)]
    decreases j
  {
    if j > 1 { HiLast(j - 1, b, Up(v, b)); }
  }

  // ---------- bounds ----------

  lemma {:induction false} BaseBounds(w: Width)
    requires Valid(w)
    ensures 2 <= HeadOffset(w) <= Base(w) <= 0x4000_0000
    ensures HeadOffset(w) == 2 * Pow2(Head(w) - 1)
  {
    assert Pow2(10) == 1024;
    Pow2Add(10, 10);
    Pow2Add(20, 10);
    Pow2Mono(w.limb, 30);
    Pow2Mono(Head(w), w.limb);
    Pow2Mono(1, Head(w));
  }

  lemma {:induction false} HeadBelow(w: Width, v: nat)
    requires Shaped(w) && v < Capacity(w)
    ensures Base(w) > 0 && 0 <= Hi(NLimbs(w) - 1, Base(w), v) < HeadOffset(w)
  {
    hide Hi;
    CapacityIsScale(w);
    HiBelow(NLimbs(w) - 1, Base(w), HeadOffset(w), v);
    HiNonNeg(NLimbs(w) - 1, Base(w), v);
  }

  /** Low limbs below, the reduced head limb on top of the rest: the number modulo the capacity. */
  lemma {:induction false} ReducedOn(w: Width, v: int, r: Stack)
    requires Shaped(w)
    ensures HeadOffset(w) > 0 && Base(w) > 0
    ensures Prepend(Low(NLimbs(w) - 1, Base(w), v), Cell(Lo(Hi(NLimbs(w) - 1, Base(w), v), HeadOffset(w)), r)) ==
            On(w, v % Capacity(w), r)
  {
    hide Low;
    hide Hi;
    hide Prepend;
    var k, b, h := NLimbs(w) - 1, Base(w), HeadOffset(w);
    CapacityIsScale(w);
    DigitsOfMod(k, b, h, v);
    PrependLast(Low(k, b, v), Lo(Hi(k, b, v), h), r);
  }
}
