/** Halving and thirding modulo p, and the range checks of field elements (bitvm/src/bn254/fp254impl.rs, fq.rs, fr.rs). */
module FieldDiv {
  import opened Arithmetic
  import opened ScriptMachine
  import opened Limbs
  import opened StackMoves
  import opened NumberMoves
  import opened LimbIo
  import opened BigMul
  import opened FieldAdd
  import opened DivideLimbs
  import M = Tmul

  /** The script of `push_hex` for a number of the width. */
  function PushNumber(w: Width, v: nat): Script
    requires Valid(w)
  {
    PushNums(Reverse(Number(w, v))) + PushCopies(0, NLimbs(w) - |Number(w, v)|)
  }

  /** `div2`, with (p + 1) / 2 as a constant. */
  function Div2Mod(w: Width, p: nat, half: nat): Script
    requires Valid(w) && Head(w) >= 2
  {
    Div2Rem(w) + [If(PushNumber(w, half) + AddMod(w, p, 1, 0), [])]
  }

  /** `div3`, with (2p + 1) / 3 and (p + 2) / 3 as constants. */
  function Div3Mod(w: Width, p: nat, third: nat, twoThirds: nat): Script
    requires Valid(w) && Head(w) >= 5
  {
    Div3Rem(w) +
    [Dup, Num(0), GreaterThan,
     If([Sub1, If(PushNumber(w, twoThirds) + AddMod(w, p, 1, 0), PushNumber(w, third) + AddMod(w, p, 1, 0))], [Drop])]
  }

  lemma {:induction false} PushNumberRun(w: Width, v: nat, r: Stack, alt: Stack)
    requires Valid(w) && v < Capacity(w)
    ensures Exec(PushNumber(w, v), Running(r, alt)) == Running(On(w, v, r), alt)
  {
    hide Exec;
    hide On;
    hide PushNums;
    hide PushCopies;
    hide Digits;
    hide NLimbs;
    NumberIsNat(w, v);
    PushesDigits(w, v, Number(w, v));
  }

  lemma {:induction false} NumberIsNat(w: Width, v: nat)
    requires Valid(w) && v < Capacity(w)
    ensures forall i :: 0 <= i < NLimbs(w) ==> Number(w, v)[i] >= 0
  {
    CapacityIsScale(w);
    DigitsInRange(NLimbs(w) - 1, Base(w), HeadOffset(w), v);
  }

  lemma {:induction false} PushAndAdd(w: Width, p: nat, c: nat, x: nat, r: Stack, alt: Stack)
    requires Roomy(w) && p < Capacity(w) && x < p && c < p && 2 * NLimbs(w) < 0x7FFF_FF00
    ensures Exec(PushNumber(w, c) + AddMod(w, p, 1, 0), Running(On(w, x, r), alt)) == Running(On(w, (x + c) % p, r), alt)
  {
    hide Exec;
    hide On;
    hide PushNumber;
    hide AddMod;
    hide Pair;
    hide Prepend;
    hide NLimbs;
    hide Number;
    hide Head;
    ExecAppend(PushNumber(w, c), AddMod(w, p, 1, 0), Running(On(w, x, r), alt));
    PushNumberRun(w, c, On(w, x, r), alt);
    TopPair(w, x, c, r);
    AddModCorrect(w, p, 1, 0, [], [], x, c, r, alt);
  }

  /** `div2` leaves the unique residue whose double is the number. */
  lemma {:induction false} Div2ModCorrect(w: Width, p: nat, half: nat, x: nat, r: Stack, alt: Stack)
    requires Roomy(w) && Head(w) >= 2 && p < Capacity(w) && 2 * half == p + 1 && x < p && 2 * NLimbs(w) < 0x7FFF_FF00
    ensures Exec(Div2Mod(w, p, half), Running(On(w, x, r), alt)) == Running(On(w, Half(x, p), r), alt)
    ensures Half(x, p) < p && (2 * Half(x, p)) % p == x
  {
    hide Exec;
    hide Step;
    hide On;
    hide Div2Rem;
    hide PushNumber;
    hide AddMod;
    hide NLimbs;
    hide Head;
    hide Lo;
    hide Up;
    MoreStackRules();
    var add := PushNumber(w, half) + AddMod(w, p, 1, 0);
    ExecAppend(Div2Rem(w), [If(add, [])], Running(On(w, x, r), alt));
    Div2RemCorrect(w, x, r, alt);
    HalfIsHalf(x, p, half);
    Exec1(If(add, []), Running(Cell(Lo(x, 2), On(w, Up(x, 2), r)), alt));
    Exec0(Running(On(w, Up(x, 2), r), alt));
    if Lo(x, 2) == 1 { PushAndAdd(w, p, half, Up(x, 2), r, alt); }
  }

  /** Half of x modulo an odd p. */
  function Half(x: nat, p: nat): nat {
    if x % 2 == 0 then x / 2 else (x + p) / 2
  }

  lemma {:induction false} HalfIsHalf(x: nat, p: nat, half: nat)
    requires x < p && 2 * half == p + 1
    ensures Up(x, 2) >= 0
    ensures Lo(x, 2) == 0 ==> Half(x, p) == Up(x, 2)
    ensures Lo(x, 2) == 1 ==> 0 <= Up(x, 2) < p && half < p && (Up(x, 2) + half) % p == Half(x, p)
    ensures Half(x, p) < p && (2 * Half(x, p)) % p == x
  {
    var h := x / 2;
    if x % 2 == 0 {
      DivModUnique(2 * h, p, 0, x);
    } else {
      assert x + p == 2 * (h + half);
      DivModUnique(h + half, p, 0, h + half);
      DivModUnique(2 * (h + half), p, 1, x);
    }
  }

  /** A third of x modulo a p that is one more than a multiple of three. */
  function Third(x: nat, p: nat): nat {
    if x % 3 == 0 then x / 3 else if x % 3 == 1 then (x + 2 * p) / 3 else (x + p) / 3
  }

  lemma {:induction false} ThirdIsThird(x: nat, p: nat, third: nat, twoThirds: nat)
    requires x < p && 3 * third == 2 * p + 1 && 3 * twoThirds == p + 2
    ensures Up(x, 3) >= 0 && Up(x, 3) < p && 0 <= Lo(x, 3) <= 2
    ensures Lo(x, 3) == 0 ==> Third(x, p) == Up(x, 3)
    ensures Lo(x, 3) == 1 ==> third < p && (Up(x, 3) + third) % p == Third(x, p)
    ensures Lo(x, 3) == 2 ==> twoThirds < p && (Up(x, 3) + twoThirds) % p == Third(x, p)
    ensures Third(x, p) < p && (3 * Third(x, p)) % p == x
  {
    var h := x / 3;
    if x % 3 == 0 {
      DivModUnique(3 * h, p, 0, x);
    } else if x % 3 == 1 {
      assert x + 2 * p == 3 * (h + third);
      DivModUnique(h + third, p, 0, h + third);
      DivModUnique(3 * (h + third), p, 2, x);
    } else {
      assert x + p == 3 * (h + twoThirds);
      DivModUnique(h + twoThirds, p, 0, h + twoThirds);
      DivModUnique(3 * (h + twoThirds), p, 1, x);
    }
  }

  /** `div3` leaves the unique residue whose triple is the number. */
  lemma {:induction false} Div3ModCorrect(w: Width, p: nat, third: nat, twoThirds: nat, x: nat, r: Stack, alt: Stack)
    requires Roomy(w) && Head(w) >= 5 && p < Capacity(w) && x < p && 2 * NLimbs(w) < 0x7FFF_FF00
    requires 3 * third == 2 * p + 1 && 3 * twoThirds == p + 2
    ensures Exec(Div3Mod(w, p, third, twoThirds), Running(On(w, x, r), alt)) == Running(On(w, Third(x, p), r), alt)
    ensures Third(x, p) < p && (3 * Third(x, p)) % p == x
  {
    hide Exec;
    hide Step;
    hide On;
    hide Div3Rem;
    hide PushNumber;
    hide AddMod;
    hide NLimbs;
    hide Head;
    hide Lo;
    hide Up;
    hide Third;
    StackRules();
    MoreStackRules();
    NumberRules();
    var add1, add2 := PushNumber(w, third) + AddMod(w, p, 1, 0), PushNumber(w, twoThirds) + AddMod(w, p, 1, 0);
    var inner := [Sub1, If(add2, add1)];
    ExecAppend(Div3Rem(w), [Dup, Num(0), GreaterThan, If(inner, [Drop])], Running(On(w, x, r), alt));
    Div3RemCorrect(w, x, r, alt);
    ThirdIsThird(x, p, third, twoThirds);
    var c, rest := Lo(x, 3), On(w, Up(x, 3), r);
    Exec4(Dup, Num(0), GreaterThan, If(inner, [Drop]), Running(Cell(c, rest), alt));
    Exec1(Drop, Running(Cell(c, rest), alt));
    Exec2(Sub1, If(add2, add1), Running(Cell(c, rest), alt));
    if c == 1 { PushAndAdd(w, p, third, Up(x, 3), r, alt); }
    if c == 2 { PushAndAdd(w, p, twoThirds, Up(x, 3), r, alt); }
  }

  /** Halves and thirds modulo p are unique. */
  lemma {:induction false} DivisionUnique(d: nat, p: nat, g: nat, h: nat)
    requires (d == 2 || d == 3) && p % d == 1 && g < p && h < p && (d * g) % p == (d * h) % p
    ensures g == h
  {
    if g < h { NoMultiple(d, p, g, h); }
    if h < g { NoMultiple(d, p, h, g); }
  }

  lemma {:induction false} NoMultiple(d: nat, p: nat, g: nat, h: nat)
    requires (d == 2 || d == 3) && p % d == 1 && g < h < p
    ensures (d * g) % p != (d * h) % p
  {
    var a, b := (d * h) / p, (d * g) / p;
    assert d * h == a * p + (d * h) % p;
    assert d * g == b * p + (d * g) % p;
    QuotientSplit(a, b, p);
    Distribute(d, h, g);
    NotAMultiple(d, p, h - g, a - b);
  }

  lemma {:induction false} QuotientSplit(a: int, b: int, p: int)
    ensures (a - b) * p == a * p - b * p
  {
  }

  lemma {:induction false} Distribute(d: int, h: int, g: int)
    ensures d * (h - g) == d * h - d * g
  {
  }

  /** Neither p nor 2p is a multiple of d, so no small multiple of d is a multiple of p. */
  lemma {:induction false} NotAMultiple(d: nat, p: nat, e: nat, q: int)
    requires (d == 2 || d == 3) && p % d == 1 && 0 < e < p
    ensures d * e != q * p
  {
    if q <= 0 {
      MulMono(q, 0, p);
    } else if q >= d {
      MulMono(d, q, p);
      MulMono(e + 1, p, d);
    } else {
      var m := p / d;
      DivModUnique(d * e, d, e, 0);
      assert q == 1 || q == 2;
      assert q * p == if q == 1 then p else 2 * p;
      DivModUnique(2 * p, d, if d == 2 then p else 2 * m, if d == 2 then 0 else 2);
    }
  }

  // ---------- the constants of the two fields ----------

  const FQ: nat := M.MODULUS
  const FR: nat := 0x30644e72e131a029b85045b68181585d2833e84879b9709143e1f593f0000001

  const FQ_HALF: nat := 0x183227397098d014dc2822db40c0ac2ecbc0b548b438e5469e10460b6c3e7ea4
  const FQ_THIRD: nat := 0x2042def740cbc01bd03583cf0100e593ba56470b9af68708d2c05d6490535385
  const FQ_TWO_THIRDS: nat := 0x10216f7ba065e00de81ac1e7808072c9dd2b2385cd7b438469602eb24829a9c3

  const FR_HALF: nat := 0x183227397098d014dc2822db40c0ac2e9419f4243cdcb848a1f0fac9f8000001
  const FR_THIRD: nat := 0x2042def740cbc01bd03583cf0100e59370229adafbd0f5b62d414e62a0000001
  const FR_TWO_THIRDS: nat := 0x10216f7ba065e00de81ac1e7808072c9b8114d6d7de87adb16a0a73150000001

  /** The limbs listed in the source. */
  const FQ_LIMBS: seq<int> :=
    [0x187cfd47, 0x10460b6, 0x1c72a34f, 0x2d522d0, 0x1585d978, 0x2db40c0, 0xa6e141, 0xe5c2634, 0x30644e]
  const FR_LIMBS: seq<int> :=
    [0x10000001, 0x1f0fac9f, 0xe5c2450, 0x7d090f3, 0x1585d283, 0x2db40c0, 0xa6e141, 0xe5c2634, 0x30644e]

  /** The constants meet the equations on which halving and thirding rest. */
  lemma {:induction false} ConstantsMeetEquations()
    ensures 2 * FQ_HALF == FQ + 1 && 3 * FQ_THIRD == 2 * FQ + 1 && 3 * FQ_TWO_THIRDS == FQ + 2
    ensures 2 * FR_HALF == FR + 1 && 3 * FR_THIRD == 2 * FR + 1 && 3 * FR_TWO_THIRDS == FR + 2
  {
  }

  lemma {:induction false} Base29()
    ensures Pow2(29) == 0x2000_0000
  {
    assert Pow2(10) == 1024;
    Pow2Add(10, 10);
    Pow2Add(20, 9);
    assert Pow2(9) == 512;
  }

  lemma {:induction false} ValueStep(b: nat, x: int, t: seq<int>)
    ensures Value(b, [x] + t) == x + b * Value(b, t)
  {
    assert ([x] + t)[1..] == t;
  }

  lemma {:induction false} ModuliInRange()
    ensures InRange(0x2000_0000, 0x2000_0000, FQ_LIMBS) && InRange(0x2000_0000, 0x2000_0000, FR_LIMBS)
  {
  }

  /** The listed limbs are those of the moduli. */
  lemma {:induction false} LimbsOfModuli()
    ensures NLimbs(Width(254, 29)) == 9
    ensures FQ_LIMBS == Number(Width(254, 29), FQ) && FR_LIMBS == Number(Width(254, 29), FR)
  {
    hide Value;
    hide Digits;
    hide InRange;
    U254IsRoomy();
    ModuliValues();
    ModuliInRange();
    SpelledLimbs(FQ_LIMBS, FQ);
    SpelledLimbs(FR_LIMBS, FR);
  }

  lemma {:induction false} SpelledLimbs(l: seq<int>, v: nat)
    requires |l| == 9 && NLimbs(Width(254, 29)) == 9 && InRange(0x2000_0000, 0x2000_0000, l) && Value(0x2000_0000, l) == v
    ensures l == Number(Width(254, 29), v)
  {
    hide Value;
    hide Digits;
    hide InRange;
    hide Scale;
    hide NLimbs;
    Base29();
    hide Pow2;
    InRangeIsDigits(0x2000_0000, 0x2000_0000, l);
  }

  lemma {:induction false} ThreeLimbs(b: nat, x: int, y: int, z: int, t: seq<int>)
    ensures Value(b, [x, y, z] + t) == x + b * (y + b * (z + b * Value(b, t)))
  {
    hide Value;
    ValueStep(b, z, t);
    ValueStep(b, y, [z] + t);
    ValueStep(b, x, [y] + ([z] + t));
    assert [x, y, z] + t == [x] + ([y] + ([z] + t));
  }

  /** A number of nine limbs, written out. */
  lemma {:induction false} NineLimbs(b: nat, l: seq<int>)
    requires |l| == 9
    ensures Value(b, l) ==
            l[0] + b * (l[1] + b * (l[2] + b * (l[3] + b * (l[4] + b * (l[5] + b * (l[6] + b * (l[7] + b * l[8])))))))
  {
    var r, t := l[6..], l[3..];
    assert l == [l[0], l[1], l[2]] + t && t == [l[3], l[4], l[5]] + r && r == [l[6], l[7], l[8]] + [];
    assert Value(b, []) == 0;
    hide Value;
    ThreeLimbs(b, l[6], l[7], l[8], []);
    ThreeLimbs(b, l[3], l[4], l[5], r);
    ThreeLimbs(b, l[0], l[1], l[2], t);
  }

  lemma {:induction false} ModuliValues()
    ensures Value(0x2000_0000, FQ_LIMBS) == FQ && Value(0x2000_0000, FR_LIMBS) == FR
  {
    hide Value;
    NineLimbs(0x2000_0000, FQ_LIMBS);
    NineLimbs(0x2000_0000, FR_LIMBS);
  }
}
