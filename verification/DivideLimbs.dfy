/** Division of big integers by two and by three with remainder (bitvm/src/bigint/inv.rs). */
module DivideLimbs {
  import opened Arithmetic
  import opened ScriptMachine
  import opened Limbs
  import opened BitConversion

  // ---------- long division ----------

  /** One step of long division from the top limb down: h is the higher part, a the next limb. */
  lemma {:induction false} DivStep(h: int, a: nat, b: nat, d: nat)
    requires 0 < d && a < b
    ensures var t := Lo(h, d) * b + a;
            0 <= t && Up(t, d) < b && 0 <= Up(t, d) &&
            Up(h * b + a, d) == Up(h, d) * b + Up(t, d) && Lo(h * b + a, d) == Lo(t, d)
  {
    hide Lo;
    hide Up;
    var q, e := Up(h, d), Lo(h, d);
    var t := e * b + a;
    Split(h, d);
    Split(t, d);
    MulNonNeg(e, b);
    MulMono(e + 1, d, b);
    assert (e + 1) * b == e * b + b;
    BelowProduct(t, Up(t, d), Lo(t, d), d, b);
    UpNonNeg(t, d);
    MulAssoc(q, d, b);
    MulAssoc(q, b, d);
    assert (q * d + e) * b == (q * d) * b + e * b;
    assert (q * b + Up(t, d)) * d == (q * b) * d + Up(t, d) * d;
    assert d * b == b * d;
    SplitUnique(h * b + a, d, q * b + Up(t, d), Lo(t, d));
  }

  /** The state with i low limbs still to divide: remainder, quotient limbs, undivided limbs. */
  function DivState(i: nat, k: nat, b: nat, v: nat, d: nat, r: Stack, alt: Stack): State
    requires b > 0 && d > 0 && i <= k
  {
    Running(Cell(Lo(Hi(i, b, v), d), Prepend(Digits(k - i, b, Up(Hi(i, b, v), d)) + Low(i, b, v), r)), alt)
  }

  /** What a limb gadget has to do: divide remainder times base plus limb. */
  ghost predicate Divides(gadget: Script, n: nat, d: nat)
    requires d > 0
  {
    forall c: nat, a: nat, r: Stack, alt: Stack {:trigger Exec(gadget, Running(Cell(c, Cell(a, r)), alt))} ::
      c < d && a < Pow2(n) ==>
        Exec(gadget, Running(Cell(c, Cell(a, r)), alt)) ==
        Running(Cell(Lo(c * Pow2(n) + a, d), Cell(Up(c * Pow2(n) + a, d), r)), alt)
  }

  lemma {:induction false} UseDivides(gadget: Script, n: nat, d: nat, c: nat, a: nat, r: Stack, alt: Stack)
    requires d > 0 && Divides(gadget, n, d) && c < d && a < Pow2(n)
    ensures Exec(gadget, Running(Cell(c, Cell(a, r)), alt)) ==
            Running(Cell(Lo(c * Pow2(n) + a, d), Cell(Up(c * Pow2(n) + a, d), r)), alt)
  {
    hide Exec;
    hide Lo;
    hide Up;
    hide Pow2;
  }

  /** `div2rem` and `div3rem` around their limb gadgets. */
  function DivRem(w: Width, head: Script, limb: Script): Script
    requires Valid(w)
  {
    [Num(NLimbs(w) - 1), Roll] + [Num(0)] + head +
    Repeat([Num(NLimbs(w)), Roll] + [Swap] + limb, NLimbs(w) - 1)
  }

  lemma {:induction false} DivTurnRun(gadget: Script, i: nat, k: nat, l: nat, v: nat, d: nat, r: Stack, alt: Stack)
    requires d > 0 && Divides(gadget, l, d) && 0 < i <= k < 0x7FFF_FF00
    ensures Exec([Num(k + 1), Roll] + [Swap] + gadget, DivState(i, k, Pow2(l), v, d, r, alt)) ==
            DivState(i - 1, k, Pow2(l), v, d, r, alt)
  {
    hide Exec;
    hide Step;
    hide Lo;
    hide Up;
    hide Hi;
    hide Low;
    hide Digits;
    hide Pow2;
    hide Prepend;
    hide Divides;
    StackRules();
    var b := Pow2(l);
    var h, c := Hi(i, b, v), Lo(Hi(i, b, v), d);
    var g := Hi(i - 1, b, v);
    var a := Lo(g, b);
    HiLast(i, b, v);
    Split(g, b);
    DivStep(h, a, b, d);
    var q := Digits(k - i, b, Up(h, d));
    var rest := q + Low(i - 1, b, v);
    var s := DivState(i, k, b, v, d, r, alt);
    assert q + Low(i, b, v) == rest + [a];
    PrependLast(rest, a, r);
    PrependFirst(c, rest, Cell(a, r));
    PrependFirst(c, rest, r);
    ExecAppend3([Num(k + 1), Roll], [Swap], gadget, s);
    RollBelow([c] + rest, a, r, alt);
    Exec1(Swap, Running(Cell(a, Cell(c, Prepend(rest, r))), alt));
    UseDivides(gadget, l, d, c, a, Prepend(rest, r), alt);
    var t := c * b + a;
    SplitUnique(Up(g, d), b, Up(h, d), Up(t, d));
    DigitsStep(k - i + 1, b, Up(g, d));
    assert Digits(k - i + 1, b, Up(g, d)) + Low(i - 1, b, v) == [Up(t, d)] + rest;
    PrependFirst(Up(t, d), rest, r);
  }

  lemma {:induction false} DivLoop(gadget: Script, i: nat, k: nat, l: nat, v: nat, d: nat, r: Stack, alt: Stack)
    requires d > 0 && Divides(gadget, l, d) && i <= k < 0x7FFF_FF00
    ensures Exec(Repeat([Num(k + 1), Roll] + [Swap] + gadget, i), DivState(i, k, Pow2(l), v, d, r, alt)) ==
            DivState(0, k, Pow2(l), v, d, r, alt)
    decreases i
  {
    hide Exec;
    hide DivState;
    hide Divides;
    var s := DivState(i, k, Pow2(l), v, d, r, alt);
    if i == 0 {
      Exec0(s);
    } else {
      ExecRepeat([Num(k + 1), Roll] + [Swap] + gadget, i, s);
      DivTurnRun(gadget, i, k, l, v, d, r, alt);
      DivLoop(gadget, i - 1, k, l, v, d, r, alt);
    }
  }

  /** Dividing limb by limb from the top leaves the remainder on top of the quotient. */
  lemma {:induction false} DivRemRun(w: Width, head: Script, limb: Script, d: nat, v: nat, r: Stack, alt: Stack)
    requires Valid(w) && d > 0 && v < Capacity(w) && NLimbs(w) < 0x7FFF_FF00
    requires Divides(head, Head(w), d) && Divides(limb, w.limb, d)
    ensures Exec(DivRem(w, head, limb), Running(On(w, v, r), alt)) == Running(Cell(Lo(v, d), On(w, Up(v, d), r)), alt)
  {
    hide Exec;
    hide Step;
    hide Lo;
    hide Up;
    hide Hi;
    hide Low;
    hide Pow2;
    hide Prepend;
    hide Divides;
    hide Repeat;
    hide NLimbs;
    hide Head;
    StackRules();
    var k, b := NLimbs(w) - 1, Base(w);
    HeadBelow(w, v);
    var a, low := Hi(k, b, v), Low(k, b, v);
    var s := Running(On(w, v, r), alt);
    ExecAppend4([Num(k), Roll], [Num(0)], head, Repeat([Num(k + 1), Roll] + [Swap] + limb, k), s);
    PrependLast(low, a, r);
    RollBelow(low, a, r, alt);
    Exec1(Num(0), Running(Cell(a, Prepend(low, r)), alt));
    UseDivides(head, Head(w), d, 0, a, Prepend(low, r), alt);
    PrependFirst(Up(a, d), low, r);
    NoLimbs(b, Up(a, d));
    DivLoop(limb, k, k, w.limb, v, d, r, alt);
    NoLimbs(b, v);
    assert Number(w, Up(v, d)) + [] == Number(w, Up(v, d));
  }

  // ---------- halving a limb ----------

  /** `limb_shr1_carry`. */
  function LimbShr1Carry(n: nat): Script
    requires n >= 2
  {
    (if n < 7 then PushPowers(0, n - 1) else PushPowers(0, 6) + Repeat([Dup, Dup, Add], n - 7)) +
    ([Num(n - 1), Roll] + [If([Dup], [Num(0)]), ToAlt]) + [Num(n - 1), Roll] +
    Repeat(Shr1Turn(), n - 2) +
    [Dup2, LessThanOrEqual, If([Swap, Sub, FromAlt, Add1], [Nip, FromAlt]), Swap]
  }

  function Shr1Turn(): Script {
    [Dup2, LessThanOrEqual, If([Swap, Sub, Swap, Dup, FromAlt, Add, ToAlt, Swap], [Nip])]
  }

  lemma {:induction false} PushAllPowers(n: nat, r: Stack, alt: Stack)
    requires 2 <= n <= 31
    ensures Exec(if n < 7 then PushPowers(0, n - 1) else PushPowers(0, 6) + Repeat([Dup, Dup, Add], n - 7), Running(r, alt)) ==
            Running(Powers(n - 1, r), alt)
  {
    hide Exec;
    hide PushPowers;
    hide Repeat;
    if n < 7 {
      PushPowersRun(0, n - 1, r, alt);
    } else {
      ExecAppend(PushPowers(0, 6), Repeat([Dup, Dup, Add], n - 7), Running(r, alt));
      PushPowersRun(0, 6, r, alt);
      DoublePowers(6, n - 7, r, alt);
    }
  }

  /** A number below 2^(j+1) with 2^j on the stack below it: the bit moves, halved, to the quotient on the alt stack. */
  lemma {:induction false} Shr1TurnRun(v: nat, q: nat, j: nat, r: Stack, alt: Stack)
    requires 2 <= j <= 30 && v < Pow2(j + 1) && IsNum(q)
    ensures Exec(Shr1Turn(), Running(Cell(v, Powers(j, r)), Cell(q, alt))) ==
            Running(Cell(Lo(v, Pow2(j)), Powers(j - 1, r)), Cell(q + Up(v, Pow2(j)) * Pow2(j - 1), alt))
  {
    hide Exec;
    hide Step;
    hide Lo;
    hide Up;
    hide Pow2;
    StackRules();
    MoreStackRules();
    NumberRules();
    var p, p2 := Pow2(j), Pow2(j - 1);
    PowerIsNum(j);
    PowerIsNum(j - 1);
    Pow2Of31(v, j);
    OneDigit(v, p);
    OneTimes(Up(v, p), p2);
    var rest := Powers(j - 2, r);
    assert Powers(j - 1, r) == Cell(p2, rest);
    var s := Running(Cell(v, Cell(p, Cell(p2, rest))), Cell(q, alt));
    Exec3(Dup2, LessThanOrEqual, If([Swap, Sub, Swap, Dup, FromAlt, Add, ToAlt, Swap], [Nip]), s);
    Exec8(Swap, Sub, Swap, Dup, FromAlt, Add, ToAlt, Swap, s);
    Exec1(Nip, s);
  }

  lemma {:induction false} OneTimes(c: int, p: int)
    ensures c == 0 ==> c * p == 0
    ensures c == 1 ==> c * p == p
  {
  }

  lemma {:induction false} Pow2Of31(v: nat, j: nat)
    requires j <= 30 && v < Pow2(j + 1)
    ensures IsNum(v)
  {
    hide Pow2;
    Pow2Mono(j + 1, 31);
    Pow2Of32();
    Pow2Succ(31);
  }

  lemma {:induction false} Shr1Last(v: nat, q: nat, r: Stack, alt: Stack)
    requires v < 4 && IsNum(q)
    ensures Exec([Dup2, LessThanOrEqual, If([Swap, Sub, FromAlt, Add1], [Nip, FromAlt]), Swap],
                 Running(Cell(v, Cell(2, r)), Cell(q, alt))) ==
            Running(Cell(Lo(v, 2), Cell(q + Up(v, 2), r)), alt)
  {
    hide Exec;
    hide Step;
    hide Lo;
    hide Up;
    StackRules();
    MoreStackRules();
    NumberRules();
    OneDigit(v, 2);
    var s := Running(Cell(v, Cell(2, r)), Cell(q, alt));
    Exec4(Dup2, LessThanOrEqual, If([Swap, Sub, FromAlt, Add1], [Nip, FromAlt]), Swap, s);
    Exec4(Swap, Sub, FromAlt, Add1, s);
    Exec2(Nip, FromAlt, s);
  }

  /** The turns from 2^j down to 4, and the last one. */
  lemma {:induction false} Shr1Loop(v: nat, q: nat, j: nat, r: Stack, alt: Stack)
    requires 1 <= j <= 30 && v < Pow2(j + 1) && q + Up(v, 2) <= 0x7FFF_FFFF
    ensures Exec([Dup2, LessThanOrEqual, If([Swap, Sub, FromAlt, Add1], [Nip, FromAlt]), Swap],
                 Exec(Repeat(Shr1Turn(), j - 1), Running(Cell(v, Powers(j, r)), Cell(q, alt)))) ==
            Running(Cell(Lo(v, 2), Cell(q + Up(v, 2), r)), alt)
    decreases j
  {
    hide Exec;
    hide Shr1Turn;
    hide Lo;
    hide Up;
    hide Pow2;
    UpNonNeg(v, 2);
    var s := Running(Cell(v, Powers(j, r)), Cell(q, alt));
    if j == 1 {
      Exec0(s);
      SmallPowersOfTwo();
      assert Powers(1, r) == Cell(Pow2(1), Powers(0, r));
      Shr1Last(v, q, r, alt);
    } else {
      ExecRepeat(Shr1Turn(), j - 1, s);
      Shr1TurnRun(v, q, j, r, alt);
      HalfStep(v, j);
      var v', q' := Lo(v, Pow2(j)), q + Up(v, Pow2(j)) * Pow2(j - 1);
      Shr1Loop(v', q', j - 1, r, alt);
    }
  }

  lemma {:induction false} HalfStep(v: nat, j: nat)
    requires j > 0
    ensures Lo(Lo(v, Pow2(j)), 2) == Lo(v, 2)
    ensures Up(v, Pow2(j)) * Pow2(j - 1) >= 0
    ensures Up(v, 2) == Up(v, Pow2(j)) * Pow2(j - 1) + Up(Lo(v, Pow2(j)), 2)
  {
    hide Lo;
    hide Up;
    var p, h := Pow2(j), Pow2(j - 1);
    var q, s := Up(v, p), Lo(v, p);
    Split(v, p);
    Split(s, 2);
    UpNonNeg(v, p);
    MulNonNeg(q, h);
    assert q * p == (q * h) * 2;
    SplitUnique(v, 2, q * h + Up(s, 2), Lo(s, 2));
  }

  lemma {:induction false} CarryRun(c: nat, p: nat, r: Stack, alt: Stack)
    requires c < 2
    ensures Exec([If([Dup], [Num(0)]), ToAlt], Running(Cell(c, Cell(p, r)), alt)) == Running(Cell(p, r), Cell(c * p, alt))
  {
    hide Exec;
    hide Step;
    StackRules();
    MoreStackRules();
    OneTimes(c, p);
    Exec2(If([Dup], [Num(0)]), ToAlt, Running(Cell(c, Cell(p, r)), alt));
    Exec1(Dup, Running(Cell(p, r), alt));
    Exec1(Num(0), Running(Cell(p, r), alt));
  }

  /** The powers as a list of cells. */
  function PowerList(j: nat): (l: seq<int>)
    ensures |l| == j
  {
    if j == 0 then [] else [Pow2(j)] + PowerList(j - 1)
  }

  lemma {:induction false} PowersAreList(j: nat, r: Stack)
    ensures Powers(j, r) == Prepend(PowerList(j), r)
    decreases j
  {
    if j > 0 {
      PowersAreList(j - 1, r);
      PrependFirst(Pow2(j), PowerList(j - 1), r);
    }
  }

  lemma {:induction false} Shr1Run(n: nat, c: nat, a: nat, r: Stack, alt: Stack)
    requires 2 <= n <= 30 && c < 2 && a < Pow2(n)
    ensures Exec(LimbShr1Carry(n), Running(Cell(c, Cell(a, r)), alt)) ==
            Running(Cell(Lo(c * Pow2(n) + a, 2), Cell(Up(c * Pow2(n) + a, 2), r)), alt)
  {
    hide Exec;
    hide Lo;
    hide Up;
    hide Pow2;
    hide PushPowers;
    hide Repeat;
    hide Shr1Turn;
    hide Prepend;
    hide PowerList;
    var push := if n < 7 then PushPowers(0, n - 1) else PushPowers(0, 6) + Repeat([Dup, Dup, Add], n - 7);
    var last := [Dup2, LessThanOrEqual, If([Swap, Sub, FromAlt, Add1], [Nip, FromAlt]), Swap];
    var s := Running(Cell(c, Cell(a, r)), alt);
    ExecAppend5(push, [Num(n - 1), Roll] + [If([Dup], [Num(0)]), ToAlt], [Num(n - 1), Roll], Repeat(Shr1Turn(), n - 2), last, s);
    PushAllPowers(n, Cell(c, Cell(a, r)), alt);
    PowersAreList(n - 1, Cell(c, Cell(a, r)));
    PowersAreList(n - 1, Cell(a, r));
    PowersAreList(n - 1, r);
    var l := PowerList(n - 1);
    ExecAppend([Num(n - 1), Roll], [If([Dup], [Num(0)]), ToAlt], Running(Prepend(l, Cell(c, Cell(a, r))), alt));
    RollBelow(l, c, Cell(a, r), alt);
    assert Powers(n - 1, Cell(a, r)) == Cell(Pow2(n - 1), Powers(n - 2, Cell(a, r)));
    CarryRun(c, Pow2(n - 1), Powers(n - 2, Cell(a, r)), alt);
    RollBelow(l, a, r, Cell(c * Pow2(n - 1), alt));
    HalfTotal(n, c, a);
    Shr1Loop(a, c * Pow2(n - 1), n - 1, r, alt);
  }

  lemma {:induction false} HalfTotal(n: nat, c: nat, a: nat)
    requires 2 <= n <= 30 && c < 2 && a < Pow2(n)
    ensures 0 <= c * Pow2(n - 1) && c * Pow2(n - 1) + Up(a, 2) <= 0x7FFF_FFFF
    ensures Lo(c * Pow2(n) + a, 2) == Lo(a, 2) && Up(c * Pow2(n) + a, 2) == c * Pow2(n - 1) + Up(a, 2)
  {
    hide Lo;
    hide Up;
    var h := Pow2(n - 1);
    assert Pow2(n) == 2 * h;
    hide Pow2;
    OneTimes(c, h);
    OneTimes(c, 2 * h);
    Split(a, 2);
    SplitUnique(c * (2 * h) + a, 2, c * h + Up(a, 2), Lo(a, 2));
    PowerIsNum(n - 1);
    PowerIsNum(n);
  }

  function Div2Rem(w: Width): Script
    requires Valid(w) && Head(w) >= 2
  {
    DivRem(w, LimbShr1Carry(Head(w)), LimbShr1Carry(w.limb))
  }

  lemma {:induction false} Shr1Divides(n: nat)
    requires 2 <= n <= 30
    ensures Divides(LimbShr1Carry(n), n, 2)
  {
    hide Exec;
    hide LimbShr1Carry;
    hide Lo;
    hide Up;
    hide Pow2;
    forall c: nat, a: nat, r: Stack, alt: Stack | c < 2 && a < Pow2(n)
      ensures Exec(LimbShr1Carry(n), Running(Cell(c, Cell(a, r)), alt)) ==
              Running(Cell(Lo(c * Pow2(n) + a, 2), Cell(Up(c * Pow2(n) + a, 2), r)), alt)
    {
      Shr1Run(n, c, a, r, alt);
    }
  }

  /** `div2rem` leaves the remainder on top of half the number. The generator needs at least two bits in the head limb. */
  lemma {:induction false} Div2RemCorrect(w: Width, v: nat, r: Stack, alt: Stack)
    requires Valid(w) && Head(w) >= 2 && v < Capacity(w) && NLimbs(w) < 0x7FFF_FF00
    ensures Exec(Div2Rem(w), Running(On(w, v, r), alt)) == Running(Cell(Lo(v, 2), On(w, Up(v, 2), r)), alt)
  {
    hide Exec;
    hide Divides;
    hide DivRem;
    hide LimbShr1Carry;
    hide Head;
    hide NLimbs;
    Shr1Divides(Head(w));
    Shr1Divides(w.limb);
    DivRemRun(w, LimbShr1Carry(Head(w)), LimbShr1Carry(w.limb), 2, v, r, alt);
  }

  // ---------- dividing a limb by three ----------

  function Pow3(n: nat): (r: nat)
    ensures r > 0
  {
    if n == 0 then 1 else 3 * Pow3(n - 1)
  }

  /** The pairs of 3^j and 2 * 3^j on the stack, twice the largest power on top. */
  function Pairs3(j: nat, r: Stack): Stack {
    if j == 0 then r else Cell(2 * Pow3(j - 1), Cell(Pow3(j - 1), Pairs3(j - 1, r)))
  }

  function Div3Turn(): Script {
    [Dup2, LessThanOrEqual, If([Swap, Sub, Num(2), Pick, FromAlt, Add, ToAlt], [Nip])]
  }

  /** The script of `limb_div3_carry` for a given number k of ternary digits. */
  function Div3Script(n: nat, k: nat): Script
    requires k >= 4
  {
    var m := Pow2(n);
    [Num(1), Num(2), Num(3), Num(6), Num(9), Num(18), Num(27), Num(54)] +
    Repeat([Dup2, Add, Dup, Dup, Add], k - 4) +
    ([Num(2 * k), Roll] +
     [Dup, Num(0), GreaterThan,
      If([Sub1, If([Num(m * 2 % 3), Num(m * 2 / 3)], [Num(m % 3), Num(m / 3)])], [Num(0)]), ToAlt]) +
    ([Num(2 * k + 1), Roll] + [Add]) +
    (Repeat(Div3Turn(), 2 * k - 2) + [Nip, Nip, FromAlt, Swap])
  }

  /** k ternary digits are enough for n bits, and no fewer are. */
  ghost predicate TernaryDigits(n: nat, k: nat) {
    Pow2(n) <= Pow3(k) && (k > 0 ==> Pow3(k - 1) < Pow2(n))
  }

  /** `limb_div3_carry`: counts ternary digits in a loop, then emits the script. */
  method LimbDiv3Carry(n: nat) returns (script: Script)
    requires 5 <= n <= 30
    ensures Ternary(n, 0) >= 4 && script == Div3Script(n, Ternary(n, 0))
  {
    var maxLimb := Pow2(n);
    var count: nat := 0;
    var cur := 1;
    assert Pow3(0) == 1;
    while cur < maxLimb
      invariant cur == Pow3(count) && (count > 0 ==> Pow3(count - 1) < maxLimb)
      decreases maxLimb - cur
    {
      assert Pow3(count + 1) == 3 * Pow3(count);
      count := count + 1;
      cur := cur * 3;
    }
    EnoughDigits(n, count);
    TernaryIsLeast(n, 0);
    TernaryUnique(n, count, Ternary(n, 0));
    script := Div3Script(n, count);
  }

  lemma {:induction false} Pow3Mono(a: nat, b: nat)
    requires a <= b
    ensures Pow3(a) <= Pow3(b)
  {
    if a < b { Pow3Mono(a, b - 1); }
  }

  lemma {:induction false} Pow3Succ(n: nat)
    ensures Pow3(n + 1) == 3 * Pow3(n)
  {
  }

  lemma {:induction false} SmallPowersOfTwo()
    ensures Pow2(1) == 2 && Pow2(2) == 4 && Pow2(5) == 32
  {
  }

  lemma {:induction false} SmallPowersOfThree()
    ensures Pow3(0) == 1 && Pow3(1) == 3 && Pow3(2) == 9 && Pow3(3) == 27
  {
    assert Pow3(1) == 3 * Pow3(0);
    assert Pow3(2) == 3 * Pow3(1);
    assert Pow3(3) == 3 * Pow3(2);
  }

  /** At least five bits need at least four digits; at most thirty bits need at most nineteen. */
  lemma {:induction false} EnoughDigits(n: nat, k: nat)
    requires 5 <= n <= 30 && TernaryDigits(n, k)
    ensures 4 <= k <= 19
  {
    hide Pow2;
    hide Pow3;
    SmallPowersOfTwo();
    Pow2Mono(5, n);
    SmallPowersOfThree();
    if k < 4 { Pow3Mono(k, 3); }
    PowerBound(n);
    NineteenDigits();
    if k > 19 { Pow3Mono(19, k - 1); }
  }

  lemma {:induction false} Pow3Add(a: nat, b: nat)
    ensures Pow3(a + b) == Pow3(a) * Pow3(b)
  {
    if a > 0 {
      Pow3Add(a - 1, b);
      MulAssoc(3, Pow3(a - 1), Pow3(b));
    }
  }

  lemma {:induction false} NineteenDigits()
    ensures Pow3(9) == 19683 && Pow3(18) == 387420489 && Pow3(19) == 1162261467
  {
    SmallPowersOfThree();
    Pow3Add(3, 3);
    Pow3Add(6, 3);
    Pow3Add(9, 9);
  }

  // ---------- no power of three is one more than a power of two ----------

  /** Modulo 80 the powers of three are 1, 3, 9 and 27. */
  lemma {:induction false} PowersOfThreeMod80(k: nat) returns (m: nat, e: nat)
    ensures Pow3(k) == 80 * m + e && (e == 1 || e == 3 || e == 9 || e == 27)
    decreases k
  {
    if k == 0 {
      m, e := 0, 1;
    } else {
      m, e := PowersOfThreeMod80(k - 1);
      if e == 27 { m, e := 3 * m + 1, 1; } else { m, e := 3 * m, 3 * e; }
    }
  }

  lemma {:induction false} PowersOfTwoMod5(n: nat)
    ensures Pow2(n) % 5 != 0
    decreases n
  {
    if n > 0 { PowersOfTwoMod5(n - 1); }
  }

  lemma {:induction false} NotNeighbours(n: nat, k: nat)
    requires n >= 4
    ensures Pow3(k) != Pow2(n) + 1
  {
    hide Pow3;
    var q := Pow2(n - 4);
    var m, e := PowersOfThreeMod80(k);
    PowersOfTwoMod5(n - 4);
    assert Pow2(4) == 16;
    Pow2Add(4, n - 4);
    hide Pow2;
  }

  /** Room for a limb plus the largest remainder carried into it. */
  lemma {:induction false} RoomForCarry(n: nat, k: nat)
    requires n >= 4 && TernaryDigits(n, k)
    ensures Pow2(n) + 1 < Pow3(k)
  {
    NotNeighbours(n, k);
    NotEqual(n, k);
  }

  lemma {:induction false} NotEqual(n: nat, k: nat)
    requires n > 0
    ensures Pow3(k) != Pow2(n)
  {
    OddPower(k);
    assert Pow2(n) == 2 * Pow2(n - 1);
  }

  lemma {:induction false} OddPower(k: nat)
    ensures Pow3(k) % 2 == 1
    decreases k
  {
    if k > 0 { OddPower(k - 1); }
  }

  // ---------- the gadget ----------

  lemma {:induction false} Div3TurnRun(v: nat, q: nat, p: nat, p2: int, p3: int, r: Stack, alt: Stack)
    requires IsNum(v) && IsNum(p) && IsNum(q) && IsNum(p3)
    ensures Exec(Div3Turn(), Running(Cell(v, Cell(p, Cell(p2, Cell(p3, r)))), Cell(q, alt))) ==
            if p <= v then Running(Cell(v - p, Cell(p2, Cell(p3, r))), Cell(q + p3, alt))
            else Running(Cell(v, Cell(p2, Cell(p3, r))), Cell(q, alt))
  {
    hide Exec;
    hide Step;
    StackRules();
    MoreStackRules();
    DepthRules();
    NumberRules();
    var s := Running(Cell(v, Cell(p, Cell(p2, Cell(p3, r)))), Cell(q, alt));
    Exec3(Dup2, LessThanOrEqual, If([Swap, Sub, Num(2), Pick, FromAlt, Add, ToAlt], [Nip]), s);
    Exec7(Swap, Sub, Num(2), Pick, FromAlt, Add, ToAlt, s);
    Exec1(Nip, s);
  }

  /** Two turns take off the ternary digit of weight p = 3^j. */
  lemma {:induction false} DigitRun(v: nat, q: nat, p: nat, r: Stack, alt: Stack)
    requires 0 < p && p <= 0x1000_0000 && v < 9 * p && IsNum(v) && q + v / (3 * p) * p <= 0x7FFF_FFFF && v / (3 * p) * p >= 0
    ensures Exec(Div3Turn() + Div3Turn(), Running(Cell(v, Cell(2 * (3 * p), Cell(3 * p, Cell(2 * p, Cell(p, r))))), Cell(q, alt))) ==
            Running(Cell(v - v / (3 * p) * (3 * p), Cell(2 * p, Cell(p, r))), Cell(q + v / (3 * p) * p, alt))
  {
    hide Exec;
    hide Div3Turn;
    var s := Running(Cell(v, Cell(2 * (3 * p), Cell(3 * p, Cell(2 * p, Cell(p, r))))), Cell(q, alt));
    ExecAppend(Div3Turn(), Div3Turn(), s);
    TernaryDigit(v, 3 * p, p);
    Div3TurnRun(v, q, 2 * (3 * p), 3 * p, 2 * p, Cell(p, r), alt);
    if 2 * (3 * p) <= v {
      Div3TurnRun(v - 2 * (3 * p), q + 2 * p, 3 * p, 2 * p, p, r, alt);
    } else {
      Div3TurnRun(v, q, 3 * p, 2 * p, p, r, alt);
    }
  }

  lemma {:induction false} TernaryDigit(v: nat, m: nat, p: nat)
    requires 0 < m && v < 3 * m
    ensures 2 * m <= v ==> v / m * m == 2 * m && v / m * p == 2 * p
    ensures m <= v < 2 * m ==> v / m * m == m && v / m * p == p
    ensures v < m ==> v / m * m == 0 && v / m * p == 0
  {
    var e := if 2 * m <= v then 2 else if m <= v then 1 else 0;
    DivModUnique(v, m, e, v - e * m);
  }

  /** Taking off the digits of weight 3^j down to 3 divides by three. */
  lemma {:induction false} Div3Loop(v: nat, q: nat, j: nat, r: Stack, alt: Stack)
    requires 1 <= j <= 19 && v < Pow3(j) && IsNum(v) && q + Up(v, 3) <= 0x7FFF_FFFF
    ensures Exec(Repeat(Div3Turn() + Div3Turn(), j - 1), Running(Cell(v, Pairs3(j, r)), Cell(q, alt))) ==
            Running(Cell(Lo(v, 3), Cell(2, Cell(1, r))), Cell(q + Up(v, 3), alt))
    decreases j
  {
    hide Exec;
    hide Div3Turn;
    hide Lo;
    hide Up;
    hide Pow3;
    var s := Running(Cell(v, Pairs3(j, r)), Cell(q, alt));
    UpNonNeg(v, 3);
    if j == 1 {
      Exec0(s);
      SmallPowersOfThree();
      SplitUnique(v, 3, 0, v);
      assert Pairs3(1, r) == Cell(2 * Pow3(0), Cell(Pow3(0), Pairs3(0, r)));
    } else {
      ExecRepeat(Div3Turn() + Div3Turn(), j - 1, s);
      var p := Pow3(j - 2);
      Pow3Succ(j - 2);
      Pow3Succ(j - 1);
      Pow3Mono(j - 2, 17);
      SeventeenDigits();
      ThirdStep(v, p);
      DigitRun(v, q, p, Pairs3(j - 2, r), alt);
      Div3Loop(v - v / (3 * p) * (3 * p), q + v / (3 * p) * p, j - 1, r, alt);
    }
  }

  lemma {:induction false} SeventeenDigits()
    ensures Pow3(17) == 129140163
  {
    hide Pow3;
    NineteenDigits();
    Pow3Succ(17);
  }

  lemma {:induction false} ThirdStep(v: nat, p: nat)
    requires p > 0 && v < 9 * p
    ensures var e := v / (3 * p);
            0 <= e <= 2 && 0 <= v - e * (3 * p) < 3 * p && 0 <= e * p <= 2 * p &&
            Lo(v - e * (3 * p), 3) == Lo(v, 3) && Up(v, 3) == e * p + Up(v - e * (3 * p), 3) && Up(v - e * (3 * p), 3) >= 0
  {
    var e := v / (3 * p);
    assert v == e * (3 * p) + v % (3 * p);
    hide Lo;
    hide Up;
    TernaryDigit(v, 3 * p, p);
    var s := v - e * (3 * p);
    Split(s, 3);
    assert e * (3 * p) == (e * p) * 3;
    SplitUnique(v, 3, e * p + Up(s, 3), Lo(s, 3));
    UpNonNeg(s, 3);
    UpNonNeg(v, 3);
  }

  /** The part that turns the incoming remainder into a starting quotient and an addend: c * m == 3 * quotient + addend. */
  lemma {:induction false} CarryOfThree(c: nat, m: nat, r: Stack, alt: Stack)
    requires c < 3
    ensures Exec([Dup, Num(0), GreaterThan,
                  If([Sub1, If([Num(m * 2 % 3), Num(m * 2 / 3)], [Num(m % 3), Num(m / 3)])], [Num(0)]), ToAlt],
                 Running(Cell(c, r), alt)) ==
            Running(Cell(c * m % 3, r), Cell(c * m / 3, alt))
  {
    hide Exec;
    hide Step;
    StackRules();
    MoreStackRules();
    NumberRules();
    var inner := If([Num(m * 2 % 3), Num(m * 2 / 3)], [Num(m % 3), Num(m / 3)]);
    var s := Running(Cell(c, r), alt);
    Exec5(Dup, Num(0), GreaterThan, If([Sub1, inner], [Num(0)]), ToAlt, s);
    Exec2(Sub1, inner, s);
    Exec1(Num(0), s);
    var s2 := Running(r, alt);
    Exec2(Num(m * 2 % 3), Num(m * 2 / 3), s2);
    Exec2(Num(m % 3), Num(m / 3), s2);
    assert c == 2 ==> c * m == m * 2;
    assert c == 1 ==> c * m == m;
    assert c == 0 ==> c * m == 0;
  }

  lemma {:induction false} NextPair(p: nat, r: Stack, alt: Stack)
    requires p <= 0x1000_0000
    ensures Exec([Dup2, Add, Dup, Dup, Add], Running(Cell(2 * p, Cell(p, r)), alt)) ==
            Running(Cell(2 * (3 * p), Cell(3 * p, Cell(2 * p, Cell(p, r)))), alt)
  {
    hide Exec;
    hide Step;
    StackRules();
    NumberRules();
    Exec5(Dup2, Add, Dup, Dup, Add, Running(Cell(2 * p, Cell(p, r)), alt));
  }

  lemma {:induction false} PushPairs(n: nat, j: nat, r: Stack, alt: Stack)
    requires 1 <= j && j + n <= 19
    ensures Exec(Repeat([Dup2, Add, Dup, Dup, Add], n), Running(Pairs3(j, r), alt)) == Running(Pairs3(j + n, r), alt)
    decreases n
  {
    hide Exec;
    hide Pow3;
    var s := Running(Pairs3(j, r), alt);
    if n == 0 {
      Exec0(s);
    } else {
      ExecRepeat([Dup2, Add, Dup, Dup, Add], n, s);
      var p := Pow3(j - 1);
      Pow3Succ(j - 1);
      Pow3Mono(j - 1, 17);
      SeventeenDigits();
      NextPair(p, Pairs3(j - 1, r), alt);
      PushPairs(n - 1, j + 1, r, alt);
    }
  }

  lemma {:induction false} FirstPairs(r: Stack, alt: Stack)
    ensures Exec([Num(1), Num(2), Num(3), Num(6), Num(9), Num(18), Num(27), Num(54)], Running(r, alt)) == Running(Pairs3(4, r), alt)
  {
    hide Exec;
    hide Step;
    hide Pow3;
    StackRules();
    SmallPowersOfThree();
    Exec8(Num(1), Num(2), Num(3), Num(6), Num(9), Num(18), Num(27), Num(54), Running(r, alt));
    assert Pairs3(1, r) == Cell(2, Cell(1, Pairs3(0, r)));
    assert Pairs3(2, r) == Cell(6, Cell(3, Pairs3(1, r)));
    assert Pairs3(3, r) == Cell(18, Cell(9, Pairs3(2, r)));
    assert Pairs3(4, r) == Cell(54, Cell(27, Pairs3(3, r)));
  }

  function PairList(j: nat): (l: seq<int>)
    ensures |l| == 2 * j
  {
    if j == 0 then [] else [2 * Pow3(j - 1), Pow3(j - 1)] + PairList(j - 1)
  }

  lemma {:induction false} PairsAreList(j: nat, r: Stack)
    ensures Pairs3(j, r) == Prepend(PairList(j), r)
    decreases j
  {
    hide Prepend;
    hide Pow3;
    if j == 0 {
      NoCells(r);
    } else {
      PairsAreList(j - 1, r);
      PrependFirst(Pow3(j - 1), PairList(j - 1), r);
      PrependFirst(2 * Pow3(j - 1), [Pow3(j - 1)] + PairList(j - 1), r);
      assert PairList(j) == [2 * Pow3(j - 1)] + ([Pow3(j - 1)] + PairList(j - 1));
    }
  }

  lemma {:induction false} RepeatPairs(p: Script, n: nat)
    ensures Repeat(p, 2 * n) == Repeat(p + p, n)
  {
    if n > 0 {
      RepeatPairs(p, n - 1);
      assert Repeat(p, 2 * n) == p + (p + Repeat(p, 2 * n - 2));
    }
  }

  lemma {:induction false} Div3End(v: nat, q: nat, k: nat, r: Stack, alt: Stack)
    requires 4 <= k <= 19 && v < Pow3(k) && IsNum(v) && q + Up(v, 3) <= 0x7FFF_FFFF
    ensures Exec(Repeat(Div3Turn(), 2 * k - 2) + [Nip, Nip, FromAlt, Swap], Running(Cell(v, Pairs3(k, r)), Cell(q, alt))) ==
            Running(Cell(Lo(v, 3), Cell(q + Up(v, 3), r)), alt)
  {
    hide Exec;
    hide Step;
    hide Div3Turn;
    hide Repeat;
    hide Lo;
    hide Up;
    hide Pow3;
    hide Pairs3;
    StackRules();
    MoreStackRules();
    RepeatPairs(Div3Turn(), k - 1);
    ExecAppend(Repeat(Div3Turn(), 2 * k - 2), [Nip, Nip, FromAlt, Swap], Running(Cell(v, Pairs3(k, r)), Cell(q, alt)));
    Div3Loop(v, q, k, r, alt);
    Exec4(Nip, Nip, FromAlt, Swap, Running(Cell(Lo(v, 3), Cell(2, Cell(1, r))), Cell(q + Up(v, 3), alt)));
  }

  lemma {:induction false} ThirdTotal(c: nat, m: nat, a: nat)
    requires c < 3 && a < m <= 0x4000_0000
    ensures var v, q := a + c * m % 3, c * m / 3;
            0 <= v <= m + 1 && 0 <= q && q + Up(v, 3) <= 0x7FFF_FFFF &&
            Lo(c * m + a, 3) == Lo(v, 3) && Up(c * m + a, 3) == q + Up(v, 3)
  {
    hide Lo;
    hide Up;
    var t := c * m;
    MulNonNeg(c, m);
    MulMono(c, 2, m);
    var q, e := t / 3, t % 3;
    assert t == 3 * q + e;
    var v := a + e;
    Split(v, 3);
    SplitUnique(t + a, 3, q + Up(v, 3), Lo(v, 3));
  }

  lemma {:induction false} Div3Run(n: nat, k: nat, c: nat, a: nat, r: Stack, alt: Stack)
    requires 5 <= n <= 30 && k >= 4 && TernaryDigits(n, k) && c < 3 && a < Pow2(n)
    ensures Exec(Div3Script(n, k), Running(Cell(c, Cell(a, r)), alt)) ==
            Running(Cell(Lo(c * Pow2(n) + a, 3), Cell(Up(c * Pow2(n) + a, 3), r)), alt)
  {
    hide Exec;
    hide Step;
    hide Div3Turn;
    hide Repeat;
    hide Lo;
    hide Up;
    hide Pow3;
    hide Pow2;
    hide Pairs3;
    hide PairList;
    hide Prepend;
    hide TernaryDigits;
    var m := Pow2(n);
    EnoughDigits(n, k);
    PowerBound(n);
    ThirdTotal(c, m, a);
    var e, q := c * m % 3, c * m / 3;
    var v := a + e;
    RoomForCarry(n, k);
    var s := Running(Cell(c, Cell(a, r)), alt);
    var carry := [Dup, Num(0), GreaterThan,
                  If([Sub1, If([Num(m * 2 % 3), Num(m * 2 / 3)], [Num(m % 3), Num(m / 3)])], [Num(0)]), ToAlt];
    ExecAppend5([Num(1), Num(2), Num(3), Num(6), Num(9), Num(18), Num(27), Num(54)], Repeat([Dup2, Add, Dup, Dup, Add], k - 4),
                [Num(2 * k), Roll] + carry, [Num(2 * k + 1), Roll] + [Add],
                Repeat(Div3Turn(), 2 * k - 2) + [Nip, Nip, FromAlt, Swap], s);
    FirstPairs(Cell(c, Cell(a, r)), alt);
    PushPairs(k - 4, 4, Cell(c, Cell(a, r)), alt);
    Div3Middle(k, c, m, a, r, alt);
    Div3End(v, q, k, r, alt);
  }

  /** Between the powers and the digits: fetch the carry, fetch the limb. */
  lemma {:induction false} Div3Middle(k: nat, c: nat, m: nat, a: nat, r: Stack, alt: Stack)
    requires c < 3 && 4 <= k <= 19 && a < m <= 0x4000_0000
    ensures var carry := [Dup, Num(0), GreaterThan,
                          If([Sub1, If([Num(m * 2 % 3), Num(m * 2 / 3)], [Num(m % 3), Num(m / 3)])], [Num(0)]), ToAlt];
            Exec([Num(2 * k + 1), Roll] + [Add],
                 Exec([Num(2 * k), Roll] + carry, Running(Pairs3(k, Cell(c, Cell(a, r))), alt))) ==
            Running(Cell(a + c * m % 3, Pairs3(k, r)), Cell(c * m / 3, alt))
  {
    hide Exec;
    hide Step;
    hide Pairs3;
    hide PairList;
    hide Prepend;
    NumberRules();
    var e, q := c * m % 3, c * m / 3;
    var carry := [Dup, Num(0), GreaterThan,
                  If([Sub1, If([Num(m * 2 % 3), Num(m * 2 / 3)], [Num(m % 3), Num(m / 3)])], [Num(0)]), ToAlt];
    var l := PairList(k);
    PairsAreList(k, Cell(c, Cell(a, r)));
    PairsAreList(k, r);
    ExecAppend([Num(2 * k), Roll], carry, Running(Prepend(l, Cell(c, Cell(a, r))), alt));
    RollBelow(l, c, Cell(a, r), alt);
    CarryOfThree(c, m, Prepend(l, Cell(a, r)), alt);
    PrependFirst(e, l, Cell(a, r));
    PrependFirst(e, l, r);
    var s := Running(Cell(e, Prepend(l, Cell(a, r))), Cell(q, alt));
    ExecAppend([Num(2 * k + 1), Roll], [Add], s);
    RollBelow([e] + l, a, r, Cell(q, alt));
    Exec1(Add, Running(Cell(a, Cell(e, Prepend(l, r))), Cell(q, alt)));
  }

  /** The number of ternary digits that the loop of `limb_div3_carry` finds. */
  function Ternary(n: nat, k: nat): (r: nat)
    decreases if Pow3(k) < Pow2(n) then Pow2(n) - Pow3(k) else 0
  {
    if Pow3(k) < Pow2(n) then Ternary(n, k + 1) else k
  }

  lemma {:induction false} TernaryIsLeast(n: nat, k: nat)
    requires k > 0 ==> Pow3(k - 1) < Pow2(n)
    ensures TernaryDigits(n, Ternary(n, k))
    decreases if Pow3(k) < Pow2(n) then Pow2(n) - Pow3(k) else 0
  {
    if Pow3(k) < Pow2(n) { TernaryIsLeast(n, k + 1); }
  }

  lemma {:induction false} TernaryUnique(n: nat, j: nat, k: nat)
    requires TernaryDigits(n, j) && TernaryDigits(n, k)
    ensures j == k
  {
    if j < k { Pow3Mono(j, k - 1); }
    if k < j { Pow3Mono(k, j - 1); }
  }

  function Div3Rem(w: Width): Script
    requires Valid(w) && Head(w) >= 5
  {
    TernaryIsLeast(Head(w), 0);
    TernaryIsLeast(w.limb, 0);
    EnoughDigits(Head(w), Ternary(Head(w), 0));
    EnoughDigits(w.limb, Ternary(w.limb, 0));
    DivRem(w, Div3Script(Head(w), Ternary(Head(w), 0)), Div3Script(w.limb, Ternary(w.limb, 0)))
  }

  lemma {:induction false} Div3Divides(n: nat)
    requires 5 <= n <= 30
    ensures Ternary(n, 0) >= 4 && Divides(Div3Script(n, Ternary(n, 0)), n, 3)
  {
    hide Exec;
    hide Div3Script;
    hide Lo;
    hide Up;
    hide Pow2;
    hide Ternary;
    hide TernaryDigits;
    TernaryIsLeast(n, 0);
    var k := Ternary(n, 0);
    EnoughDigits(n, k);
    forall c: nat, a: nat, r: Stack, alt: Stack | c < 3 && a < Pow2(n)
      ensures Exec(Div3Script(n, k), Running(Cell(c, Cell(a, r)), alt)) ==
              Running(Cell(Lo(c * Pow2(n) + a, 3), Cell(Up(c * Pow2(n) + a, 3), r)), alt)
    {
      Div3Run(n, k, c, a, r, alt);
    }
  }

  /** `div3rem` leaves the remainder on top of a third of the number. The generator needs at least five bits in the head limb. */
  lemma {:induction false} Div3RemCorrect(w: Width, v: nat, r: Stack, alt: Stack)
    requires Valid(w) && Head(w) >= 5 && v < Capacity(w) && NLimbs(w) < 0x7FFF_FF00
    ensures Exec(Div3Rem(w), Running(On(w, v, r), alt)) == Running(Cell(Lo(v, 3), On(w, Up(v, 3), r)), alt)
  {
    hide Exec;
    hide Divides;
    hide DivRem;
    hide Div3Script;
    hide Ternary;
    hide Head;
    hide NLimbs;
    Div3Divides(Head(w));
    Div3Divides(w.limb);
    DivRemRun(w, Div3Script(Head(w), Ternary(Head(w), 0)), Div3Script(w.limb, Ternary(w.limb, 0)), 3, v, r, alt);
  }
}
