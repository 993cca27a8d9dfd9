/** The limb gadgets of the overflow-preventing operations (bitvm/src/bigint/add.rs) and `NMUL` (bitvm/src/pseudo.rs). */
module SignedLimbs {
  import opened Arithmetic
  import opened ScriptMachine
  import opened Limbs
  import opened UnsignedAdd
  import opened TwosComplement

  // ---------- multiplication by a constant ----------

  /** The doubling part of `NMUL`: keeps a copy wherever the binary digit is set. */
  function NmulDoublings(n: nat): Script {
    if n <= 1 then [] else (if n % 2 == 1 then [Dup] else []) + [Dup, Add] + NmulDoublings(n / 2)
  }

  function Nmul(n: nat): Script {
    if n == 0 then [Drop, Num(0)]
    else OnesPositive(n); NmulDoublings(n) + Repeat([Add], Ones(n) - 1)
  }

  lemma {:induction false} OnesPositive(n: nat)
    requires n > 0
    ensures Ones(n) > 0
  {
    if n > 1 { OnesPositive(n / 2); }
  }

  /** The multiples that the doubling part leaves, the largest on top. */
  function Parts(n: nat, x: nat, r: Stack): Stack {
    if n <= 1 then Cell(x, r)
    else if n % 2 == 1 then Parts(n / 2, 2 * x, Cell(x, r))
    else Parts(n / 2, 2 * x, r)
  }

  /** n times x, the way the script adds it up. */
  function Multiple(n: nat, x: nat): nat
    requires n > 0
  {
    if n == 1 then x else Multiple(n / 2, 2 * x) + (if n % 2 == 1 then x else 0)
  }

  lemma {:induction false} MultipleIsProduct(n: nat, x: nat)
    requires n > 0
    ensures Multiple(n, x) == n * x
    decreases n
  {
    if n > 1 {
      var h := n / 2;
      MultipleIsProduct(h, 2 * x);
      HalfProduct(h, n % 2, x);
    }
  }

  lemma {:induction false} HalfProduct(h: nat, e: nat, x: nat)
    ensures (2 * h + e) * x == h * (2 * x) + e * x && (e == 0 ==> e * x == 0) && (e == 1 ==> e * x == x)
  {
    MulAssoc(h, 2, x);
  }

  lemma {:induction false} MultipleAtLeast(n: nat, x: nat)
    requires n > 0
    ensures x <= Multiple(n, x)
    decreases n
  {
    if n > 1 { MultipleAtLeast(n / 2, 2 * x); }
  }

  lemma {:induction false} DoublingsRun(n: nat, x: nat, r: Stack, alt: Stack)
    requires n > 0 && Multiple(n, x) <= 0x7FFF_FFFF
    ensures Exec(NmulDoublings(n), Running(Cell(x, r), alt)) == Running(Parts(n, x, r), alt)
    decreases n
  {
    hide Exec;
    hide Step;
    StackRules();
    NumberRules();
    var s := Running(Cell(x, r), alt);
    if n == 1 {
      Exec0(s);
    } else {
      MultipleAtLeast(n / 2, 2 * x);
      var keep := if n % 2 == 1 then [Dup] else [];
      ExecAppend3(keep, [Dup, Add], NmulDoublings(n / 2), s);
      var r1 := if n % 2 == 1 then Cell(x, r) else r;
      Exec0(s);
      Exec1(Dup, s);
      Exec2(Dup, Add, Running(Cell(x, r1), alt));
      DoublingsRun(n / 2, 2 * x, r1, alt);
    }
  }

  lemma {:induction false} Unroll(n: nat, x: nat, r: Stack)
    requires n > 0
    ensures n == 1 ==> Ones(n) == 1 && Multiple(n, x) == x && Parts(n, x, r) == Cell(x, r)
    ensures n > 1 && n % 2 == 0 ==>
              Ones(n) == Ones(n / 2) && Multiple(n, x) == Multiple(n / 2, 2 * x) && Parts(n, x, r) == Parts(n / 2, 2 * x, r)
    ensures n > 1 && n % 2 == 1 ==>
              Ones(n) == 1 + Ones(n / 2) && Multiple(n, x) == Multiple(n / 2, 2 * x) + x &&
              Parts(n, x, r) == Parts(n / 2, 2 * x, Cell(x, r))
  {
    assert Ones(1) == 1 + Ones(0);
  }

  lemma {:induction false} AddParts(n: nat, x: nat, r: Stack, alt: Stack)
    requires n > 0 && Multiple(n, x) <= 0x7FFF_FFFF
    ensures Ones(n) > 0
    ensures Exec(Repeat([Add], Ones(n) - 1), Running(Parts(n, x, r), alt)) == Running(Cell(Multiple(n, x), r), alt)
    decreases n
  {
    hide Exec;
    hide Repeat;
    hide Ones;
    hide Multiple;
    hide Parts;
    OnesPositive(n);
    Unroll(n, x, r);
    if n == 1 {
      NoTurns([Add]);
      Exec0(Running(Cell(x, r), alt));
    } else {
      var h := n / 2;
      OnesPositive(h);
      MultipleAtLeast(h, 2 * x);
      if n % 2 == 1 {
        AddParts(h, 2 * x, Cell(x, r), alt);
        OneMore(Ones(h) - 1, Running(Parts(h, 2 * x, Cell(x, r)), alt), Multiple(h, 2 * x), x, r, alt);
      } else {
        AddParts(h, 2 * x, r, alt);
      }
    }
  }

  lemma {:induction false} OneMore(m: nat, s: State, v: int, x: int, r: Stack, alt: Stack)
    requires IsNum(v) && IsNum(x)
    requires Exec(Repeat([Add], m), s) == Running(Cell(v, Cell(x, r)), alt)
    ensures Exec(Repeat([Add], m + 1), s) == Running(Cell(v + x, r), alt)
  {
    hide Exec;
    hide Repeat;
    ExecRepeatLast([Add], m + 1, s);
    AddOnce(x, v, r, alt);
  }

  lemma {:induction false} AddOnce(x: int, y: int, r: Stack, alt: Stack)
    requires IsNum(x) && IsNum(y)
    ensures Exec([Add], Running(Cell(y, Cell(x, r)), alt)) == Running(Cell(x + y, r), alt)
  {
    hide Exec;
    hide Step;
    NumberRules();
    Exec1(Add, Running(Cell(y, Cell(x, r)), alt));
  }

  /** `NMUL(n)` multiplies the top item by n as long as the product is a script number. */
  lemma {:induction false} NmulRun(n: nat, x: nat, r: Stack, alt: Stack)
    requires n * x <= 0x7FFF_FFFF
    ensures Exec(Nmul(n), Running(Cell(x, r), alt)) == Running(Cell(n * x, r), alt)
  {
    hide Exec;
    hide Step;
    hide NmulDoublings;
    hide Repeat;
    hide Multiple;
    var s := Running(Cell(x, r), alt);
    if n == 0 {
      StackRules();
      Exec2(Drop, Num(0), s);
    } else {
      MultipleIsProduct(n, x);
      AddParts(n, x, r, alt);
      DoublingsRun(n, x, r, alt);
      ExecAppend(NmulDoublings(n), Repeat([Add], Ones(n) - 1), s);
    }
  }

  lemma {:induction false} NmulTwo()
    ensures Nmul(2) == [Dup, Add]
  {
    assert Ones(1) == 1 && Ones(2) == 1;
    assert NmulDoublings(1) == [];
    assert NmulDoublings(2) == [] + [Dup, Add] + NmulDoublings(1);
    assert Repeat([Add], 0) == [];
  }

  // ---------- carries ----------

  function LimbAddCreateCarry(): Script {
    [Dup2, LessThanOrEqual, Tuck] + [If([Num(2), Pick, Sub], [])]
  }

  /** Splits a sum of two limbs into limb and carry, the base below. */
  lemma {:induction false} CreateCarryRun(t: int, b: nat, r: Stack, alt: Stack)
    requires 0 <= t < 2 * b && b <= 0x4000_0000
    ensures Exec(LimbAddCreateCarry(), Running(Cell(t, Cell(b, r)), alt)) ==
            Running(Cell(Lo(t, b), Cell(Up(t, b), Cell(b, r))), alt)
  {
    hide Exec;
    hide Step;
    hide Lo;
    hide Up;
    StackRules();
    NumberRules();
    var c := Up(t, b);
    OneBit(t, b);
    ExecAppend([Dup2, LessThanOrEqual, Tuck], [If([Num(2), Pick, Sub], [])], Running(Cell(t, Cell(b, r)), alt));
    Exec3(Dup2, LessThanOrEqual, Tuck, Running(Cell(t, Cell(b, r)), alt));
    Exec1(If([Num(2), Pick, Sub], []), Running(Cell(c, Cell(t, Cell(c, Cell(b, r)))), alt));
    CorrectionRun(Sub, c, t, c, b, r, alt);
  }

  /** The limbs of a number, by position. */
  lemma {:induction false} DigitAt(k: nat, b: nat, v: int, j: nat)
    requires b > 0 && j <= k
    ensures Digits(k, b, v)[j] == if j < k then Lo(Hi(j, b, v), b) else Hi(k, b, v)
    decreases k
  {
    if j < k {
      HiLast(j + 1, b, v);
      LowPrefix(k, b, v, j + 1);
    }
  }

  lemma {:induction false} LowPrefix(k: nat, b: nat, v: int, j: nat)
    requires b > 0 && j <= k
    ensures Low(k, b, v)[..j] == Low(j, b, v)
    decreases k
  {
    if j < k {
      HiLast(k, b, v);
      LowPrefix(k - 1, b, v, j);
    } else {
      assert Low(k, b, v)[..k] == Low(k, b, v);
    }
  }

  /** The alt stack after the j low limbs of a sum. */
  function SumAlt(j: nat, b: nat, v: int, alt: Stack): Stack
    requires b > 0
  {
    PushAll(Low(j, b, v), alt)
  }

  /** Adding limb j of two numbers to the carry: the next limb of the sum and the next carry. */
  lemma {:induction false} SumStep(k: nat, b: nat, x: int, y: int, j: nat, alt: Stack)
    requires b > 0 && j < k
    ensures 0 <= CarryOut(j, b, x, y, 0) <= 1 && 0 <= CarryOut(j + 1, b, x, y, 0) <= 1
    ensures var t := Digits(k, b, x)[j] + Digits(k, b, y)[j] + CarryOut(j, b, x, y, 0);
            0 <= t < 2 * b && Up(t, b) == CarryOut(j + 1, b, x, y, 0) &&
            SumAlt(j + 1, b, x + y, alt) == Cell(Lo(t, b), SumAlt(j, b, x + y, alt))
    ensures 0 <= Digits(k, b, x)[j] < b && 0 <= Digits(k, b, y)[j] < b
  {
    hide Lo;
    hide Up;
    hide Hi;
    hide Low;
    hide PushAll;
    DigitAt(k, b, x, j);
    DigitAt(k, b, y, j);
    CarryIsBit(j, b, x, y);
    var c := CarryOut(j, b, x, y, 0);
    CarryStep(Hi(j, b, x), Hi(j, b, y), c, b);
    HiLast(j + 1, b, x);
    HiLast(j + 1, b, y);
    HiLast(j + 1, b, x + y);
    PushLast(Low(j, b, x + y), Lo(Hi(j, b, x + y), b), alt);
  }

  lemma {:induction false} CarryIsBit(j: nat, b: nat, x: int, y: int)
    requires b > 0
    ensures 0 <= CarryOut(j, b, x, y, 0) <= 1
    decreases j
  {
    hide Lo;
    hide Up;
    if j > 0 {
      CarryIsBit(j - 1, b, x, y);
      NextCarry(j, b, x, y);
    }
  }

  lemma {:induction false} NextCarry(j: nat, b: nat, x: int, y: int)
    requires b > 0 && j > 0 && 0 <= CarryOut(j - 1, b, x, y, 0) <= 1
    ensures 0 <= CarryOut(j, b, x, y, 0) <= 1
  {
    hide Lo;
    hide Up;
    hide Hi;
    HiLast(j, b, x);
    HiLast(j, b, y);
    HiLast(j, b, x + y);
    CarryStep(Hi(j - 1, b, x), Hi(j - 1, b, y), CarryOut(j - 1, b, x, y, 0), b);
  }

  lemma {:induction false} SumStart(b: nat, x: int, y: int, alt: Stack)
    requires b > 0
    ensures CarryOut(0, b, x, y, 0) == 0 && SumAlt(0, b, x + y, alt) == alt
  {
  }

  // ---------- the guards on the head limbs ----------

  function AddGuard(headOffset: nat): Script {
    var g := headOffset / 2;
    [Dup3, Add, Add, Nip, Num(g)] + [Tuck, Dup, Add, Dup2, GreaterThanOrEqual, NotIf([Not]), Sub] +
    [Swap, Dup2, Rot2, Num(2), Pick, LessThan, Swap2, GreaterThanOrEqual] +
    [Swap2, GreaterThan, Add, Add, Num(1), Num(3), Within, Verify]
  }

  function DoubleGuard(headOffset: nat): Script {
    var g := headOffset / 2;
    [Over, Dup, Add, Add, Num(g)] + [Tuck, Dup, Add, Dup2, GreaterThanOrEqual, NotIf([Not]), Sub] +
    [Dup2, LessThanOrEqual, Swap2, LessThan, NumNotEqual, Verify]
  }

  /** The sum t of the head limbs and the carry overflows the signed range with half-range g. */
  predicate HeadFits(x: int, y: int, t: int, g: nat)
    requires g > 0
  {
    var s := Lo(t, 2 * g);
    !(x < g && y < g && s >= g) && !(x >= g && y >= g && s < g)
  }

  /** Reducing t below 2g by the comparison both guards share. */
  lemma {:induction false} ReduceRun(t: int, g: nat, r: Stack, alt: Stack)
    requires 0 <= t < 4 * g && 0 < g <= 0x2000_0000
    ensures Exec([Tuck, Dup, Add, Dup2, GreaterThanOrEqual, NotIf([Not]), Sub], Running(Cell(g, Cell(t, r)), alt)) ==
            Running(Cell(Lo(t, 2 * g), Cell(g, r)), alt)
  {
    hide Exec;
    hide Step;
    hide Lo;
    hide Up;
    StackRules();
    MoreStackRules();
    NumberRules();
    OneBit(t, 2 * g);
    Exec7(Tuck, Dup, Add, Dup2, GreaterThanOrEqual, NotIf([Not]), Sub, Running(Cell(g, Cell(t, r)), alt));
    var s := Running(Cell(2 * g, Cell(t, Cell(g, r))), alt);
    Exec1(Not, s);
    Exec0(s);
  }

  lemma {:induction false} AddGuardRun(x: int, y: int, c: int, g: nat, r: Stack, alt: Stack)
    requires 0 <= x < 2 * g && 0 <= y < 2 * g && 0 <= c <= 1 && 0 < g <= 0x2000_0000
    ensures Exec(AddGuard(2 * g), Running(Cell(c, Cell(y, Cell(x, r))), alt)) ==
            if HeadFits(x, y, x + y + c, g) then Running(Cell(Lo(x + y + c, 2 * g), r), alt) else Failed
  {
    hide Exec;
    hide Step;
    hide Lo;
    StackRules();
    NumberRules();
    assert 2 * g / 2 == g;
    var t := x + y + c;
    var s0 := Running(Cell(c, Cell(y, Cell(x, r))), alt);
    var p1 := [Dup3, Add, Add, Nip, Num(g)];
    var p2 := [Tuck, Dup, Add, Dup2, GreaterThanOrEqual, NotIf([Not]), Sub];
    var p3 := [Swap, Dup2, Rot2, Num(2), Pick, LessThan, Swap2, GreaterThanOrEqual];
    var p4 := [Swap2, GreaterThan, Add, Add, Num(1), Num(3), Within, Verify];
    ExecAppend4(p1, p2, p3, p4, s0);
    Exec5(Dup3, Add, Add, Nip, Num(g), s0);
    assert x + (y + c) == t;
    ReduceRun(t, g, Cell(y, Cell(x, r)), alt);
    SignsRun(x, y, Lo(t, 2 * g), g, r, alt);
    VerdictRun(x, y, Lo(t, 2 * g), g, r, alt);
  }

  lemma {:induction false} SignsRun(x: int, y: int, s: int, g: nat, r: Stack, alt: Stack)
    requires 0 <= x < 2 * g && 0 <= y < 2 * g && 0 <= s < 2 * g && 0 < g <= 0x2000_0000
    ensures Exec([Swap, Dup2, Rot2, Num(2), Pick, LessThan, Swap2, GreaterThanOrEqual],
                 Running(Cell(s, Cell(g, Cell(y, Cell(x, r)))), alt)) ==
            Running(Cell(Bit(s >= g), Cell(Bit(y < g), Cell(x, Cell(g, Cell(s, r))))), alt)
  {
    hide Exec;
    hide Step;
    StackRules();
    MoreStackRules();
    DepthRules();
    NumberRules();
    Exec8(Swap, Dup2, Rot2, Num(2), Pick, LessThan, Swap2, GreaterThanOrEqual,
          Running(Cell(s, Cell(g, Cell(y, Cell(x, r)))), alt));
  }

  lemma {:induction false} VerdictRun(x: int, y: int, s: int, g: nat, r: Stack, alt: Stack)
    requires 0 <= x < 2 * g && 0 <= y < 2 * g && 0 <= s < 2 * g && 0 < g <= 0x2000_0000
    ensures Exec([Swap2, GreaterThan, Add, Add, Num(1), Num(3), Within, Verify],
                 Running(Cell(Bit(s >= g), Cell(Bit(y < g), Cell(x, Cell(g, Cell(s, r))))), alt)) ==
            if !(x < g && y < g && s >= g) && !(x >= g && y >= g && s < g) then Running(Cell(s, r), alt) else Failed
  {
    hide Exec;
    hide Step;
    StackRules();
    MoreStackRules();
    NumberRules();
    LogicRules();
    Exec8(Swap2, GreaterThan, Add, Add, Num(1), Num(3), Within, Verify,
          Running(Cell(Bit(s >= g), Cell(Bit(y < g), Cell(x, Cell(g, Cell(s, r))))), alt));
  }

  lemma {:induction false} DoubleGuardRun(x: int, c: int, g: nat, r: Stack, alt: Stack)
    requires 0 <= x < 2 * g && 0 <= c <= 1 && 0 < g <= 0x2000_0000
    ensures Exec(DoubleGuard(2 * g), Running(Cell(c, Cell(x, r)), alt)) ==
            if HeadFits(x, x, x + x + c, g) then Running(Cell(Lo(x + x + c, 2 * g), r), alt) else Failed
  {
    hide Exec;
    hide Step;
    hide Lo;
    StackRules();
    NumberRules();
    assert 2 * g / 2 == g;
    var t := x + x + c;
    var s := Lo(t, 2 * g);
    var s0 := Running(Cell(c, Cell(x, r)), alt);
    var p1 := [Over, Dup, Add, Add, Num(g)];
    var p2 := [Tuck, Dup, Add, Dup2, GreaterThanOrEqual, NotIf([Not]), Sub];
    var p3 := [Dup2, LessThanOrEqual, Swap2, LessThan, NumNotEqual, Verify];
    ExecAppend3(p1, p2, p3, s0);
    Exec5(Over, Dup, Add, Add, Num(g), s0);
    assert c + (x + x) == t;
    ReduceRun(t, g, Cell(x, r), alt);
    DoubleVerdictRun(x, s, g, r, alt);
  }

  lemma {:induction false} DoubleVerdictRun(x: int, s: int, g: nat, r: Stack, alt: Stack)
    requires 0 <= x < 2 * g && 0 <= s < 2 * g && 0 < g <= 0x2000_0000
    ensures Exec([Dup2, LessThanOrEqual, Swap2, LessThan, NumNotEqual, Verify],
                 Running(Cell(s, Cell(g, Cell(x, r))), alt)) ==
            if !(x < g && s >= g) && !(x >= g && s < g) then Running(Cell(s, r), alt) else Failed
  {
    hide Exec;
    hide Step;
    StackRules();
    MoreStackRules();
    NumberRules();
    LogicRules();
    Exec6(Dup2, LessThanOrEqual, Swap2, LessThan, NumNotEqual, Verify, Running(Cell(s, Cell(g, Cell(x, r))), alt));
  }

  // ---------- from head limbs to whole numbers ----------

  /** The guard on the head limbs decides exactly whether the signed sum fits. */
  lemma {:induction false} GuardExact(w: Width, x: int, y: int)
    requires Valid(w) && Fits(w.nBits, x) && Fits(w.nBits, y)
    ensures Base(w) > 0 && HeadOffset(w) == 2 * Pow2(Head(w) - 1) && Pow2(Head(w) - 1) <= 0x2000_0000
    ensures var u, v, k, b, g := Unsigned(w.nBits, x), Unsigned(w.nBits, y), NLimbs(w) - 1, Base(w), Pow2(Head(w) - 1);
            HeadFits(Hi(k, b, u), Hi(k, b, v), Hi(k, b, u + v), g) <==> Fits(w.nBits, x + y)
    ensures Fits(w.nBits, x + y) ==>
              (Unsigned(w.nBits, x) + Unsigned(w.nBits, y)) % Capacity(w) == Unsigned(w.nBits, x + y)
  {
    hide Hi;
    hide Lo;
    hide NLimbs;
    hide Head;
    BaseBounds(w);
    var u, v := Unsigned(w.nBits, x), Unsigned(w.nBits, y);
    var k, b, g := NLimbs(w) - 1, Base(w), Pow2(Head(w) - 1);
    var p := Pow2(w.nBits - 1);
    SignedSum(w.nBits, x, y);
    HalfIsScale(w);
    HiBelow(k, b, g, u);
    HiBelow(k, b, g, v);
    CapacityIsScale(w);
    DigitsOfMod(k, b, 2 * g, u + v);
    HiBelow(k, b, g, (u + v) % Capacity(w));
    hide Pow2;
    hide Scale;
    hide Fits;
    LoIsMod(Hi(k, b, u + v), 2 * g);
  }

  lemma {:induction false} HalfIsScale(w: Width)
    requires Valid(w)
    ensures Scale(NLimbs(w) - 1, Base(w), Pow2(Head(w) - 1)) == Pow2(w.nBits - 1)
  {
    ScaleIsPow2(NLimbs(w) - 1, w.limb, Head(w) - 1);
  }
}
