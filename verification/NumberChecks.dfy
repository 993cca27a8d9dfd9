/** Range checks on untrusted limbs and resizing between widths (bitvm/src/bigint/std.rs). */
module NumberChecks {
  import opened Arithmetic
  import opened ScriptMachine
  import opened Limbs
  import opened StackMoves
  import opened NumberMoves

  // ---------- check_validity ----------

  function CheckTurn(): Script {
    [Tuck, Num(0), Swap, Within, Verify]
  }

  function CheckValidity(w: Width): Script
    requires Valid(w)
  {
    [Num(Base(w))] +
    Repeat(CheckTurn(), NLimbs(w) - 2) +
    [Num(0), Swap, Within, Verify] +
    [Num(0), Num(HeadOffset(w)), Within, Verify]
  }

  lemma {:induction false} InRangeCons(b: nat, h: nat, l: seq<int>)
    requires |l| > 1
    ensures InRange(b, h, l) <==> 0 <= l[0] < b && InRange(b, h, l[1..])
  {
    var t := l[1..];
    if 0 <= l[0] < b && InRange(b, h, t) {
      forall i | 0 <= i < |l| - 1 ensures 0 <= l[i] < b { if i > 0 { assert l[i] == t[i - 1]; } }
    }
    if InRange(b, h, l) {
      forall i | 0 <= i < |t| - 1 ensures 0 <= t[i] < b { assert t[i] == l[i + 1]; }
    }
  }

  lemma {:induction false} CheckTurnRun(b: int, a: int, r: Stack, alt: Stack)
    requires IsNum(b)
    ensures Exec(CheckTurn(), Running(Cell(b, Cell(a, r)), alt)) ==
            if 0 <= a < b then Running(Cell(b, r), alt) else Failed
    ensures Exec([Num(0), Swap, Within, Verify], Running(Cell(b, Cell(a, r)), alt)) ==
            if 0 <= a < b then Running(r, alt) else Failed
    ensures Exec([Num(0), Num(b), Within, Verify], Running(Cell(a, r), alt)) ==
            if 0 <= a < b then Running(r, alt) else Failed
  {
    hide Exec;
    hide Step;
    StackRules();
    MoreStackRules();
    LogicRules();
    Exec5(Tuck, Num(0), Swap, Within, Verify, Running(Cell(b, Cell(a, r)), alt));
    Exec4(Num(0), Swap, Within, Verify, Running(Cell(b, Cell(a, r)), alt));
    Exec4(Num(0), Num(b), Within, Verify, Running(Cell(a, r), alt));
  }

  /** The checks from the least significant limb up, on any cells whatever. */
  lemma {:induction false} CheckLoop(b: nat, h: nat, l: seq<int>, r: Stack, alt: Stack)
    requires |l| >= 2 && b <= 0x4000_0000 && h <= 0x4000_0000
    ensures Exec([Num(0), Num(h), Within, Verify], Exec([Num(0), Swap, Within, Verify], Exec(Repeat(CheckTurn(), |l| - 2),
              Running(Cell(b, Prepend(l, r)), alt)))) ==
            if InRange(b, h, l) then Running(r, alt) else Failed
    decreases |l|
  {
    hide Exec;
    hide CheckTurn;
    hide InRange;
    var s := Running(Cell(b, Prepend(l, r)), alt);
    var t := l[1..];
    var low, head := [Num(0), Swap, Within, Verify], [Num(0), Num(h), Within, Verify];
    InRangeCons(b, h, l);
    CheckTurnRun(b, l[0], Prepend(t, r), alt);
    ExecFailed(low);
    ExecFailed(head);
    if |l| == 2 {
      Exec0(s);
      OneInRange(b, h, t);
      assert t == [t[0]] && t[1..] == [];
      assert Prepend(t, r) == Cell(t[0], r);
      CheckTurnRun(h, t[0], r, alt);
    } else {
      ExecRepeat(CheckTurn(), |l| - 2, s);
      CheckLoop(b, h, t, r, alt);
      ExecFailed(Repeat(CheckTurn(), |l| - 3));
    }
  }

  lemma {:induction false} OneInRange(b: nat, h: nat, t: seq<int>)
    requires |t| == 1
    ensures InRange(b, h, t) <==> 0 <= t[0] < h
  {
  }

  /** `check_validity` accepts exactly the cells that spell a number of that width. */
  lemma {:induction false} CheckValidityExact(w: Width, l: seq<int>, r: Stack, alt: Stack)
    requires Valid(w) && |l| == NLimbs(w)
    ensures Exec(CheckValidity(w), Running(Prepend(l, r), alt)) ==
            if exists v: nat :: v < Capacity(w) && l == Number(w, v) then Running(r, alt) else Failed
  {
    hide Exec;
    hide Step;
    hide Repeat;
    hide Prepend;
    hide NLimbs;
    hide InRange;
    hide Digits;
    BaseBounds(w);
    StackRules();
    var b, h := Base(w), HeadOffset(w);
    ExecAppend4([Num(b)], Repeat(CheckTurn(), NLimbs(w) - 2), [Num(0), Swap, Within, Verify], [Num(0), Num(h), Within, Verify],
                Running(Prepend(l, r), alt));
    Exec1(Num(b), Running(Prepend(l, r), alt));
    CheckLoop(b, h, l, r, alt);
    CapacityIsScale(w);
    if InRange(b, h, l) {
      InRangeIsDigits(b, h, l);
      assert l == Number(w, Value(b, l));
    }
    if v: nat :| v < Capacity(w) && l == Number(w, v) {
      DigitsInRange(NLimbs(w) - 1, b, h, v);
    }
  }

  // ---------- resize ----------

  /** `resize` between widths of the same limb size. */
  function Resize(w: Width, t: Width): Script
    requires Valid(w) && Valid(t) && w.limb == t.limb
  {
    var n, m := NLimbs(w), NLimbs(t);
    if m == n then []
    else if m > n then [Num(0)] + NDup(m - n - 1) + Repeat([Num(m - 1), Roll], n)
    else Repeat([Num(m), Roll] + [Drop], n - m)
  }

  function Zeros(n: nat): (l: seq<int>)
    ensures |l| == n
  {
    if n == 0 then [] else [0] + Zeros(n - 1)
  }

  lemma {:induction false} CopiesOfZero(n: nat, r: Stack)
    ensures Copies(0, n, r) == Prepend(Zeros(n), r)
  {
    if n > 0 {
      CopiesOfZero(n - 1, r);
      PrependFirst(0, Zeros(n - 1), r);
    }
  }

  lemma {:induction false} ZeroDigits(k: nat, b: nat)
    requires b > 0
    ensures Digits(k, b, 0) == Zeros(k + 1)
    decreases k
  {
    SplitUnique(0, b, 0, 0);
    if k > 0 {
      DigitsStep(k, b, 0);
      ZeroDigits(k - 1, b);
    } else {
      assert Zeros(1) == [0] + Zeros(0);
    }
  }

  /** A number that fits j + 1 limbs has only zeros above them. */
  lemma {:induction false} ExtraLimbsAreZero(j: nat, k: nat, b: nat, v: nat)
    requires b > 0 && j <= k && v < Scale(j, b, b)
    ensures Digits(k, b, v) == Digits(j, b, v) + Zeros(k - j)
    decreases j
  {
    hide Lo;
    hide Up;
    hide Digits;
    hide Zeros;
    if k == j {
      assert |Zeros(0)| == 0;
    } else if j == 0 {
      OneLimb(k, b, v);
    } else {
      UpBelowScale(j, b, v);
      ExtraLimbsAreZero(j - 1, k - 1, b, Up(v, b));
      DigitsStep(k, b, v);
      DigitsStep(j, b, v);
      Associate([Lo(v, b)], Digits(j - 1, b, Up(v, b)), Zeros(k - j));
    }
  }

  lemma {:induction false} OneLimb(k: nat, b: nat, v: nat)
    requires k > 0 && v < b
    ensures Digits(k, b, v) == Digits(0, b, v) + Zeros(k)
  {
    SplitUnique(v, b, 0, v);
    DigitsStep(k, b, v);
    ZeroDigits(k - 1, b);
  }

  lemma {:induction false} UpBelowScale(j: nat, b: nat, v: nat)
    requires b > 0 && j > 0 && v < Scale(j, b, b)
    ensures 0 <= Up(v, b) < Scale(j - 1, b, b)
  {
    hide Lo;
    hide Up;
    UpNonNeg(v, b);
    Split(v, b);
    BelowProduct(v, Up(v, b), Lo(v, b), b, Scale(j - 1, b, b));
  }

  lemma {:induction false} Associate(a: seq<int>, b: seq<int>, c: seq<int>)
    ensures a + (b + c) == (a + b) + c
  {
  }

  lemma {:induction false} BelowCapacity(w: Width, v: nat)
    requires Valid(w) && v < Capacity(w)
    ensures v < Scale(NLimbs(w) - 1, Base(w), Base(w))
  {
    hide Scale;
    hide NLimbs;
    CapacityIsScale(w);
    BaseBounds(w);
    ScaleMono(NLimbs(w) - 1, Base(w), HeadOffset(w), Base(w));
  }

  lemma {:induction false} ScaleMono(j: nat, b: nat, h: nat, g: nat)
    requires h <= g
    ensures Scale(j, b, h) <= Scale(j, b, g)
    decreases j
  {
    if j > 0 {
      ScaleMono(j - 1, b, h, g);
      MulMono(Scale(j - 1, b, h), Scale(j - 1, b, g), b);
    }
  }

  lemma {:induction false} DropZeros(l: seq<int>, n: nat, r: Stack, alt: Stack)
    requires |l| + n < 0x7FFF_FFFF
    ensures Exec(Repeat([Num(|l|), Roll] + [Drop], n), Running(Prepend(l + Zeros(n), r), alt)) == Running(Prepend(l, r), alt)
    decreases n
  {
    hide Exec;
    hide Step;
    hide Prepend;
    StackRules();
    var s := Running(Prepend(l + Zeros(n), r), alt);
    if n == 0 {
      Exec0(s);
      assert l + [] == l;
    } else {
      ExecRepeat([Num(|l|), Roll] + [Drop], n, s);
      ExecAppend([Num(|l|), Roll], [Drop], s);
      assert l + Zeros(n) == l + [0] + Zeros(n - 1);
      RollMid(l, 0, Zeros(n - 1), r, alt);
      assert [0] + l + Zeros(n - 1) == [0] + (l + Zeros(n - 1));
      PrependFirst(0, l + Zeros(n - 1), r);
      Exec1(Drop, Running(Cell(0, Prepend(l + Zeros(n - 1), r)), alt));
      DropZeros(l, n - 1, r, alt);
    }
  }

  lemma {:induction false} AddZeros(l: seq<int>, m: nat, r: Stack, alt: Stack)
    requires |l| > 0 && |l| < m < 0x7FFF_FFFF
    ensures Exec([Num(0)] + NDup(m - |l| - 1) + Repeat([Num(m - 1), Roll], |l|), Running(Prepend(l, r), alt)) ==
            Running(Prepend(l + Zeros(m - |l|), r), alt)
  {
    hide Exec;
    hide Step;
    hide Prepend;
    hide NDup;
    hide Repeat;
    StackRules();
    var n := |l|;
    var z := Zeros(m - n);
    var s := Running(Prepend(l, r), alt);
    ExecAppend3([Num(0)], NDup(m - n - 1), Repeat([Num(m - 1), Roll], n), s);
    Exec1(Num(0), s);
    NDupRun(0, m - n - 1, Prepend(l, r), alt);
    CopiesOfZero(m - n, Prepend(l, r));
    PrependAppend(z, l, r);
    assert l[n..] + z + l[..n] == z + l;
    RollLoop(n, n, z, l, r, alt);
  }

  /** `resize` keeps the number as long as it fits both widths. */
  lemma {:induction false} ResizeCorrect(w: Width, t: Width, v: nat, r: Stack, alt: Stack)
    requires Valid(w) && Valid(t) && w.limb == t.limb && v < Capacity(w) && v < Capacity(t)
    requires NLimbs(w) < 0x7FFF_FFFF && NLimbs(t) < 0x7FFF_FFFF
    ensures Exec(Resize(w, t), Running(On(w, v, r), alt)) == Running(On(t, v, r), alt)
  {
    hide Exec;
    hide Prepend;
    hide NDup;
    hide Repeat;
    hide NLimbs;
    hide Capacity;
    hide Scale;
    hide Digits;
    var n, m, b := NLimbs(w), NLimbs(t), Base(w);
    BaseBounds(w);
    BelowCapacity(w, v);
    BelowCapacity(t, v);
    if m == n {
      Exec0(Running(On(w, v, r), alt));
    } else if m > n {
      ExtraLimbsAreZero(n - 1, m - 1, b, v);
      AddZeros(Number(w, v), m, r, alt);
    } else {
      ExtraLimbsAreZero(m - 1, n - 1, b, v);
      DropZeros(Number(t, v), n - m, r, alt);
    }
  }
}
