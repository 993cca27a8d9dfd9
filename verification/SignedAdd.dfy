/** Signed additions that fail on overflow (bitvm/src/bigint/add.rs). */
module SignedAdd {
  import opened Arithmetic
  import opened ScriptMachine
  import opened Limbs
  import opened StackMoves
  import opened UnsignedAdd
  import opened TwosComplement
  import opened SignedLimbs

  /** A signed number on top of the stack. */
  function SignedOn(w: Width, x: int, r: Stack): Stack
    requires Valid(w)
  {
    On(w, Unsigned(w.nBits, x), r)
  }

  function SignedNumber(w: Width, x: int): (l: seq<int>)
    requires Valid(w)
    ensures |l| == NLimbs(w)
  {
    Number(w, Unsigned(w.nBits, x))
  }

  // ---------- add_ref ----------

  function AddRefTurn(depth: nat): Script {
    [Rot] + [Num(depth + 2), Pick] + [Add, Add] + LimbAddCreateCarry() + [ToAlt]
  }

  /** Adds the number at block b, which stays, to the number on top, which is consumed. */
  function AddRef(w: Width, b: nat): Script
    requires Valid(w) && b != 0
  {
    BlockEnd(b, NLimbs(w));
    var depth := b * NLimbs(w);
    ([Num(depth), Pick] + [Add, Num(Base(w)), Swap] + LimbAddCreateCarry() + [ToAlt]) +
    Repeat(AddRefTurn(depth), NLimbs(w) - 2) +
    ([Nip] + [Num(depth + 1), Pick] + [Swap] + AddGuard(HeadOffset(w))) +
    Repeat([FromAlt], NLimbs(w) - 1)
  }

  /** The stack below carry and base while adding: what is left of the upper number, the cells between, the lower number. */
  function Operands(j: nat, xs: seq<int>, mid: seq<int>, ys: seq<int>): seq<int>
    requires j <= |xs|
  {
    xs[j..] + mid + ys
  }

  lemma {:induction false} OperandsTop(j: nat, xs: seq<int>, mid: seq<int>, ys: seq<int>, r: Stack)
    requires j < |xs| == |ys|
    ensures Prepend(Operands(j, xs, mid, ys), r) == Cell(xs[j], Prepend(Operands(j + 1, xs, mid, ys), r))
    ensures |Operands(j, xs, mid, ys)| == |xs| - j + |mid| + |ys|
    ensures |Operands(j + 1, xs, mid, ys)| == |xs| - j - 1 + |mid| + |ys|
    ensures Operands(j + 1, xs, mid, ys)[|xs| - 1 + |mid|] == ys[j]
    ensures Operands(j, xs, mid, ys)[|xs| + |mid|] == ys[j]
  {
    hide Prepend;
    assert Operands(j, xs, mid, ys) == [xs[j]] + Operands(j + 1, xs, mid, ys);
    PrependFirst(xs[j], Operands(j + 1, xs, mid, ys), r);
  }

  /** A turn adds limb j; the depth is that of the lower number below the upper one's first limb. */
  lemma {:induction false} AddRefTurnRun(j: nat, c: int, b: nat, xs: seq<int>, mid: seq<int>, ys: seq<int>, r: Stack, alt: Stack)
    requires j < |xs| == |ys| && 2 * |xs| + |mid| < 0x7FFF_FFF0 && 0 < b <= 0x4000_0000
    requires 0 <= xs[j] < b && 0 <= ys[j] < b && 0 <= c <= 1
    ensures Exec(AddRefTurn(|xs| + |mid|), Running(Cell(c, Cell(b, Prepend(Operands(j, xs, mid, ys), r))), alt)) ==
            Running(Cell(Up(xs[j] + ys[j] + c, b), Cell(b, Prepend(Operands(j + 1, xs, mid, ys), r))),
                    Cell(Lo(xs[j] + ys[j] + c, b), alt))
  {
    hide Exec;
    hide Step;
    hide Lo;
    hide Up;
    hide Prepend;
    hide Operands;
    hide LimbAddCreateCarry;
    MoreStackRules();
    NumberRules();
    var l := Operands(j + 1, xs, mid, ys);
    var x, y := xs[j], ys[j];
    OperandsTop(j, xs, mid, ys, r);
    ExecAppend5([Rot], [Num(|xs| + |mid| + 2), Pick], [Add, Add], LimbAddCreateCarry(), [ToAlt],
                Running(Cell(c, Cell(b, Prepend(Operands(j, xs, mid, ys), r))), alt));
    var rest := Prepend(l, r);
    Exec1(Rot, Running(Cell(c, Cell(b, Cell(x, rest))), alt));
    FewCells(x, c, b, rest);
    PickUnder([x, c, b], l, |xs| - 1 + |mid|, r, alt);
    Exec2(Add, Add, Running(Cell(y, Cell(x, Cell(c, Cell(b, rest)))), alt));
    var t := x + y + c;
    assert c + (x + y) == t;
    CreateCarryRun(t, b, rest, alt);
    Exec1(ToAlt, Running(Cell(Lo(t, b), Cell(Up(t, b), Cell(b, rest))), alt));
  }

  /** Running state of the additions after j limbs. */
  function AddState(j: nat, k: nat, b: nat, u: int, v: int, mid: seq<int>, r: Stack, alt: Stack): State
    requires b > 0 && j <= k + 1
  {
    Running(Cell(CarryOut(j, b, u, v, 0), Cell(b, Prepend(Operands(j, Digits(k, b, u), mid, Digits(k, b, v)), r))),
            SumAlt(j, b, u + v, alt))
  }

  lemma {:induction false} AddRefLoop(i: nat, j: nat, k: nat, b: nat, u: int, v: int, mid: seq<int>, r: Stack, alt: Stack)
    requires i + j <= k && 2 * k + |mid| < 0x7FFF_FF00 && 0 < b <= 0x4000_0000
    ensures Exec(Repeat(AddRefTurn(k + 1 + |mid|), i), AddState(j, k, b, u, v, mid, r, alt)) ==
            AddState(i + j, k, b, u, v, mid, r, alt)
    decreases i
  {
    hide Exec;
    hide AddRefTurn;
    hide CarryOut;
    hide SumAlt;
    hide Digits;
    hide Prepend;
    hide Operands;
    hide Lo;
    hide Up;
    var s := AddState(j, k, b, u, v, mid, r, alt);
    if i == 0 {
      Exec0(s);
    } else {
      ExecRepeatLast(AddRefTurn(k + 1 + |mid|), i, s);
      AddRefLoop(i - 1, j, k, b, u, v, mid, r, alt);
      var m := i + j - 1;
      SumStep(k, b, u, v, m, alt);
      AddRefTurnRun(m, CarryOut(m, b, u, v, 0), b, Digits(k, b, u), mid, Digits(k, b, v), r, SumAlt(m, b, u + v, alt));
    }
  }

  lemma {:induction false} AddRefFirst(k: nat, b: nat, u: int, v: int, mid: seq<int>, r: Stack, alt: Stack)
    requires k > 0 && 2 * k + |mid| < 0x7FFF_FF00 && 0 < b <= 0x4000_0000
    ensures Exec([Num(k + 1 + |mid|), Pick] + [Add, Num(b), Swap] + LimbAddCreateCarry() + [ToAlt],
                 Running(Prepend(Operands(0, Digits(k, b, u), mid, Digits(k, b, v)), r), alt)) ==
            AddState(1, k, b, u, v, mid, r, alt)
  {
    hide Exec;
    hide Step;
    hide CarryOut;
    hide SumAlt;
    hide Digits;
    hide Prepend;
    hide Operands;
    hide Lo;
    hide Up;
    hide LimbAddCreateCarry;
    StackRules();
    MoreStackRules();
    NumberRules();
    var xs, ys := Digits(k, b, u), Digits(k, b, v);
    var l := Operands(0, xs, mid, ys);
    var rest := Prepend(Operands(1, xs, mid, ys), r);
    OperandsTop(0, xs, mid, ys, r);
    SumStart(b, u, v, alt);
    SumStep(k, b, u, v, 0, alt);
    ExecAppend4([Num(k + 1 + |mid|), Pick], [Add, Num(b), Swap], LimbAddCreateCarry(), [ToAlt], Running(Prepend(l, r), alt));
    EmptyPrepend(Prepend(l, r));
    PickUnder([], l, k + 1 + |mid|, r, alt);
    Exec3(Add, Num(b), Swap, Running(Cell(ys[0], Cell(xs[0], rest)), alt));
    var t := xs[0] + ys[0];
    CreateCarryRun(t, b, rest, alt);
    Exec1(ToAlt, Running(Cell(Lo(t, b), Cell(Up(t, b), Cell(b, rest))), alt));
  }

  lemma {:induction false} EmptyPrepend(r: Stack)
    ensures Prepend([], r) == r
  {
  }

  /** The state after the guard on the head limbs, before the low limbs are fetched back. */
  function Guarded(k: nat, b: nat, g: nat, u: int, v: int, r: Stack, alt: Stack): State
    requires b > 0 && g > 0
  {
    if HeadFits(Hi(k, b, u), Hi(k, b, v), Hi(k, b, u + v), g) then
      Running(Cell(Lo(Hi(k, b, u + v), 2 * g), r), SumAlt(k, b, u + v, alt))
    else Failed
  }

  lemma {:induction false} AddRefLast(k: nat, b: nat, g: nat, u: int, v: int, mid: seq<int>, r: Stack, alt: Stack)
    requires 2 * k + |mid| < 0x7FFF_FF00 && 0 < b <= 0x4000_0000 && 0 < g <= 0x2000_0000
    requires 0 <= Hi(k, b, u) < 2 * g && 0 <= Hi(k, b, v) < 2 * g
    ensures Exec([Nip] + [Num(k + 1 + |mid| + 1), Pick] + [Swap] + AddGuard(2 * g), AddState(k, k, b, u, v, mid, r, alt)) ==
            Guarded(k, b, g, u, v, Prepend(mid + Digits(k, b, v), r), alt)
  {
    hide Exec;
    hide Step;
    hide SumAlt;
    hide Digits;
    hide Prepend;
    hide Hi;
    hide Lo;
    hide AddGuard;
    hide HeadFits;
    StackRules();
    var xs, ys := Digits(k, b, u), Digits(k, b, v);
    var l := mid + ys;
    var rest := Prepend(l, r);
    var c := CarryOut(k, b, u, v, 0);
    var a := SumAlt(k, b, u + v, alt);
    CarryIsBit(k, b, u, v);
    DigitAt(k, b, u, k);
    DigitAt(k, b, v, k);
    assert Operands(k, xs, mid, ys) == [xs[k]] + l;
    PrependFirst(xs[k], l, r);
    ExecAppend4([Nip], [Num(k + 1 + |mid| + 1), Pick], [Swap], AddGuard(2 * g), AddState(k, k, b, u, v, mid, r, alt));
    Exec1(Nip, Running(Cell(c, Cell(b, Cell(xs[k], rest))), a));
    FewCells(c, xs[k], 0, rest);
    PickUnder([c, xs[k]], l, |mid| + k, r, a);
    assert l[|mid| + k] == ys[k];
    Exec1(Swap, Running(Cell(ys[k], Cell(c, Cell(xs[k], rest))), a));
    AddGuardRun(xs[k], ys[k], c, g, rest, a);
  }

  /** Fetching the low limbs back completes the sum; a failed guard stays failed. */
  lemma {:induction false} FinishSigned(w: Width, x: int, y: int, r: Stack, alt: Stack)
    requires Valid(w) && Fits(w.nBits, x) && Fits(w.nBits, y)
    ensures Base(w) > 0
    ensures Exec(Repeat([FromAlt], NLimbs(w) - 1),
                 Guarded(NLimbs(w) - 1, Base(w), Pow2(Head(w) - 1), Unsigned(w.nBits, x), Unsigned(w.nBits, y), r, alt)) ==
            if Fits(w.nBits, x + y) then Running(SignedOn(w, x + y, r), alt) else Failed
  {
    hide Exec;
    hide Hi;
    hide Low;
    hide Lo;
    hide HeadFits;
    hide Fits;
    hide Unsigned;
    hide NLimbs;
    hide Head;
    hide Repeat;
    hide Prepend;
    hide Digits;
    hide PushAll;
    var u, v := Unsigned(w.nBits, x), Unsigned(w.nBits, y);
    var k, b, g := NLimbs(w) - 1, Base(w), Pow2(Head(w) - 1);
    GuardExact(w, x, y);
    if Fits(w.nBits, x + y) {
      FromAltAll(Low(k, b, u + v), Cell(Lo(Hi(k, b, u + v), 2 * g), r), alt);
      ReducedOn(w, u + v, r);
    } else {
      ExecFailed(Repeat([FromAlt], k));
    }
  }

  lemma {:induction false} HeadsInRange(w: Width, x: int)
    requires Valid(w) && Fits(w.nBits, x)
    ensures Base(w) > 0 && 0 <= Hi(NLimbs(w) - 1, Base(w), Unsigned(w.nBits, x)) < 2 * Pow2(Head(w) - 1)
  {
    hide Hi;
    hide NLimbs;
    hide Head;
    BaseBounds(w);
    ReadingsInverse(w.nBits, 0, x);
    HeadBelow(w, Unsigned(w.nBits, x));
  }

  /** `add_ref` succeeds exactly when the signed sum fits, and then leaves exactly that sum. */
  lemma {:induction false} AddRefExact(w: Width, d: nat, mid: seq<int>, x: int, y: int, r: Stack, alt: Stack)
    requires Valid(w) && d != 0 && |mid| == (d - 1) * NLimbs(w) && 2 * NLimbs(w) + |mid| < 0x7FFF_FF00
    requires Fits(w.nBits, x) && Fits(w.nBits, y)
    ensures Exec(AddRef(w, d), Running(SignedOn(w, x, Prepend(mid, SignedOn(w, y, r))), alt)) ==
            if Fits(w.nBits, x + y) then Running(SignedOn(w, x + y, Prepend(mid, SignedOn(w, y, r))), alt) else Failed
  {
    hide Exec;
    hide Repeat;
    hide Fits;
    hide Unsigned;
    hide NLimbs;
    hide Head;
    hide Prepend;
    hide Digits;
    hide Hi;
    hide AddState;
    hide Guarded;
    hide AddGuard;
    hide AddRefTurn;
    hide LimbAddCreateCarry;
    hide Operands;
    var n := NLimbs(w);
    BlockEnd(d, n);
    SplitProduct(d, n);
    BaseBounds(w);
    HeadsInRange(w, x);
    HeadsInRange(w, y);
    var u, v := Unsigned(w.nBits, x), Unsigned(w.nBits, y);
    var k, b, g := n - 1, Base(w), Pow2(Head(w) - 1);
    var depth := n + |mid|;
    var first := [Num(depth), Pick] + [Add, Num(b), Swap] + LimbAddCreateCarry() + [ToAlt];
    var last := [Nip] + [Num(depth + 1), Pick] + [Swap] + AddGuard(2 * g);
    var s := Running(SignedOn(w, x, Prepend(mid, SignedOn(w, y, r))), alt);
    OperandsStack(Number(w, u), mid, Number(w, v), r);
    ExecAppend4(first, Repeat(AddRefTurn(depth), k - 1), last, Repeat([FromAlt], k), s);
    AddRefFirst(k, b, u, v, mid, r, alt);
    AddRefLoop(k - 1, 1, k, b, u, v, mid, r, alt);
    AddRefLast(k, b, g, u, v, mid, r, alt);
    PrependAppend(mid, Number(w, v), r);
    FinishSigned(w, x, y, Prepend(mid + Number(w, v), r), alt);
  }

  lemma {:induction false} OperandsStack(xs: seq<int>, mid: seq<int>, ys: seq<int>, r: Stack)
    ensures Prepend(xs, Prepend(mid, Prepend(ys, r))) == Prepend(Operands(0, xs, mid, ys), r)
  {
    hide Prepend;
    assert Operands(0, xs, mid, ys) == xs + mid + ys;
    PrependAppend(xs + mid, ys, r);
    PrependAppend(xs, mid, Prepend(ys, r));
  }

  // ---------- add_ref_stack ----------

  function AddTail(): Script {
    [Num(3), Roll, Add] + LimbAddCreateCarry() + [ToAlt]
  }

  function AddStackTurn(): Script {
    [Num(2), Pick, Pick, Add] + AddTail()
  }

  function AddRefInner(w: Width): Script
    requires Valid(w)
  {
    ([Num(3), Add, Num(Base(w)), Over, Sub1, Pick] + AddTail()) +
    Repeat(AddStackTurn(), NLimbs(w) - 2) +
    ([Nip, Swap, Num(2), Sub, Pick, Swap] + AddGuard(HeadOffset(w))) +
    Repeat([FromAlt], NLimbs(w) - 1)
  }

  /** The block of the lower number is an item on top of the stack. */
  function AddRefStack(w: Width): Script
    requires Valid(w)
  {
    Nmul(NLimbs(w)) + AddRefInner(w)
  }

  /** Shared by all turns: fetches the upper number's limb, adds it and splits off the carry. */
  lemma {:induction false} AddTailRun(t: int, x: int, b: nat, d: int, r: Stack, alt: Stack)
    requires 0 <= x < b && 0 <= t <= b && 0 < b <= 0x4000_0000
    ensures Exec(AddTail(), Running(Cell(t, Cell(b, Cell(d, Cell(x, r)))), alt)) ==
            Running(Cell(Up(x + t, b), Cell(b, Cell(d, r))), Cell(Lo(x + t, b), alt))
  {
    hide Exec;
    hide Step;
    hide Lo;
    hide Up;
    hide LimbAddCreateCarry;
    StackRules();
    MoreStackRules();
    DepthRules();
    NumberRules();
    ExecAppend3([Num(3), Roll, Add], LimbAddCreateCarry(), [ToAlt], Running(Cell(t, Cell(b, Cell(d, Cell(x, r)))), alt));
    Exec3(Num(3), Roll, Add, Running(Cell(t, Cell(b, Cell(d, Cell(x, r)))), alt));
    var v := x + t;
    assert t + x == v;
    CreateCarryRun(v, b, Cell(d, r), alt);
    Exec1(ToAlt, Running(Cell(Lo(v, b), Cell(Up(v, b), Cell(b, Cell(d, r)))), alt));
  }

  function StackState(j: nat, k: nat, b: nat, d: int, u: int, v: int, mid: seq<int>, r: Stack, alt: Stack): State
    requires b > 0 && j <= k + 1
  {
    Running(Cell(CarryOut(j, b, u, v, 0), Cell(b, Cell(d, Prepend(Operands(j, Digits(k, b, u), mid, Digits(k, b, v)), r)))),
            SumAlt(j, b, u + v, alt))
  }

  lemma {:induction false} AddStackTurnRun(j: nat, k: nat, b: nat, u: int, v: int, mid: seq<int>, r: Stack, alt: Stack)
    requires j < k && 2 * k + |mid| < 0x7FFF_FF00 && 0 < b <= 0x4000_0000
    ensures var d := k + 1 + |mid| + 3;
            Exec(AddStackTurn(), StackState(j, k, b, d, u, v, mid, r, alt)) == StackState(j + 1, k, b, d, u, v, mid, r, alt)
  {
    hide Exec;
    hide Step;
    hide CarryOut;
    hide SumAlt;
    hide Digits;
    hide Prepend;
    hide Operands;
    hide Lo;
    hide Up;
    hide AddTail;
    StackRules();
    DepthRules();
    NumberRules();
    var d := k + 1 + |mid| + 3;
    var xs, ys := Digits(k, b, u), Digits(k, b, v);
    var l := Operands(j, xs, mid, ys);
    var c := CarryOut(j, b, u, v, 0);
    var a := SumAlt(j, b, u + v, alt);
    SumStep(k, b, u, v, j, alt);
    OperandsTop(j, xs, mid, ys, r);
    var rest := Prepend(l, r);
    var s := Running(Cell(c, Cell(b, Cell(d, rest))), a);
    ExecAppend([Num(2), Pick, Pick, Add], AddTail(), s);
    Exec4(Num(2), Pick, Pick, Add, s);
    FewCells(c, b, d, rest);
    PickDeep([c, b, d], l, k + 1 + |mid|, r, a);
    var t := c + ys[j];
    AddTailRun(t, xs[j], b, d, Prepend(Operands(j + 1, xs, mid, ys), r), a);
    assert xs[j] + t == xs[j] + ys[j] + c;
  }

  lemma {:induction false} AddStackLoop(i: nat, j: nat, k: nat, b: nat, u: int, v: int, mid: seq<int>, r: Stack, alt: Stack)
    requires i + j <= k && 2 * k + |mid| < 0x7FFF_FF00 && 0 < b <= 0x4000_0000
    ensures var d := k + 1 + |mid| + 3;
            Exec(Repeat(AddStackTurn(), i), StackState(j, k, b, d, u, v, mid, r, alt)) ==
            StackState(i + j, k, b, d, u, v, mid, r, alt)
    decreases i
  {
    hide Exec;
    hide AddStackTurn;
    hide StackState;
    var s := StackState(j, k, b, k + 1 + |mid| + 3, u, v, mid, r, alt);
    if i == 0 {
      Exec0(s);
    } else {
      ExecRepeatLast(AddStackTurn(), i, s);
      AddStackLoop(i - 1, j, k, b, u, v, mid, r, alt);
      AddStackTurnRun(i + j - 1, k, b, u, v, mid, r, alt);
    }
  }

  lemma {:induction false} AddStackFirst(k: nat, b: nat, u: int, v: int, mid: seq<int>, r: Stack, alt: Stack)
    requires k > 0 && 2 * k + |mid| < 0x7FFF_FF00 && 0 < b <= 0x4000_0000
    ensures var d := k + 1 + |mid| + 3;
            Exec([Num(3), Add, Num(b), Over, Sub1, Pick] + AddTail(),
                 Running(Cell(k + 1 + |mid|, Prepend(Operands(0, Digits(k, b, u), mid, Digits(k, b, v)), r)), alt)) ==
            StackState(1, k, b, d, u, v, mid, r, alt)
  {
    hide Exec;
    hide Step;
    hide CarryOut;
    hide SumAlt;
    hide Digits;
    hide Prepend;
    hide Operands;
    hide Lo;
    hide Up;
    hide AddTail;
    StackRules();
    NumberRules();
    var d := k + 1 + |mid| + 3;
    var xs, ys := Digits(k, b, u), Digits(k, b, v);
    var l := Operands(0, xs, mid, ys);
    SumStart(b, u, v, alt);
    SumStep(k, b, u, v, 0, alt);
    OperandsTop(0, xs, mid, ys, r);
    var rest := Prepend(l, r);
    var s := Running(Cell(k + 1 + |mid|, rest), alt);
    ExecAppend([Num(3), Add, Num(b), Over, Sub1, Pick], AddTail(), s);
    Exec6(Num(3), Add, Num(b), Over, Sub1, Pick, s);
    FewCells(b, d, 0, rest);
    PickDeep([b, d], l, k + 1 + |mid|, r, alt);
    AddTailRun(ys[0], xs[0], b, d, Prepend(Operands(1, xs, mid, ys), r), alt);
  }

  lemma {:induction false} AddStackLast(k: nat, b: nat, g: nat, u: int, v: int, mid: seq<int>, r: Stack, alt: Stack)
    requires 2 * k + |mid| < 0x7FFF_FF00 && 0 < b <= 0x4000_0000 && 0 < g <= 0x2000_0000
    requires 0 <= Hi(k, b, u) < 2 * g && 0 <= Hi(k, b, v) < 2 * g
    ensures Exec([Nip, Swap, Num(2), Sub, Pick, Swap] + AddGuard(2 * g), StackState(k, k, b, k + 1 + |mid| + 3, u, v, mid, r, alt)) ==
            Guarded(k, b, g, u, v, Prepend(mid + Digits(k, b, v), r), alt)
  {
    hide Exec;
    hide Step;
    hide SumAlt;
    hide Digits;
    hide Prepend;
    hide Hi;
    hide Lo;
    hide AddGuard;
    hide HeadFits;
    StackRules();
    NumberRules();
    var d := k + 1 + |mid| + 3;
    var xs, ys := Digits(k, b, u), Digits(k, b, v);
    var l := mid + ys;
    var rest := Prepend(l, r);
    var c := CarryOut(k, b, u, v, 0);
    var a := SumAlt(k, b, u + v, alt);
    CarryIsBit(k, b, u, v);
    DigitAt(k, b, u, k);
    DigitAt(k, b, v, k);
    assert Operands(k, xs, mid, ys) == [xs[k]] + l;
    PrependFirst(xs[k], l, r);
    var s := StackState(k, k, b, d, u, v, mid, r, alt);
    ExecAppend([Nip, Swap, Num(2), Sub, Pick, Swap], AddGuard(2 * g), s);
    Exec6(Nip, Swap, Num(2), Sub, Pick, Swap, s);
    FewCells(c, xs[k], 0, rest);
    PickDeep([c, xs[k]], l, |mid| + k, r, a);
    assert l[|mid| + k] == ys[k];
    AddGuardRun(xs[k], ys[k], c, g, rest, a);
  }

  /** `add_ref_stack` is `add_ref` with the block number on the stack, equally exact. */
  lemma {:induction false} AddRefStackExact(w: Width, d: nat, mid: seq<int>, x: int, y: int, r: Stack, alt: Stack)
    requires Valid(w) && d != 0 && |mid| == (d - 1) * NLimbs(w) && 2 * NLimbs(w) + |mid| < 0x7FFF_FF00
    requires Fits(w.nBits, x) && Fits(w.nBits, y)
    ensures Exec(AddRefStack(w), Running(Cell(d, SignedOn(w, x, Prepend(mid, SignedOn(w, y, r)))), alt)) ==
            if Fits(w.nBits, x + y) then Running(SignedOn(w, x + y, Prepend(mid, SignedOn(w, y, r))), alt) else Failed
  {
    hide Exec;
    hide Nmul;
    hide Repeat;
    hide Fits;
    hide Unsigned;
    hide NLimbs;
    hide Head;
    hide Prepend;
    hide Digits;
    hide Hi;
    hide StackState;
    hide Guarded;
    hide AddGuard;
    hide AddStackTurn;
    hide AddTail;
    hide Operands;
    var n := NLimbs(w);
    BlockEnd(d, n);
    SplitProduct(d, n);
    BaseBounds(w);
    HeadsInRange(w, x);
    HeadsInRange(w, y);
    var u, v := Unsigned(w.nBits, x), Unsigned(w.nBits, y);
    var k, b, g := n - 1, Base(w), Pow2(Head(w) - 1);
    var rest := SignedOn(w, x, Prepend(mid, SignedOn(w, y, r)));
    assert n * d == n + |mid|;
    ExecAppend(Nmul(n), AddRefInner(w), Running(Cell(d, rest), alt));
    NmulRun(n, d, rest, alt);
    OperandsStack(Number(w, u), mid, Number(w, v), r);
    ExecAppend4([Num(3), Add, Num(b), Over, Sub1, Pick] + AddTail(), Repeat(AddStackTurn(), k - 1),
                [Nip, Swap, Num(2), Sub, Pick, Swap] + AddGuard(2 * g), Repeat([FromAlt], k),
                Running(Cell(n + |mid|, rest), alt));
    AddStackFirst(k, b, u, v, mid, r, alt);
    AddStackLoop(k - 1, 1, k, b, u, v, mid, r, alt);
    AddStackLast(k, b, g, u, v, mid, r, alt);
    PrependAppend(mid, Number(w, v), r);
    FinishSigned(w, x, y, Prepend(mid + Number(w, v), r), alt);
  }

  // ---------- add_ref_with_top ----------

  /** Turn i of `add_ref_with_top`, which keeps both operands. */
  function AddTopTurns(depth: nat, i: nat, n: nat): Script
    requires i <= n
    decreases n - i
  {
    if i == n then []
    else ([Num(i + 3), Pick] + [Add] + [Num(depth + i + 3), Pick] + ([Add] + LimbAddCreateCarry() + [ToAlt])) +
         AddTopTurns(depth, i + 1, n)
  }

  function AddRefWithTop(w: Width, b: nat): Script
    requires Valid(w) && b != 0
  {
    BlockEnd(b, NLimbs(w));
    var depth := b * NLimbs(w);
    ([Num(depth), Pick] + [Over, Add, Num(Base(w)), Swap] + LimbAddCreateCarry() + [ToAlt]) +
    AddTopTurns(depth, 0, NLimbs(w) - 2) +
    ([Nip] + [Num(depth + NLimbs(w)), Pick] + [Num(NLimbs(w) + 1), Pick] + ([Rot] + AddGuard(HeadOffset(w)))) +
    Repeat([FromAlt], NLimbs(w) - 1)
  }

  function KeepState(j: nat, k: nat, b: nat, u: int, v: int, l: seq<int>, r: Stack, alt: Stack): State
    requires b > 0
  {
    Running(Cell(CarryOut(j, b, u, v, 0), Cell(b, Prepend(l, r))), SumAlt(j, b, u + v, alt))
  }

  lemma {:induction false} AddTopTurnRun(j: nat, k: nat, b: nat, u: int, v: int, l: seq<int>, d: nat, r: Stack, alt: Stack)
    requires 0 < j < k && |l| < 0x7FFF_FF00 && 0 < b <= 0x4000_0000
    requires j < |l| && d + j < |l| && l[j] == Digits(k, b, u)[j] && l[d + j] == Digits(k, b, v)[j]
    ensures Exec([Num(j - 1 + 3), Pick] + [Add] + [Num(d + (j - 1) + 3), Pick] + ([Add] + LimbAddCreateCarry() + [ToAlt]),
                 KeepState(j, k, b, u, v, l, r, alt)) == KeepState(j + 1, k, b, u, v, l, r, alt)
  {
    hide Exec;
    hide Step;
    hide CarryOut;
    hide SumAlt;
    hide Digits;
    hide Prepend;
    hide Lo;
    hide Up;
    hide LimbAddCreateCarry;
    MoreStackRules();
    NumberRules();
    var c := CarryOut(j, b, u, v, 0);
    var a := SumAlt(j, b, u + v, alt);
    SumStep(k, b, u, v, j, alt);
    var rest := Prepend(l, r);
    var x, y := l[j], l[d + j];
    var s := Running(Cell(c, Cell(b, rest)), a);
    ExecAppend4([Num(j - 1 + 3), Pick], [Add], [Num(d + (j - 1) + 3), Pick], [Add] + LimbAddCreateCarry() + [ToAlt], s);
    FewCells(c, b, 0, rest);
    PickUnder([c, b], l, j, r, a);
    Exec1(Add, Running(Cell(x, Cell(c, Cell(b, rest))), a));
    FewCells(c + x, b, 0, rest);
    PickUnder([c + x, b], l, d + j, r, a);
    var s2 := Running(Cell(y, Cell(c + x, Cell(b, rest))), a);
    ExecAppend3([Add], LimbAddCreateCarry(), [ToAlt], s2);
    Exec1(Add, s2);
    var t := x + y + c;
    assert c + x + y == t;
    CreateCarryRun(t, b, rest, a);
    Exec1(ToAlt, Running(Cell(Lo(t, b), Cell(Up(t, b), Cell(b, rest))), a));
  }

  lemma {:induction false} AddTopLoop(i: nat, k: nat, b: nat, u: int, v: int, l: seq<int>, d: nat, r: Stack, alt: Stack)
    requires i < k && |l| < 0x7FFF_FF00 && 0 < b <= 0x4000_0000 && d + k < |l|
    requires forall j :: 0 <= j <= k ==> l[j] == Digits(k, b, u)[j]
    requires forall j :: 0 <= j <= k ==> l[d + j] == Digits(k, b, v)[j]
    ensures Exec(AddTopTurns(d, i, k - 1), KeepState(i + 1, k, b, u, v, l, r, alt)) == KeepState(k, k, b, u, v, l, r, alt)
    decreases k - i
  {
    hide Exec;
    hide KeepState;
    hide Digits;
    hide LimbAddCreateCarry;
    var s := KeepState(i + 1, k, b, u, v, l, r, alt);
    if i == k - 1 {
      Exec0(s);
    } else {
      var turn := [Num(i + 3), Pick] + [Add] + [Num(d + i + 3), Pick] + ([Add] + LimbAddCreateCarry() + [ToAlt]);
      ExecAppend(turn, AddTopTurns(d, i + 1, k - 1), s);
      AddTopTurnRun(i + 1, k, b, u, v, l, d, r, alt);
      AddTopLoop(i + 1, k, b, u, v, l, d, r, alt);
    }
  }

  lemma {:induction false} AddTopFirst(k: nat, b: nat, u: int, v: int, l: seq<int>, d: nat, r: Stack, alt: Stack)
    requires 0 < k && |l| < 0x7FFF_FF00 && 0 < b <= 0x4000_0000 && 0 < d < |l|
    requires l[0] == Digits(k, b, u)[0] && l[d] == Digits(k, b, v)[0]
    ensures Exec([Num(d), Pick] + [Over, Add, Num(b), Swap] + LimbAddCreateCarry() + [ToAlt], Running(Prepend(l, r), alt)) ==
            KeepState(1, k, b, u, v, l, r, alt)
  {
    hide Exec;
    hide Step;
    hide CarryOut;
    hide SumAlt;
    hide Digits;
    hide Prepend;
    hide Lo;
    hide Up;
    hide LimbAddCreateCarry;
    StackRules();
    MoreStackRules();
    NumberRules();
    SumStart(b, u, v, alt);
    SumStep(k, b, u, v, 0, alt);
    var rest := Prepend(l, r);
    var x, y := l[0], l[d];
    ExecAppend4([Num(d), Pick], [Over, Add, Num(b), Swap], LimbAddCreateCarry(), [ToAlt], Running(rest, alt));
    EmptyPrepend(rest);
    PickUnder([], l, d, r, alt);
    assert l == [x] + l[1..];
    PrependFirst(x, l[1..], r);
    var t := x + y;
    assert y + x == t;
    Exec4(Over, Add, Num(b), Swap, Running(Cell(y, rest), alt));
    CreateCarryRun(t, b, rest, alt);
    Exec1(ToAlt, Running(Cell(Lo(t, b), Cell(Up(t, b), Cell(b, rest))), alt));
  }

  lemma {:induction false} AddTopLast(k: nat, b: nat, g: nat, u: int, v: int, l: seq<int>, d: nat, r: Stack, alt: Stack)
    requires |l| < 0x7FFF_FF00 && 0 < b <= 0x4000_0000 && 0 < g <= 0x2000_0000 && d + k < |l|
    requires 0 <= Hi(k, b, u) < 2 * g && 0 <= Hi(k, b, v) < 2 * g
    requires l[k] == Digits(k, b, u)[k] && l[d + k] == Digits(k, b, v)[k]
    ensures Exec([Nip] + [Num(d + (k + 1)), Pick] + [Num(k + 1 + 1), Pick] + ([Rot] + AddGuard(2 * g)), KeepState(k, k, b, u, v, l, r, alt)) ==
            Guarded(k, b, g, u, v, Prepend(l, r), alt)
  {
    hide Exec;
    hide Step;
    hide SumAlt;
    hide Digits;
    hide Prepend;
    hide Hi;
    hide Lo;
    hide AddGuard;
    hide HeadFits;
    StackRules();
    MoreStackRules();
    var rest := Prepend(l, r);
    var c := CarryOut(k, b, u, v, 0);
    var a := SumAlt(k, b, u + v, alt);
    CarryIsBit(k, b, u, v);
    DigitAt(k, b, u, k);
    DigitAt(k, b, v, k);
    var x, y := l[k], l[d + k];
    ExecAppend4([Nip], [Num(d + (k + 1)), Pick], [Num(k + 1 + 1), Pick], [Rot] + AddGuard(2 * g), KeepState(k, k, b, u, v, l, r, alt));
    Exec1(Nip, Running(Cell(c, Cell(b, rest)), a));
    FewCells(c, 0, 0, rest);
    PickUnder([c], l, d + k, r, a);
    FewCells(y, c, 0, rest);
    PickUnder([y, c], l, k, r, a);
    var s := Running(Cell(x, Cell(y, Cell(c, rest))), a);
    ExecAppend([Rot], AddGuard(2 * g), s);
    Exec1(Rot, s);
    AddGuardRun(y, x, c, g, rest, a);
    assert y + x + c == x + y + c;
    HeadFitsSymmetric(x, y, x + y + c, g);
  }

  lemma {:induction false} HeadFitsSymmetric(x: int, y: int, t: int, g: nat)
    requires g > 0
    ensures HeadFits(x, y, t, g) == HeadFits(y, x, t, g)
  {
  }

  /** `add_ref_with_top` leaves the signed sum on top of both operands, exactly when it fits. */
  lemma {:induction false} AddRefWithTopExact(w: Width, d: nat, mid: seq<int>, x: int, y: int, r: Stack, alt: Stack)
    requires Valid(w) && d != 0 && |mid| == (d - 1) * NLimbs(w) && 2 * NLimbs(w) + |mid| < 0x7FFF_FF00
    requires Fits(w.nBits, x) && Fits(w.nBits, y)
    ensures var both := SignedOn(w, x, Prepend(mid, SignedOn(w, y, r)));
            Exec(AddRefWithTop(w, d), Running(both, alt)) ==
            if Fits(w.nBits, x + y) then Running(SignedOn(w, x + y, both), alt) else Failed
  {
    hide Exec;
    hide Repeat;
    hide Fits;
    hide Unsigned;
    hide NLimbs;
    hide Head;
    hide Prepend;
    hide Digits;
    hide Hi;
    hide KeepState;
    hide Guarded;
    hide AddGuard;
    hide AddTopTurns;
    hide LimbAddCreateCarry;
    var n := NLimbs(w);
    BlockEnd(d, n);
    SplitProduct(d, n);
    BaseBounds(w);
    HeadsInRange(w, x);
    HeadsInRange(w, y);
    var u, v := Unsigned(w.nBits, x), Unsigned(w.nBits, y);
    var k, b, g := n - 1, Base(w), Pow2(Head(w) - 1);
    var depth := n + |mid|;
    var xs, ys := Number(w, u), Number(w, v);
    var l := xs + mid + ys;
    var both := SignedOn(w, x, Prepend(mid, SignedOn(w, y, r)));
    assert Operands(0, xs, mid, ys) == l;
    OperandsStack(xs, mid, ys, r);
    assert forall j :: 0 <= j <= k ==> l[j] == xs[j];
    assert forall j :: 0 <= j <= k ==> l[depth + j] == ys[j];
    var first := [Num(depth), Pick] + [Over, Add, Num(b), Swap] + LimbAddCreateCarry() + [ToAlt];
    var last := [Nip] + [Num(depth + n), Pick] + [Num(n + 1), Pick] + ([Rot] + AddGuard(2 * g));
    ExecAppend4(first, AddTopTurns(depth, 0, n - 2), last, Repeat([FromAlt], k), Running(both, alt));
    AddTopFirst(k, b, u, v, l, depth, r, alt);
    AddTopLoop(0, k, b, u, v, l, depth, r, alt);
    AddTopLast(k, b, g, u, v, l, depth, r, alt);
    FinishSigned(w, x, y, both, alt);
  }
}
