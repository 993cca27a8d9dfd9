/** Signed doubling that fails on overflow (bitvm/src/bigint/add.rs). */
module SignedDouble {
  import opened Arithmetic
  import opened ScriptMachine
  import opened Limbs
  import opened StackMoves
  import opened UnsignedAdd
  import opened TwosComplement
  import opened SignedLimbs
  import opened SignedAdd

  // ---------- generators ----------

  function LimbDoubleWithoutCarry(): Script {
    Nmul(2) + LimbAddCreateCarry()
  }

  function LimbDoubleWithCarry(): Script {
    Nmul(2) + [Add] + LimbAddCreateCarry()
  }

  function DoubleTurn(): Script {
    [Rot] + LimbDoubleWithCarry() + [ToAlt]
  }

  function DoublePreventOverflow(w: Width): Script
    requires Valid(w)
  {
    ([Num(Base(w)), Swap] + LimbDoubleWithoutCarry() + [ToAlt]) +
    Repeat(DoubleTurn(), NLimbs(w) - 2) +
    ([Nip] + DoubleGuard(HeadOffset(w))) +
    Repeat([FromAlt], NLimbs(w) - 1)
  }

  function KeepTurns(depth: nat, i: nat, n: nat): Script
    requires i <= n
    decreases n - i
  {
    if i == n then []
    else ([Num(depth + i + 3), Pick] + LimbDoubleWithCarry() + [ToAlt]) + KeepTurns(depth, i + 1, n)
  }

  /** Doubles the number at block d, which stays. */
  function DoubleKeepElement(w: Width, d: nat): Script
    requires Valid(w)
  {
    BlockEnd(d, NLimbs(w));
    var depth := d * NLimbs(w);
    ([Num(Base(w))] + [Num(depth + 1), Pick] + LimbDoubleWithoutCarry() + [ToAlt]) +
    KeepTurns(depth, 0, NLimbs(w) - 2) +
    ([Nip] + [Num(depth + NLimbs(w)), Pick] + [Swap] + DoubleGuard(HeadOffset(w))) +
    Repeat([FromAlt], NLimbs(w) - 1)
  }

  // ---------- limbs ----------

  lemma {:induction false} WithoutCarryRun(x: int, b: nat, r: Stack, alt: Stack)
    requires 0 <= x < b && b <= 0x4000_0000
    ensures Exec(LimbDoubleWithoutCarry() + [ToAlt], Running(Cell(x, Cell(b, r)), alt)) ==
            Running(Cell(Up(x + x, b), Cell(b, r)), Cell(Lo(x + x, b), alt))
  {
    hide Exec;
    hide Step;
    hide Lo;
    hide Up;
    hide Nmul;
    hide LimbAddCreateCarry;
    StackRules();
    MoreStackRules();
    NumberRules();
    var s := Running(Cell(x, Cell(b, r)), alt);
    NmulTwo();
    ExecAppend3(Nmul(2), LimbAddCreateCarry(), [ToAlt], s);
    Exec2(Dup, Add, s);
    var t := x + x;
    CreateCarryRun(t, b, r, alt);
    Exec1(ToAlt, Running(Cell(Lo(t, b), Cell(Up(t, b), Cell(b, r))), alt));
  }

  lemma {:induction false} WithCarryRun(x: int, c: int, b: nat, r: Stack, alt: Stack)
    requires 0 <= x < b && 0 <= c <= 1 && b <= 0x4000_0000
    ensures Exec(LimbDoubleWithCarry() + [ToAlt], Running(Cell(x, Cell(c, Cell(b, r))), alt)) ==
            Running(Cell(Up(x + x + c, b), Cell(b, r)), Cell(Lo(x + x + c, b), alt))
  {
    hide Exec;
    hide Step;
    hide Lo;
    hide Up;
    hide Nmul;
    hide LimbAddCreateCarry;
    StackRules();
    MoreStackRules();
    NumberRules();
    var s := Running(Cell(x, Cell(c, Cell(b, r))), alt);
    NmulTwo();
    ExecAppend4(Nmul(2), [Add], LimbAddCreateCarry(), [ToAlt], s);
    Exec2(Dup, Add, s);
    var t := x + x + c;
    assert c + (x + x) == t;
    Exec1(Add, Running(Cell(x + x, Cell(c, Cell(b, r))), alt));
    CreateCarryRun(t, b, r, alt);
    Exec1(ToAlt, Running(Cell(Lo(t, b), Cell(Up(t, b), Cell(b, r))), alt));
  }

  // ---------- consuming the number ----------

  function DoubleState(j: nat, k: nat, b: nat, u: int, r: Stack, alt: Stack): State
    requires b > 0 && j <= k + 1
  {
    Running(Cell(CarryOut(j, b, u, u, 0), Cell(b, Prepend(Digits(k, b, u)[j..], r))), SumAlt(j, b, u + u, alt))
  }

  lemma {:induction false} DropFirst(l: seq<int>, j: nat, r: Stack)
    requires j < |l|
    ensures Prepend(l[j..], r) == Cell(l[j], Prepend(l[j + 1..], r))
  {
    assert l[j..][1..] == l[j + 1..];
  }

  lemma {:induction false} DoubleTurnRun(j: nat, k: nat, b: nat, u: int, r: Stack, alt: Stack)
    requires j < k && 0 < b <= 0x4000_0000
    ensures Exec(DoubleTurn(), DoubleState(j, k, b, u, r, alt)) == DoubleState(j + 1, k, b, u, r, alt)
  {
    hide Exec;
    hide Step;
    hide CarryOut;
    hide SumAlt;
    hide Digits;
    hide Prepend;
    hide LimbDoubleWithCarry;
    hide Lo;
    hide Up;
    MoreStackRules();
    var xs := Digits(k, b, u);
    var c := CarryOut(j, b, u, u, 0);
    var a := SumAlt(j, b, u + u, alt);
    var rest := Prepend(xs[j + 1..], r);
    SumStep(k, b, u, u, j, alt);
    DropFirst(xs, j, r);
    var s := DoubleState(j, k, b, u, r, alt);
    assert [Rot] + LimbDoubleWithCarry() + [ToAlt] == [Rot] + (LimbDoubleWithCarry() + [ToAlt]);
    ExecAppend([Rot], LimbDoubleWithCarry() + [ToAlt], s);
    Exec1(Rot, s);
    WithCarryRun(xs[j], c, b, rest, a);
  }

  lemma {:induction false} DoubleLoop(i: nat, j: nat, k: nat, b: nat, u: int, r: Stack, alt: Stack)
    requires i + j <= k && 0 < b <= 0x4000_0000
    ensures Exec(Repeat(DoubleTurn(), i), DoubleState(j, k, b, u, r, alt)) == DoubleState(i + j, k, b, u, r, alt)
    decreases i
  {
    hide Exec;
    hide DoubleState;
    hide DoubleTurn;
    var s := DoubleState(j, k, b, u, r, alt);
    if i == 0 {
      Exec0(s);
    } else {
      ExecRepeatLast(DoubleTurn(), i, s);
      DoubleLoop(i - 1, j, k, b, u, r, alt);
      DoubleTurnRun(i + j - 1, k, b, u, r, alt);
    }
  }

  lemma {:induction false} DoubleFirst(k: nat, b: nat, u: int, r: Stack, alt: Stack)
    requires k > 0 && 0 < b <= 0x4000_0000
    ensures Exec([Num(b), Swap] + LimbDoubleWithoutCarry() + [ToAlt], Running(Prepend(Digits(k, b, u), r), alt)) ==
            DoubleState(1, k, b, u, r, alt)
  {
    hide Exec;
    hide Step;
    hide CarryOut;
    hide SumAlt;
    hide Digits;
    hide Prepend;
    hide LimbDoubleWithoutCarry;
    hide Lo;
    hide Up;
    StackRules();
    var xs := Digits(k, b, u);
    SumStart(b, u, u, alt);
    SumStep(k, b, u, u, 0, alt);
    DropFirst(xs, 0, r);
    assert xs[0..] == xs;
    var s := Running(Prepend(xs, r), alt);
    assert [Num(b), Swap] + LimbDoubleWithoutCarry() + [ToAlt] == [Num(b), Swap] + (LimbDoubleWithoutCarry() + [ToAlt]);
    ExecAppend([Num(b), Swap], LimbDoubleWithoutCarry() + [ToAlt], s);
    Exec2(Num(b), Swap, s);
    WithoutCarryRun(xs[0], b, Prepend(xs[1..], r), alt);
  }

  lemma {:induction false} DoubleLast(k: nat, b: nat, g: nat, u: int, r: Stack, alt: Stack)
    requires 0 < b && 0 < g <= 0x2000_0000 && 0 <= Hi(k, b, u) < 2 * g
    ensures Exec([Nip] + DoubleGuard(2 * g), DoubleState(k, k, b, u, r, alt)) == Guarded(k, b, g, u, u, r, alt)
  {
    hide Exec;
    hide Step;
    hide SumAlt;
    hide Digits;
    hide Prepend;
    hide Hi;
    hide Lo;
    hide DoubleGuard;
    hide HeadFits;
    StackRules();
    var x := Hi(k, b, u);
    var c := CarryOut(k, b, u, u, 0);
    var a := SumAlt(k, b, u + u, alt);
    CarryIsBit(k, b, u, u);
    DigitAt(k, b, u, k);
    DropFirst(Digits(k, b, u), k, r);
    assert Digits(k, b, u)[k + 1..] == [];
    EmptyPrepend(r);
    var s := DoubleState(k, k, b, u, r, alt);
    ExecAppend([Nip], DoubleGuard(2 * g), s);
    Exec1(Nip, s);
    DoubleGuardRun(x, c, g, r, a);
  }

  /** `double_prevent_overflow` succeeds exactly when the signed double fits, and then leaves exactly that. */
  lemma {:induction false} DoubleExact(w: Width, x: int, r: Stack, alt: Stack)
    requires Valid(w) && Fits(w.nBits, x)
    ensures Exec(DoublePreventOverflow(w), Running(SignedOn(w, x, r), alt)) ==
            if Fits(w.nBits, x + x) then Running(SignedOn(w, x + x, r), alt) else Failed
  {
    hide Exec;
    hide Repeat;
    hide Fits;
    hide Unsigned;
    hide NLimbs;
    hide Head;
    hide Prepend;
    hide Digits;
    hide Hi;
    hide DoubleState;
    hide Guarded;
    hide DoubleGuard;
    hide DoubleTurn;
    hide LimbDoubleWithoutCarry;
    BaseBounds(w);
    HeadsInRange(w, x);
    var u := Unsigned(w.nBits, x);
    var k, b, g := NLimbs(w) - 1, Base(w), Pow2(Head(w) - 1);
    var s := Running(SignedOn(w, x, r), alt);
    ExecAppend4([Num(b), Swap] + LimbDoubleWithoutCarry() + [ToAlt], Repeat(DoubleTurn(), k - 1), [Nip] + DoubleGuard(2 * g),
                Repeat([FromAlt], k), s);
    DoubleFirst(k, b, u, r, alt);
    DoubleLoop(k - 1, 1, k, b, u, r, alt);
    DoubleLast(k, b, g, u, r, alt);
    FinishSigned(w, x, x, r, alt);
  }

  // ---------- keeping the number ----------

  lemma {:induction false} KeepTurnRun(j: nat, k: nat, b: nat, u: int, l: seq<int>, d: nat, r: Stack, alt: Stack)
    requires 0 < j < k && |l| < 0x7FFF_FF00 && 0 < b <= 0x4000_0000 && d + j < |l| && l[d + j] == Digits(k, b, u)[j]
    ensures Exec([Num(d + (j - 1) + 3), Pick] + LimbDoubleWithCarry() + [ToAlt], KeepState(j, k, b, u, u, l, r, alt)) ==
            KeepState(j + 1, k, b, u, u, l, r, alt)
  {
    hide Exec;
    hide CarryOut;
    hide SumAlt;
    hide Digits;
    hide Prepend;
    hide LimbDoubleWithCarry;
    hide Lo;
    hide Up;
    var c := CarryOut(j, b, u, u, 0);
    var a := SumAlt(j, b, u + u, alt);
    SumStep(k, b, u, u, j, alt);
    var rest := Prepend(l, r);
    var pick := [Num(d + (j - 1) + 3), Pick];
    assert pick + LimbDoubleWithCarry() + [ToAlt] == pick + (LimbDoubleWithCarry() + [ToAlt]);
    ExecAppend(pick, LimbDoubleWithCarry() + [ToAlt], Running(Cell(c, Cell(b, rest)), a));
    FewCells(c, b, 0, rest);
    PickUnder([c, b], l, d + j, r, a);
    WithCarryRun(l[d + j], c, b, rest, a);
  }

  lemma {:induction false} KeepLoop(i: nat, k: nat, b: nat, u: int, l: seq<int>, d: nat, r: Stack, alt: Stack)
    requires i < k && |l| < 0x7FFF_FF00 && 0 < b <= 0x4000_0000 && d + k < |l|
    requires forall j :: 0 <= j <= k ==> l[d + j] == Digits(k, b, u)[j]
    ensures Exec(KeepTurns(d, i, k - 1), KeepState(i + 1, k, b, u, u, l, r, alt)) == KeepState(k, k, b, u, u, l, r, alt)
    decreases k - i
  {
    hide Exec;
    hide KeepState;
    hide Digits;
    hide LimbDoubleWithCarry;
    var s := KeepState(i + 1, k, b, u, u, l, r, alt);
    if i == k - 1 {
      Exec0(s);
    } else {
      ExecAppend([Num(d + i + 3), Pick] + LimbDoubleWithCarry() + [ToAlt], KeepTurns(d, i + 1, k - 1), s);
      KeepTurnRun(i + 1, k, b, u, l, d, r, alt);
      KeepLoop(i + 1, k, b, u, l, d, r, alt);
    }
  }

  lemma {:induction false} KeepFirst(k: nat, b: nat, u: int, l: seq<int>, d: nat, r: Stack, alt: Stack)
    requires 0 < k && |l| < 0x7FFF_FF00 && 0 < b <= 0x4000_0000 && d < |l| && l[d] == Digits(k, b, u)[0]
    ensures Exec([Num(b)] + [Num(d + 1), Pick] + LimbDoubleWithoutCarry() + [ToAlt], Running(Prepend(l, r), alt)) ==
            KeepState(1, k, b, u, u, l, r, alt)
  {
    hide Exec;
    hide Step;
    hide CarryOut;
    hide SumAlt;
    hide Digits;
    hide Prepend;
    hide LimbDoubleWithoutCarry;
    hide Lo;
    hide Up;
    StackRules();
    SumStart(b, u, u, alt);
    SumStep(k, b, u, u, 0, alt);
    var rest := Prepend(l, r);
    var pick := [Num(d + 1), Pick];
    assert [Num(b)] + pick + LimbDoubleWithoutCarry() + [ToAlt] == [Num(b)] + pick + (LimbDoubleWithoutCarry() + [ToAlt]);
    ExecAppend3([Num(b)], pick, LimbDoubleWithoutCarry() + [ToAlt], Running(rest, alt));
    Exec1(Num(b), Running(rest, alt));
    FewCells(b, 0, 0, rest);
    PickUnder([b], l, d, r, alt);
    WithoutCarryRun(l[d], b, rest, alt);
  }

  lemma {:induction false} KeepLast(k: nat, b: nat, g: nat, u: int, l: seq<int>, d: nat, r: Stack, alt: Stack)
    requires |l| < 0x7FFF_FF00 && 0 < b && 0 < g <= 0x2000_0000 && d + k < |l| && l[d + k] == Digits(k, b, u)[k]
    requires 0 <= Hi(k, b, u) < 2 * g
    ensures Exec([Nip] + [Num(d + (k + 1)), Pick] + [Swap] + DoubleGuard(2 * g), KeepState(k, k, b, u, u, l, r, alt)) ==
            Guarded(k, b, g, u, u, Prepend(l, r), alt)
  {
    hide Exec;
    hide Step;
    hide SumAlt;
    hide Digits;
    hide Prepend;
    hide Hi;
    hide Lo;
    hide DoubleGuard;
    hide HeadFits;
    StackRules();
    var rest := Prepend(l, r);
    var c := CarryOut(k, b, u, u, 0);
    var a := SumAlt(k, b, u + u, alt);
    CarryIsBit(k, b, u, u);
    DigitAt(k, b, u, k);
    ExecAppend4([Nip], [Num(d + (k + 1)), Pick], [Swap], DoubleGuard(2 * g), KeepState(k, k, b, u, u, l, r, alt));
    Exec1(Nip, Running(Cell(c, Cell(b, rest)), a));
    FewCells(c, 0, 0, rest);
    PickUnder([c], l, d + k, r, a);
    Exec1(Swap, Running(Cell(l[d + k], Cell(c, rest)), a));
    DoubleGuardRun(l[d + k], c, g, rest, a);
  }

  /** `double_prevent_overflow_keep_element` leaves the signed double on top of everything, exactly when it fits. */
  lemma {:induction false} DoubleKeepExact(w: Width, d: nat, top: seq<int>, x: int, r: Stack, alt: Stack)
    requires Valid(w) && |top| == d * NLimbs(w) && |top| + NLimbs(w) < 0x7FFF_FF00 && Fits(w.nBits, x)
    ensures var all := Prepend(top, SignedOn(w, x, r));
            Exec(DoubleKeepElement(w, d), Running(all, alt)) ==
            if Fits(w.nBits, x + x) then Running(SignedOn(w, x + x, all), alt) else Failed
  {
    hide Exec;
    hide Repeat;
    hide Fits;
    hide Unsigned;
    hide NLimbs;
    hide Head;
    hide Prepend;
    hide Digits;
    hide Hi;
    hide KeepState;
    hide Guarded;
    hide DoubleGuard;
    hide KeepTurns;
    hide LimbDoubleWithoutCarry;
    BaseBounds(w);
    HeadsInRange(w, x);
    var u := Unsigned(w.nBits, x);
    var n, b, g := NLimbs(w), Base(w), Pow2(Head(w) - 1);
    var k, depth := n - 1, |top|;
    var xs := Number(w, u);
    var l := top + xs;
    PrependAppend(top, xs, r);
    var all := Prepend(top, SignedOn(w, x, r));
    assert forall j :: 0 <= j <= k ==> l[depth + j] == xs[j];
    ExecAppend4([Num(b)] + [Num(depth + 1), Pick] + LimbDoubleWithoutCarry() + [ToAlt], KeepTurns(depth, 0, n - 2),
                [Nip] + [Num(depth + n), Pick] + [Swap] + DoubleGuard(2 * g), Repeat([FromAlt], k), Running(all, alt));
    KeepFirst(k, b, u, l, depth, r, alt);
    KeepLoop(0, k, b, u, l, depth, r, alt);
    KeepLast(k, b, g, u, l, depth, r, alt);
    FinishSigned(w, x, x, all, alt);
  }
}
