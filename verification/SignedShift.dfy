/** Signed left shift by several bits that fails on overflow (bitvm/src/bigint/add.rs). */
module SignedShift {
  import opened Arithmetic
  import opened ScriptMachine
  import opened Limbs
  import opened StackMoves
  import opened UnsignedAdd
  import opened BitConversion
  import opened TwosComplement
  import opened SignedLimbs
  import opened SignedAdd
  import opened SignedDouble

  // ---------- generators ----------

  /** The lowest limb has no incoming carries. */
  function ShiftWithoutCarry(s: nat): Script
    requires s > 0
  {
    [Swap] + Repeat(LimbDoubleWithoutCarry() + [Rot, Swap], s - 1) + LimbDoubleWithoutCarry() + [ToAlt, Swap]
  }

  /** Doubles once, taking in the most significant of the incoming carries. */
  function ShiftBit(s: nat): Script {
    Nmul(2) + [Num(1 + s), Roll] + [Add] + LimbAddCreateCarry()
  }

  function ShiftWithCarry(s: nat): Script
    requires s > 0
  {
    [Num(1 + s), Roll] + Repeat(ShiftBit(s) + [Rot, Swap], s - 1) + ShiftBit(s) + [ToAlt, Swap]
  }

  function HeadTurns(i: nat, s: nat): Script
    requires i <= s
    decreases s - i
  {
    if i == s then []
    else Nmul(2) + (if i + 1 < s then [Num(s - i), Roll] else []) + [Add] + HeadTurns(i + 1, s)
  }

  function HeadSign(g: nat): Script {
    [Num(g), Dup, ToAlt] + [Dup2, LessThan, If([Not], []), Dup, Add, Sub]
  }

  function HeadCheck(): Script {
    [FromAlt, Over, Dup2, Swap, Dup, Negate, Swap] + [Within, Verify, Num(0), GreaterThanOrEqual, If([Not], [])] +
    [Dup, Add, Add]
  }

  function ShiftHead(s: nat, g: nat): Script {
    [Num(s), Roll] + HeadSign(g) + HeadTurns(0, s) + HeadCheck()
  }

  function ShiftPreventOverflow(w: Width, s: nat): Script
    requires Valid(w) && s > 0
  {
    ([Num(Base(w))] + ShiftWithoutCarry(s)) +
    Repeat(ShiftWithCarry(s), NLimbs(w) - 2) +
    ([Drop] + ShiftHead(s, Pow2(Head(w) - 1))) +
    Repeat([FromAlt], NLimbs(w) - 1)
  }

  // ---------- doubling one limb bit by bit ----------

  /** A limb l shifted i times, the top i of the s bits of p shifted in. */
  function Partial(l: nat, p: nat, i: nat, s: nat): int
    requires i <= s
  {
    l * Pow2(i) + Hi(s - i, 2, p)
  }

  lemma {:induction false} PartialStep(l: nat, p: nat, i: nat, s: nat)
    requires i < s
    ensures Partial(l, p, i + 1, s) == 2 * Partial(l, p, i, s) + Lo(Hi(s - i - 1, 2, p), 2)
    ensures Low(s - i, 2, p) == Low(s - i - 1, 2, p) + [Lo(Hi(s - i - 1, 2, p), 2)]
  {
    hide Low;
    hide Hi;
    hide Lo;
    hide Up;
    HiLast(s - i, 2, p);
    Split(Hi(s - i - 1, 2, p), 2);
    assert l * Pow2(i + 1) == 2 * (l * Pow2(i));
  }

  lemma {:induction false} PartialEnds(l: nat, p: nat, s: nat)
    requires p < Pow2(s)
    ensures Partial(l, p, 0, s) == l && Partial(l, p, s, s) == l * Pow2(s) + p
  {
    hide Up;
    HiIsUp(s, p);
    SplitUnique(p, Pow2(s), 0, p);
    assert Pow2(0) == 1 && l * 1 == l;
  }

  /** Doubling and adding a bit, seen in the limb and in the carries that left it. */
  lemma {:induction false} ShiftStep(q: int, e: int, b: nat, i: nat)
    requires b > 0 && 0 <= e <= 1
    ensures var t := Lo(q, b) + Lo(q, b) + e;
            0 <= t < 2 * b && Lo(2 * q + e, b) == Lo(t, b) && 0 <= Up(t, b) <= 1 &&
            Low(i + 1, 2, Up(2 * q + e, b)) == [Up(t, b)] + Low(i, 2, Up(q, b))
  {
    hide Lo;
    hide Up;
    var t := Lo(q, b) + Lo(q, b) + e;
    CarryStep(q, q, e, b);
    assert q + q + e == 2 * q + e;
    var c := Up(2 * q + e, b);
    SplitUnique(c, 2, Up(q, b), Up(t, b));
  }

  lemma {:induction false} RollUnder(x: int, y: int, o: seq<int>, p: int, r: Stack, alt: Stack)
    requires |o| < 0x7FFF_FF00
    ensures Exec([Num(2 + |o|), Roll], Running(Cell(x, Cell(y, Prepend(o + [p], r))), alt)) ==
            Running(Cell(p, Cell(x, Cell(y, Prepend(o, r)))), alt)
  {
    hide Exec;
    hide Prepend;
    PrependLast(o, p, r);
    FewCells(x, y, 0, Prepend(o, Cell(p, r)));
    FewCells(x, y, 0, Prepend(o, r));
    PrependAppend([x, y], o, Cell(p, r));
    PrependAppend([x, y], o, r);
    RollBelow([x, y] + o, p, r, alt);
  }

  /** The state inside a limb: the shifted limb, the base, the carries out (the latest on top), the carries still to come in. */
  function InLimb(q: int, i: nat, b: nat, p: nat, left: nat, r: Stack, alt: Stack): State
    requires b > 0
  {
    Running(Cell(Lo(q, b), Cell(b, Prepend(Low(i, 2, Up(q, b)) + Low(left, 2, p), r))), alt)
  }

  lemma {:induction false} ShiftBitRun(l: nat, p: nat, i: nat, s: nat, b: nat, r: Stack, alt: Stack)
    requires i < s < 0x7FFF_FF00 && 0 < b <= 0x4000_0000
    ensures var q, q' := Partial(l, p, i, s), Partial(l, p, i + 1, s);
            var c := Up(Lo(q, b) + Lo(q, b) + Lo(Hi(s - i - 1, 2, p), 2), b);
            Exec(ShiftBit(s), InLimb(q, i, b, p, s - i, r, alt)) ==
            Running(Cell(Lo(q', b), Cell(c, Cell(b, Prepend(Low(i, 2, Up(q, b)) + Low(s - i - 1, 2, p), r)))), alt) &&
            [c] + Low(i, 2, Up(q, b)) == Low(i + 1, 2, Up(q', b))
  {
    hide Exec;
    hide Step;
    hide Lo;
    hide Up;
    hide Hi;
    hide Low;
    hide Partial;
    hide Prepend;
    hide Nmul;
    hide LimbAddCreateCarry;
    StackRules();
    NumberRules();
    var q := Partial(l, p, i, s);
    var e := Lo(Hi(s - i - 1, 2, p), 2);
    PartialStep(l, p, i, s);
    ShiftStep(q, e, b, i);
    var o := Low(i, 2, Up(q, b)) + Low(s - i - 1, 2, p);
    assert Low(i, 2, Up(q, b)) + Low(s - i, 2, p) == o + [e];
    var x := Lo(q, b);
    var st := Running(Cell(x, Cell(b, Prepend(o + [e], r))), alt);
    NmulTwo();
    ExecAppend4(Nmul(2), [Num(1 + s), Roll], [Add], LimbAddCreateCarry(), st);
    Exec2(Dup, Add, st);
    assert 2 + |o| == 1 + s;
    RollUnder(x + x, b, o, e, r, alt);
    Exec1(Add, Running(Cell(e, Cell(x + x, Cell(b, Prepend(o, r)))), alt));
    CreateCarryRun(x + x + e, b, Prepend(o, r), alt);
  }

  lemma {:induction false} ShiftTurnRun(l: nat, p: nat, i: nat, s: nat, b: nat, r: Stack, alt: Stack)
    requires i < s < 0x7FFF_FF00 && 0 < b <= 0x4000_0000
    ensures Exec(ShiftBit(s) + [Rot, Swap], InLimb(Partial(l, p, i, s), i, b, p, s - i, r, alt)) ==
            InLimb(Partial(l, p, i + 1, s), i + 1, b, p, s - i - 1, r, alt)
    ensures i + 1 == s ==>
      Exec(ShiftBit(s) + [ToAlt, Swap], InLimb(Partial(l, p, i, s), i, b, p, s - i, r, alt)) ==
      Running(Cell(b, Prepend(Low(s, 2, Up(Partial(l, p, s, s), b)), r)), Cell(Lo(Partial(l, p, s, s), b), alt))
  {
    hide Exec;
    hide Step;
    hide Lo;
    hide Up;
    hide Hi;
    hide Low;
    hide Partial;
    hide Prepend;
    hide ShiftBit;
    StackRules();
    MoreStackRules();
    ShiftBitRun(l, p, i, s, b, r, alt);
    var q, q' := Partial(l, p, i, s), Partial(l, p, i + 1, s);
    var c := Up(Lo(q, b) + Lo(q, b) + Lo(Hi(s - i - 1, 2, p), 2), b);
    var st := InLimb(q, i, b, p, s - i, r, alt);
    var o := Low(i, 2, Up(q, b)) + Low(s - i - 1, 2, p);
    ExecAppend(ShiftBit(s), [Rot, Swap], st);
    ExecAppend(ShiftBit(s), [ToAlt, Swap], st);
    var mid := Running(Cell(Lo(q', b), Cell(c, Cell(b, Prepend(o, r)))), alt);
    Exec2(Rot, Swap, mid);
    Exec2(ToAlt, Swap, mid);
    PrependFirst(c, o, r);
    assert [c] + o == Low(i + 1, 2, Up(q', b)) + Low(s - i - 1, 2, p);
    if i + 1 == s {
      assert Low(0, 2, p) == [];
      assert [c] + o == Low(s, 2, Up(q', b));
    }
  }

  lemma {:induction false} ShiftTurns(l: nat, p: nat, i: nat, s: nat, b: nat, r: Stack, alt: Stack)
    requires i <= s < 0x7FFF_FF00 && 0 < b <= 0x4000_0000
    ensures Exec(Repeat(ShiftBit(s) + [Rot, Swap], i), InLimb(Partial(l, p, 0, s), 0, b, p, s, r, alt)) ==
            InLimb(Partial(l, p, i, s), i, b, p, s - i, r, alt)
    decreases i
  {
    hide Exec;
    hide InLimb;
    hide Partial;
    hide ShiftBit;
    var st := InLimb(Partial(l, p, 0, s), 0, b, p, s, r, alt);
    if i == 0 {
      Exec0(st);
    } else {
      ExecRepeatLast(ShiftBit(s) + [Rot, Swap], i, st);
      ShiftTurns(l, p, i - 1, s, b, r, alt);
      ShiftTurnRun(l, p, i - 1, s, b, r, alt);
    }
  }

  /** A middle limb: the incoming carries shifted in, the limb on the alt stack, the outgoing carries in their place. */
  lemma {:induction false} ShiftWithCarryRun(l: nat, p: nat, s: nat, b: nat, r: Stack, alt: Stack)
    requires 0 < s < 0x7FFF_FF00 && 0 < b <= 0x4000_0000 && l < b && p < Pow2(s)
    ensures var q := l * Pow2(s) + p;
            Exec(ShiftWithCarry(s), Running(Cell(b, Prepend(Low(s, 2, p), Cell(l, r))), alt)) ==
            Running(Cell(b, Prepend(Low(s, 2, Up(q, b)), r)), Cell(Lo(q, b), alt))
  {
    hide Exec;
    hide Lo;
    hide Up;
    hide Low;
    hide Partial;
    hide Prepend;
    hide ShiftBit;
    hide Repeat;
    var o := Low(s, 2, p);
    var st := Running(Cell(b, Prepend(o, Cell(l, r))), alt);
    var turn := ShiftBit(s) + [Rot, Swap];
    assert ShiftWithCarry(s) == [Num(1 + s), Roll] + Repeat(turn, s - 1) + (ShiftBit(s) + [ToAlt, Swap]);
    ExecAppend3([Num(1 + s), Roll], Repeat(turn, s - 1), ShiftBit(s) + [ToAlt, Swap], st);
    PrependFirst(b, o, Cell(l, r));
    PrependFirst(b, o, r);
    RollBelow([b] + o, l, r, alt);
    PartialEnds(l, p, s);
    InLimbStart(l, p, s, b, r, alt);
    ShiftTurns(l, p, s - 1, s, b, r, alt);
    ShiftTurnRun(l, p, s - 1, s, b, r, alt);
  }

  lemma {:induction false} InLimbStart(l: nat, p: nat, s: nat, b: nat, r: Stack, alt: Stack)
    requires l < b
    ensures InLimb(l, 0, b, p, s, r, alt) == Running(Cell(l, Cell(b, Prepend(Low(s, 2, p), r))), alt)
  {
    hide Up;
    SplitUnique(l, b, 0, l);
    assert [] + Low(s, 2, p) == Low(s, 2, p);
  }

  // ---------- the lowest limb ----------

  lemma {:induction false} FirstTurnRun(l: nat, i: nat, b: nat, r: Stack, alt: Stack)
    requires 0 < b <= 0x4000_0000
    ensures Exec(LimbDoubleWithoutCarry() + [Rot, Swap], InLimb(l * Pow2(i), i, b, 0, 0, r, alt)) ==
            InLimb(l * Pow2(i + 1), i + 1, b, 0, 0, r, alt)
    ensures Exec(LimbDoubleWithoutCarry() + [ToAlt, Swap], InLimb(l * Pow2(i), i, b, 0, 0, r, alt)) ==
            Running(Cell(b, Prepend(Low(i + 1, 2, Up(l * Pow2(i + 1), b)), r)), Cell(Lo(l * Pow2(i + 1), b), alt))
  {
    hide Exec;
    hide Step;
    hide Lo;
    hide Up;
    hide Low;
    hide Prepend;
    hide Nmul;
    hide LimbAddCreateCarry;
    StackRules();
    MoreStackRules();
    NumberRules();
    var q := l * Pow2(i);
    DoublePower(l, i);
    ShiftStep(q, 0, b, i);
    var x := Lo(q, b);
    var n := Low(i, 2, Up(q, b));
    var st := Running(Cell(x, Cell(b, Prepend(n, r))), alt);
    NoLimbs(2, 0);
    assert n + [] == n;
    NmulTwo();
    var t := x + x;
    ExecAppend3(Nmul(2), LimbAddCreateCarry(), [Rot, Swap], st);
    ExecAppend3(Nmul(2), LimbAddCreateCarry(), [ToAlt, Swap], st);
    Exec2(Dup, Add, st);
    CreateCarryRun(t, b, Prepend(n, r), alt);
    var mid := Running(Cell(Lo(t, b), Cell(Up(t, b), Cell(b, Prepend(n, r)))), alt);
    Exec2(Rot, Swap, mid);
    Exec2(ToAlt, Swap, mid);
    PrependFirst(Up(t, b), n, r);
    var n' := Low(i + 1, 2, Up(2 * q + 0, b));
    assert n' + [] == n';
  }

  lemma {:induction false} DoublePower(l: nat, i: nat)
    ensures l * Pow2(i) >= 0 && l * Pow2(i + 1) == 2 * (l * Pow2(i))
  {
    MulNonNeg(l, Pow2(i));
    MulAssoc(l, 2, Pow2(i));
    MulAssoc(2, l, Pow2(i));
  }

  lemma {:induction false} FirstTurns(l: nat, i: nat, b: nat, r: Stack, alt: Stack)
    requires 0 < b <= 0x4000_0000 && l < b
    ensures Exec(Repeat(LimbDoubleWithoutCarry() + [Rot, Swap], i), Running(Cell(l, Cell(b, r)), alt)) ==
            InLimb(l * Pow2(i), i, b, 0, 0, r, alt)
    decreases i
  {
    hide Exec;
    hide InLimb;
    hide LimbDoubleWithoutCarry;
    hide Prepend;
    var st := Running(Cell(l, Cell(b, r)), alt);
    if i == 0 {
      Exec0(st);
      InLimbStart(l, 0, 0, b, r, alt);
      assert Pow2(0) == 1 && l * 1 == l;
      EmptyPrepend(r);
    } else {
      ExecRepeatLast(LimbDoubleWithoutCarry() + [Rot, Swap], i, st);
      FirstTurns(l, i - 1, b, r, alt);
      FirstTurnRun(l, i - 1, b, r, alt);
    }
  }

  lemma {:induction false} ShiftWithoutCarryRun(l: nat, s: nat, b: nat, r: Stack, alt: Stack)
    requires 0 < s && 0 < b <= 0x4000_0000 && l < b
    ensures Exec([Num(b)] + ShiftWithoutCarry(s), Running(Cell(l, r), alt)) ==
            Running(Cell(b, Prepend(Low(s, 2, Up(l * Pow2(s), b)), r)), Cell(Lo(l * Pow2(s), b), alt))
  {
    hide Exec;
    hide Step;
    hide InLimb;
    hide LimbDoubleWithoutCarry;
    hide Prepend;
    hide Lo;
    hide Up;
    hide Low;
    hide Repeat;
    StackRules();
    var turn := LimbDoubleWithoutCarry() + [Rot, Swap];
    var last := LimbDoubleWithoutCarry() + [ToAlt, Swap];
    assert [Num(b)] + ShiftWithoutCarry(s) == [Num(b), Swap] + Repeat(turn, s - 1) + last;
    ExecAppend3([Num(b), Swap], Repeat(turn, s - 1), last, Running(Cell(l, r), alt));
    Exec2(Num(b), Swap, Running(Cell(l, r), alt));
    FirstTurns(l, s - 1, b, r, alt);
    FirstTurnRun(l, s - 1, b, r, alt);
  }

  // ---------- the limb loop ----------

  /** What the j low limbs of x carry into limb j when x is shifted by s bits. */
  function ShiftCarry(j: nat, b: nat, x: int, s: nat): int
    requires b > 0
  {
    Hi(j, b, x * Pow2(s)) - Hi(j, b, x) * Pow2(s)
  }

  lemma {:induction false} NoCarry(b: nat, x: int, s: nat)
    requires b > 0
    ensures ShiftCarry(0, b, x, s) == 0
  {
  }

  lemma {:induction false} ShiftCarryStep(j: nat, b: nat, x: int, s: nat)
    requires b > 0 && 0 <= ShiftCarry(j, b, x, s) < Pow2(s)
    ensures var q := Lo(Hi(j, b, x), b) * Pow2(s) + ShiftCarry(j, b, x, s);
            Lo(q, b) == Lo(Hi(j, b, x * Pow2(s)), b) && Up(q, b) == ShiftCarry(j + 1, b, x, s) &&
            0 <= ShiftCarry(j + 1, b, x, s) < Pow2(s)
  {
    hide Lo;
    hide Up;
    hide Hi;
    var m := Pow2(s);
    hide Pow2;
    var h, h2 := Hi(j, b, x), Hi(j, b, x * m);
    var l, u := Lo(h, b), Up(h, b);
    var p := ShiftCarry(j, b, x, s);
    var q := l * m + p;
    HiLast(j + 1, b, x);
    HiLast(j + 1, b, x * m);
    Split(h, b);
    Split(q, b);
    ShiftSplit(h, u, l, b, m, p, Up(q, b), Lo(q, b));
    SplitUnique(h2, b, u * m + Up(q, b), Lo(q, b));
    QuotientBound(q, l, m, p, b);
  }

  lemma {:induction false} ShiftSplit(h: int, u: int, l: int, b: int, m: int, p: int, qu: int, ql: int)
    requires h == u * b + l && l * m + p == qu * b + ql
    ensures h * m + p == (u * m + qu) * b + ql
  {
    assert h * m == (u * b) * m + l * m;
    MulAssoc(u, b, m);
    MulAssoc(u, m, b);
    assert (u * m + qu) * b == (u * m) * b + qu * b;
    assert b * m == m * b;
  }

  lemma {:induction false} QuotientBound(q: int, l: nat, m: nat, p: nat, b: nat)
    requires l < b && p < m && q == l * m + p
    ensures 0 <= Up(q, b) < m
  {
    hide Lo;
    hide Up;
    MulNonNeg(l, m);
    MulMono(l + 1, b, m);
    Split(q, b);
    BelowProduct(q, Up(q, b), Lo(q, b), b, m);
    UpNonNeg(q, b);
  }

  lemma {:induction false} ShiftCarryBound(j: nat, b: nat, x: int, s: nat)
    requires b > 0
    ensures 0 <= ShiftCarry(j, b, x, s) < Pow2(s)
    decreases j
  {
    if j > 0 {
      ShiftCarryBound(j - 1, b, x, s);
      ShiftCarryStep(j - 1, b, x, s);
    }
  }

  /** The stack while shifting x, whose limbs are l: base, carries, limbs still to come. */
  function ShiftState(j: nat, b: nat, x: int, s: nat, l: seq<int>, r: Stack, alt: Stack): State
    requires b > 0 && j <= |l|
  {
    Running(Cell(b, Prepend(Low(s, 2, ShiftCarry(j, b, x, s)), Prepend(l[j..], r))),
            PushAll(Low(j, b, x * Pow2(s)), alt))
  }

  lemma {:induction false} ShiftLimbRun(j: nat, b: nat, x: int, s: nat, l: seq<int>, r: Stack, alt: Stack)
    requires 0 < s < 0x7FFF_FF00 && 0 < b <= 0x4000_0000 && j < |l| && l[j] == Lo(Hi(j, b, x), b)
    ensures Exec(ShiftWithCarry(s), ShiftState(j, b, x, s, l, r, alt)) == ShiftState(j + 1, b, x, s, l, r, alt)
  {
    hide Exec;
    hide Lo;
    hide Up;
    hide Hi;
    hide Low;
    hide ShiftCarry;
    hide Prepend;
    hide PushAll;
    hide ShiftWithCarry;
    hide Pow2;
    ShiftCarryBound(j, b, x, s);
    ShiftCarryStep(j, b, x, s);
    DropFirst(l, j, r);
    var p := ShiftCarry(j, b, x, s);
    var q := l[j] * Pow2(s) + p;
    var a := PushAll(Low(j, b, x * Pow2(s)), alt);
    ShiftWithCarryRun(l[j], p, s, b, Prepend(l[j + 1..], r), a);
    HiLast(j + 1, b, x * Pow2(s));
    PushLast(Low(j, b, x * Pow2(s)), Lo(q, b), alt);
  }

  lemma {:induction false} ShiftLimbs(i: nat, b: nat, x: int, s: nat, l: seq<int>, r: Stack, alt: Stack)
    requires 0 < s < 0x7FFF_FF00 && 0 < b <= 0x4000_0000 && i + 1 <= |l|
    requires forall j :: 0 <= j < i + 1 ==> l[j] == Lo(Hi(j, b, x), b)
    ensures Exec(Repeat(ShiftWithCarry(s), i), ShiftState(1, b, x, s, l, r, alt)) == ShiftState(i + 1, b, x, s, l, r, alt)
    decreases i
  {
    hide Exec;
    hide ShiftState;
    hide ShiftWithCarry;
    hide Lo;
    hide Hi;
    var st := ShiftState(1, b, x, s, l, r, alt);
    if i == 0 {
      Exec0(st);
    } else {
      ExecRepeatLast(ShiftWithCarry(s), i, st);
      ShiftLimbs(i - 1, b, x, s, l, r, alt);
      ShiftLimbRun(i, b, x, s, l, r, alt);
    }
  }

  lemma {:induction false} ShiftFirst(b: nat, x: int, s: nat, l: seq<int>, r: Stack, alt: Stack)
    requires 0 < s && 0 < b <= 0x4000_0000 && 0 < |l| && l[0] == Lo(x, b)
    ensures Exec([Num(b)] + ShiftWithoutCarry(s), Running(Prepend(l, r), alt)) == ShiftState(1, b, x, s, l, r, alt)
  {
    hide Exec;
    hide Lo;
    hide Up;
    hide Low;
    hide ShiftCarry;
    hide Prepend;
    hide PushAll;
    hide ShiftWithoutCarry;
    hide Pow2;
    hide Hi;
    NoLimbs(b, x);
    NoLimbs(b, x * Pow2(s));
    NoCarry(b, x, s);
    ShiftCarryStep(0, b, x, s);
    assert l == l[0..];
    DropFirst(l, 0, r);
    ShiftWithoutCarryRun(l[0], s, b, Prepend(l[1..], r), alt);
    HiLast(1, b, x * Pow2(s));
    PushLast([], Lo(x * Pow2(s), b), alt);
    NoCells(alt);
  }

  // ---------- the head limb ----------

  /** The signed reading of the head limb. */
  lemma {:induction false} HeadSignRun(h: int, g: nat, r: Stack, alt: Stack)
    requires 0 - g <= h < g && 0 < g <= 0x2000_0000
    ensures Exec(HeadSign(g), Running(Cell(Lo(h, 2 * g), r), alt)) == Running(Cell(h, r), Cell(g, alt))
  {
    hide Exec;
    hide Step;
    hide Lo;
    hide Up;
    StackRules();
    MoreStackRules();
    NumberRules();
    SignedHead(h, g);
    var a := Lo(h, 2 * g);
    var st := Running(Cell(a, r), alt);
    ExecAppend([Num(g), Dup, ToAlt], [Dup2, LessThan, If([Not], []), Dup, Add, Sub], st);
    Exec3(Num(g), Dup, ToAlt, st);
    var st2 := Running(Cell(g, Cell(a, r)), Cell(g, alt));
    Exec6(Dup2, LessThan, If([Not], []), Dup, Add, Sub, st2);
    Exec1(Not, st2);
    Exec0(st2);
  }

  lemma {:induction false} SignedHead(h: int, g: nat)
    requires 0 - g <= h < g && 0 < g
    ensures Lo(h, 2 * g) == (if h < 0 then h + 2 * g else h)
  {
    SplitUnique(h, 2 * g, if h < 0 then -1 else 0, if h < 0 then h + 2 * g else h);
  }

  /** The head after i doublings, with the top i of the s carry bits added. */
  function HeadPartial(h: int, p: nat, i: nat, s: nat): int
    requires i <= s
  {
    h * Pow2(i) + Hi(s - i, 2, p)
  }

  lemma {:induction false} HeadPartialStep(h: int, p: nat, i: nat, s: nat)
    requires i < s
    ensures HeadPartial(h, p, i + 1, s) == 2 * HeadPartial(h, p, i, s) + Lo(Hi(s - i - 1, 2, p), 2)
    ensures Low(s - i, 2, p) == Low(s - i - 1, 2, p) + [Lo(Hi(s - i - 1, 2, p), 2)]
  {
    hide Low;
    hide Hi;
    hide Lo;
    hide Up;
    HiLast(s - i, 2, p);
    Split(Hi(s - i - 1, 2, p), 2);
    assert h * Pow2(i + 1) == 2 * (h * Pow2(i));
  }

  /** One doubling of the head; it fails where a script number overflows. */
  lemma {:induction false} HeadTurnRun(v: int, e: int, o: seq<int>, last: bool, r: Stack, alt: Stack)
    requires 0 <= e <= 1 && |o| < 0x7FFF_FF00 && (last ==> o == [])
    ensures Exec([Dup, Add] + (if last then [] else [Num(1 + |o|), Roll]) + [Add], Running(Cell(v, Prepend(o + [e], r)), alt)) ==
            if IsNum(v) && IsNum(v + v) then Running(Cell(v + v + e, Prepend(o, r)), alt) else Failed
  {
    hide Exec;
    hide Prepend;
    var st := Running(Cell(v, Prepend(o + [e], r)), alt);
    var roll := if last then [] else [Num(1 + |o|), Roll];
    ExecAppend3([Dup, Add], roll, [Add], st);
    DoubleOrFail(v, Prepend(o + [e], r), alt);
    PrependLast(o, e, r);
    if IsNum(v) {
      var st2 := Running(Cell(v + v, Prepend(o + [e], r)), alt);
      if last {
        Exec0(st2);
        EmptyPrepend(Cell(e, r));
        EmptyPrepend(r);
        AddOrFail(v + v, e, r, alt);
      } else {
        PrependFirst(v + v, o, Cell(e, r));
        PrependFirst(v + v, o, r);
        RollBelow([v + v] + o, e, r, alt);
        AddOrFail(e, v + v, Prepend(o, r), alt);
      }
    } else {
      ExecFailed(roll);
      ExecFailed([Add]);
    }
  }

  lemma {:induction false} DoubleOrFail(v: int, r: Stack, alt: Stack)
    ensures Exec([Dup, Add], Running(Cell(v, r), alt)) == if IsNum(v) then Running(Cell(v + v, r), alt) else Failed
  {
    Exec2(Dup, Add, Running(Cell(v, r), alt));
  }

  lemma {:induction false} AddOrFail(y: int, x: int, r: Stack, alt: Stack)
    ensures Exec([Add], Running(Cell(y, Cell(x, r)), alt)) ==
            if IsNum(x) && IsNum(y) then Running(Cell(x + y, r), alt) else Failed
  {
    Exec1(Add, Running(Cell(y, Cell(x, r)), alt));
  }

  /** The doublings reach the shifted head or fail, and do not fail if the shifted head is in range. */
  lemma {:induction false} HeadLoop(h: int, p: nat, i: nat, s: nat, g: nat, r: Stack, alt: Stack)
    requires i <= s < 0x7FFF_FF00 && 0 < g <= 0x2000_0000
    ensures var st := Running(Cell(HeadPartial(h, p, i, s), Prepend(Low(s - i, 2, p), r)), alt);
            var v := HeadPartial(h, p, s, s);
            (Exec(HeadTurns(i, s), st) == Running(Cell(v, r), alt) || Exec(HeadTurns(i, s), st) == Failed) &&
            (0 - g <= v < g ==> Exec(HeadTurns(i, s), st) == Running(Cell(v, r), alt)
                                && 0 - g <= HeadPartial(h, p, i, s) < g)
    decreases s - i
  {
    hide Exec;
    hide HeadPartial;
    hide Hi;
    hide Lo;
    hide Up;
    hide Low;
    hide Prepend;
    hide Nmul;
    var v := HeadPartial(h, p, i, s);
    var st := Running(Cell(v, Prepend(Low(s - i, 2, p), r)), alt);
    if i == s {
      Exec0(st);
      NoLimbs(2, p);
      EmptyPrepend(r);
    } else {
      HeadPartialStep(h, p, i, s);
      var e := Lo(Hi(s - i - 1, 2, p), 2);
      var o := Low(s - i - 1, 2, p);
      NmulTwo();
      var turn := [Dup, Add] + (if i + 1 < s then [Num(s - i), Roll] else []) + [Add];
      ExecAppend(turn, HeadTurns(i + 1, s), st);
      HeadTurnRun(v, e, o, i + 1 == s, r, alt);
      HeadLoop(h, p, i + 1, s, g, r, alt);
      ExecFailed(HeadTurns(i + 1, s));
    }
  }

  /** The final check accepts exactly the signed range and leaves the two's complement form. */
  lemma {:induction false} HeadCheckRun(v: int, g: nat, r: Stack, alt: Stack)
    requires 0 < g <= 0x2000_0000
    ensures Exec(HeadCheck(), Running(Cell(v, r), Cell(g, alt))) ==
            if 0 - g <= v < g then Running(Cell(Lo(v, 2 * g), r), alt) else Failed
  {
    hide Exec;
    hide Step;
    hide Lo;
    hide Up;
    StackRules();
    MoreStackRules();
    NumberRules();
    var st := Running(Cell(v, r), Cell(g, alt));
    var p1 := [FromAlt, Over, Dup2, Swap, Dup, Negate, Swap];
    var p2 := [Within, Verify, Num(0), GreaterThanOrEqual, If([Not], [])];
    ExecAppend3(p1, p2, [Dup, Add, Add], st);
    Exec7(FromAlt, Over, Dup2, Swap, Dup, Negate, Swap, st);
    RangeRun(v, g, r, alt);
    if 0 - g <= v < g {
      SignedHead(v, g);
      Exec3(Dup, Add, Add, Running(Cell(if v >= 0 then 0 else g, Cell(v, r)), alt));
    } else {
      ExecFailed([Dup, Add, Add]);
    }
  }

  lemma {:induction false} RangeRun(v: int, g: nat, r: Stack, alt: Stack)
    requires 0 < g <= 0x2000_0000
    ensures Exec([Within, Verify, Num(0), GreaterThanOrEqual, If([Not], [])],
                 Running(Cell(g, Cell(0 - g, Cell(v, Cell(v, Cell(g, Cell(v, r)))))), alt)) ==
            if 0 - g <= v < g then Running(Cell(if v >= 0 then 0 else g, Cell(v, r)), alt) else Failed
  {
    hide Exec;
    hide Step;
    StackRules();
    MoreStackRules();
    NumberRules();
    LogicRules();
    Exec5(Within, Verify, Num(0), GreaterThanOrEqual, If([Not], []),
          Running(Cell(g, Cell(0 - g, Cell(v, Cell(v, Cell(g, Cell(v, r)))))), alt));
    var st := Running(Cell(g, Cell(v, r)), alt);
    Exec1(Not, st);
    Exec0(st);
  }

  lemma {:induction false} ShiftHeadRun(h: int, p: nat, s: nat, g: nat, r: Stack, alt: Stack)
    requires 0 < s < 0x7FFF_FF00 && 0 < g <= 0x2000_0000 && 0 - g <= h < g && p < Pow2(s)
    ensures var v := h * Pow2(s) + p;
            Exec(ShiftHead(s, g), Running(Prepend(Low(s, 2, p), Cell(Lo(h, 2 * g), r)), alt)) ==
            if 0 - g <= v < g then Running(Cell(Lo(v, 2 * g), r), alt) else Failed
  {
    hide Exec;
    hide HeadPartial;
    hide Lo;
    hide Up;
    hide Low;
    hide Prepend;
    hide HeadTurns;
    hide HeadSign;
    hide HeadCheck;
    var o := Low(s, 2, p);
    var a := Lo(h, 2 * g);
    var v := h * Pow2(s) + p;
    ExecAppend4([Num(s), Roll], HeadSign(g), HeadTurns(0, s), HeadCheck(), Running(Prepend(o, Cell(a, r)), alt));
    RollBelow(o, a, r, alt);
    HeadSignRun(h, g, Prepend(o, r), alt);
    HeadEnds(h, p, s);
    HeadLoop(h, p, 0, s, g, r, Cell(g, alt));
    HeadCheckRun(v, g, r, alt);
    ExecFailed(HeadCheck());
  }

  lemma {:induction false} HeadEnds(h: int, p: nat, s: nat)
    requires p < Pow2(s)
    ensures HeadPartial(h, p, 0, s) == h && HeadPartial(h, p, s, s) == h * Pow2(s) + p
  {
    hide Up;
    HiIsUp(s, p);
    SplitUnique(p, Pow2(s), 0, p);
    assert Pow2(0) == 1 && h * 1 == h;
  }

  // ---------- whole numbers ----------

  /** Shifting a number by a multiple of the weight of its head limb moves the head limb only. */
  lemma {:induction false} HiShift(j: nat, b: nat, v: int, m: nat)
    requires b > 0
    ensures Hi(j, b, v + Scale(j, b, m)) == Hi(j, b, v) + m
    decreases j
  {
    if j > 0 {
      hide Lo;
      hide Up;
      var c := Scale(j - 1, b, m);
      Split(v, b);
      assert (Up(v, b) + c) * b == Up(v, b) * b + b * c;
      SplitUnique(v + b * c, b, Up(v, b) + c, Lo(v, b));
      HiShift(j - 1, b, Up(v, b), m);
    }
  }

  /** A number fits exactly when its head limb, read with sign, does. */
  lemma {:induction false} FitsByHead(w: Width, x: int)
    requires Valid(w)
    ensures Base(w) > 0
    ensures var h, g := Hi(NLimbs(w) - 1, Base(w), x), Pow2(Head(w) - 1);
            Fits(w.nBits, x) <==> 0 - g <= h < g
  {
    hide Hi;
    hide Scale;
    hide NLimbs;
    hide Head;
    var k, b, g := NLimbs(w) - 1, Base(w), Pow2(Head(w) - 1);
    HalfIsScale(w);
    HiBelow(k, b, g, x);
    HiShift(k, b, x, g);
    HiNonNeg(k, b, x + Scale(k, b, g));
  }

  /** The limbs of a signed number: its low limbs and its head limb reduced. */
  lemma {:induction false} SignedLimbsOf(w: Width, x: int)
    requires Valid(w) && Fits(w.nBits, x)
    ensures Base(w) > 0 && HeadOffset(w) > 0
    ensures SignedNumber(w, x) == Low(NLimbs(w) - 1, Base(w), x) + [Lo(Hi(NLimbs(w) - 1, Base(w), x), HeadOffset(w))]
  {
    hide Low;
    hide Hi;
    hide NLimbs;
    hide Head;
    var k, b, h := NLimbs(w) - 1, Base(w), HeadOffset(w);
    CapacityIsScale(w);
    DigitsOfMod(k, b, h, x);
    UnsignedIsMod(w.nBits, x);
  }

  lemma {:induction false} UnsignedIsMod(bits: nat, x: int)
    requires bits > 0 && Fits(bits, x)
    ensures x % Pow2(bits) == Unsigned(bits, x)
  {
    DivModUnique(x, Pow2(bits), if x < 0 then -1 else 0, Unsigned(bits, x));
  }

  lemma {:induction false} FinishShift(w: Width, v: int, r: Stack, alt: Stack)
    requires Valid(w)
    ensures Base(w) > 0 && HeadOffset(w) == 2 * Pow2(Head(w) - 1)
    ensures var k, b, g := NLimbs(w) - 1, Base(w), Pow2(Head(w) - 1);
            var h := Hi(k, b, v);
            Exec(Repeat([FromAlt], k),
                 if 0 - g <= h < g then Running(Cell(Lo(h, 2 * g), r), PushAll(Low(k, b, v), alt)) else Failed) ==
            if Fits(w.nBits, v) then Running(SignedOn(w, v, r), alt) else Failed
  {
    hide Exec;
    hide Hi;
    hide Low;
    hide Lo;
    hide Fits;
    hide Unsigned;
    hide NLimbs;
    hide Head;
    hide Repeat;
    hide Prepend;
    hide Digits;
    hide PushAll;
    BaseBounds(w);
    var k, b, g := NLimbs(w) - 1, Base(w), Pow2(Head(w) - 1);
    FitsByHead(w, v);
    if Fits(w.nBits, v) {
      FromAltAll(Low(k, b, v), Cell(Lo(Hi(k, b, v), 2 * g), r), alt);
      ReducedOn(w, v, r);
      UnsignedIsMod(w.nBits, v);
    } else {
      ExecFailed(Repeat([FromAlt], k));
    }
  }

  /** `lshift_prevent_overflow` succeeds exactly when the shifted signed number fits, and then leaves exactly that. */
  lemma {:induction false} ShiftExact(w: Width, s: nat, x: int, r: Stack, alt: Stack)
    requires Valid(w) && 0 < s < 0x7FFF_FF00 && Fits(w.nBits, x)
    ensures Exec(ShiftPreventOverflow(w, s), Running(SignedOn(w, x, r), alt)) ==
            if Fits(w.nBits, x * Pow2(s)) then Running(SignedOn(w, x * Pow2(s), r), alt) else Failed
  {
    hide Exec;
    hide Step;
    hide Repeat;
    hide Fits;
    hide Unsigned;
    hide NLimbs;
    hide Head;
    hide Prepend;
    hide PushAll;
    hide Digits;
    hide Hi;
    hide Low;
    hide Lo;
    hide Up;
    hide Pow2;
    hide ShiftHead;
    hide ShiftCarry;
    hide ShiftWithCarry;
    hide ShiftWithoutCarry;
    BaseBounds(w);
    StackRules();
    var k, b, g := NLimbs(w) - 1, Base(w), Pow2(Head(w) - 1);
    var h := Hi(k, b, x);
    var l := SignedNumber(w, x);
    var v := x * Pow2(s);
    SignedLimbsOf(w, x);
    LimbsOfSigned(w, x, l);
    FitsByHead(w, x);
    var first := [Num(b)] + ShiftWithoutCarry(s);
    ExecAppend4(first, Repeat(ShiftWithCarry(s), k - 1), [Drop] + ShiftHead(s, g), Repeat([FromAlt], k), Running(Prepend(l, r), alt));
    ShiftFirst(b, x, s, l, r, alt);
    ShiftLimbs(k - 1, b, x, s, l, r, alt);
    ShiftEnd(k, b, g, x, s, l, r, alt);
    FinishShift(w, v, r, alt);
  }

  lemma {:induction false} LimbsOfSigned(w: Width, x: int, l: seq<int>)
    requires Valid(w) && Fits(w.nBits, x) && Base(w) > 0 && HeadOffset(w) > 0
    requires l == Low(NLimbs(w) - 1, Base(w), x) + [Lo(Hi(NLimbs(w) - 1, Base(w), x), HeadOffset(w))]
    ensures forall j :: 0 <= j < NLimbs(w) - 1 ==> l[j] == Lo(Hi(j, Base(w), x), Base(w))
    ensures l[0] == Lo(x, Base(w))
  {
    hide Low;
    hide Lo;
    hide Up;
    hide NLimbs;
    var k, b := NLimbs(w) - 1, Base(w);
    forall j | 0 <= j < k ensures l[j] == Lo(Hi(j, b, x), b) {
      DigitAt(k, b, x, j);
      assert Digits(k, b, x)[j] == Low(k, b, x)[j];
    }
    assert Hi(0, b, x) == x;
  }

  lemma {:induction false} ShiftEnd(k: nat, b: nat, g: nat, x: int, s: nat, l: seq<int>, r: Stack, alt: Stack)
    requires 0 < s < 0x7FFF_FF00 && 0 < b && 0 < g <= 0x2000_0000 && |l| == k + 1
    requires 0 - g <= Hi(k, b, x) < g && l[k] == Lo(Hi(k, b, x), 2 * g)
    ensures var h := Hi(k, b, x * Pow2(s));
            Exec([Drop] + ShiftHead(s, g), ShiftState(k, b, x, s, l, r, alt)) ==
            if 0 - g <= h < g then Running(Cell(Lo(h, 2 * g), r), PushAll(Low(k, b, x * Pow2(s)), alt)) else Failed
  {
    hide Exec;
    hide Step;
    hide Prepend;
    hide PushAll;
    hide Hi;
    hide Low;
    hide Lo;
    hide Pow2;
    hide ShiftHead;
    StackRules();
    var p := ShiftCarry(k, b, x, s);
    ShiftCarryBound(k, b, x, s);
    DropFirst(l, k, r);
    assert l[k + 1..] == [];
    EmptyPrepend(r);
    var st := ShiftState(k, b, x, s, l, r, alt);
    ExecAppend([Drop], ShiftHead(s, g), st);
    Exec1(Drop, st);
    ShiftHeadRun(Hi(k, b, x), p, s, g, r, PushAll(Low(k, b, x * Pow2(s)), alt));
  }
}
