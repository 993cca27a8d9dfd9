/** Unsigned subtraction, increment and negation modulo the capacity (bitvm/src/bigint/sub.rs, add.rs). */
module UnsignedSub {
  import opened Arithmetic
  import opened ScriptMachine
  import opened Limbs
  import opened StackMoves
  import opened UnsignedAdd

  // ---------- generators ----------

  function LimbSubBorrow(): Script {
    [Rot, Rot, Sub, Dup, Num(0), LessThan] + [Tuck, If([Num(2), Pick, Add], [])]
  }

  function LimbSubNoborrow(headOffset: nat): Script {
    [Sub, Dup, Num(0), LessThan, If([Num(headOffset), Add], [])]
  }

  function SubTurn(): Script {
    [Rot, Add, Swap] + LimbSubBorrow() + [ToAlt]
  }

  function SubZipped(w: Width): Script
    requires Valid(w)
  {
    ([Num(Base(w))] + LimbSubBorrow() + [ToAlt]) +
    Repeat(SubTurn(), NLimbs(w) - 2) +
    ([Nip, Add] + LimbSubNoborrow(HeadOffset(w))) +
    Repeat([FromAlt], NLimbs(w) - 1)
  }

  function SubNums(w: Width, a: nat, b: nat): Script
    requires Valid(w) && a != b
  {
    Zip(w, a, b) + SubZipped(w)
  }

  // ---------- limbs ----------

  /** A difference of two limbs splits by one comparison with zero. */
  lemma {:induction false} OneBorrow(t: int, b: nat)
    requires 0 - b <= t < b
    ensures Up(t, b) == 0 - Bit(t < 0) && Lo(t, b) == (if t < 0 then t + b else t)
  {
    SplitUnique(t, b, 0 - Bit(t < 0), if t < 0 then t + b else t);
  }

  lemma {:induction false} LimbSubBorrowRun(x: int, y: int, b: nat, r: Stack, alt: Stack)
    requires 0 <= x < b && 0 <= y <= b && 0 < b <= 0x4000_0000
    ensures Exec(LimbSubBorrow(), Running(Cell(b, Cell(y, Cell(x, r))), alt)) ==
            Running(Cell(Lo(x - y, b), Cell(0 - Up(x - y, b), Cell(b, r))), alt)
  {
    hide Exec;
    hide Step;
    hide Lo;
    hide Up;
    StackRules();
    MoreStackRules();
    NumberRules();
    var s := Running(Cell(b, Cell(y, Cell(x, r))), alt);
    var t := x - y;
    var c := 0 - Up(t, b);
    OneBorrow(t, b);
    ExecAppend([Rot, Rot, Sub, Dup, Num(0), LessThan], [Tuck, If([Num(2), Pick, Add], [])], s);
    Exec6(Rot, Rot, Sub, Dup, Num(0), LessThan, s);
    Exec2(Tuck, If([Num(2), Pick, Add], []), Running(Cell(c, Cell(t, Cell(b, r))), alt));
    CorrectionRun(Add, c, t, c, b, r, alt);
  }

  lemma {:induction false} LimbSubNoborrowRun(x: int, y: int, h: nat, r: Stack, alt: Stack)
    requires 0 - h <= x - y < h && 0 < h <= 0x4000_0000 && IsNum(x) && IsNum(y)
    ensures Exec(LimbSubNoborrow(h), Running(Cell(y, Cell(x, r)), alt)) == Running(Cell(Lo(x - y, h), r), alt)
  {
    hide Exec;
    hide Step;
    hide Lo;
    hide Up;
    StackRules();
    MoreStackRules();
    NumberRules();
    var s := Running(Cell(y, Cell(x, r)), alt);
    var t := x - y;
    OneBorrow(t, h);
    Exec5(Sub, Dup, Num(0), LessThan, If([Num(h), Add], []), s);
    Exec2(Num(h), Add, Running(Cell(t, r), alt));
    Exec0(Running(Cell(t, r), alt));
  }

  lemma {:induction false} SubTurnRun(x: int, y: int, c: int, b: nat, r: Stack, alt: Stack)
    requires 0 <= x < b && 0 <= y < b && 0 <= c <= 1 && b <= 0x4000_0000
    ensures Exec(SubTurn(), Running(Cell(c, Cell(b, Cell(y, Cell(x, r)))), alt)) ==
            Running(Cell(0 - Up(x - y - c, b), Cell(b, r)), Cell(Lo(x - y - c, b), alt))
  {
    hide Exec;
    hide Step;
    hide LimbSubBorrow;
    hide Lo;
    hide Up;
    StackRules();
    MoreStackRules();
    NumberRules();
    var s := Running(Cell(c, Cell(b, Cell(y, Cell(x, r)))), alt);
    var t := x - y - c;
    ExecAppend3([Rot, Add, Swap], LimbSubBorrow(), [ToAlt], s);
    Exec3(Rot, Add, Swap, s);
    LimbSubBorrowRun(x, y + c, b, r, alt);
    assert x - (y + c) == t;
    Exec1(ToAlt, Running(Cell(Lo(t, b), Cell(0 - Up(t, b), Cell(b, r))), alt));
  }

  // ---------- loops ----------

  /** Schoolbook subtraction, one limb. */
  lemma {:induction false} BorrowStep(x: int, y: int, c: int, b: nat)
    requires b > 0 && 0 <= c <= 1
    ensures var t := Lo(x, b) - Lo(y, b) - c;
            Lo(x - y - c, b) == Lo(t, b) && Up(x - y - c, b) == Up(x, b) - Up(y, b) + Up(t, b) && -1 <= Up(t, b) <= 0
  {
    hide Lo;
    hide Up;
    var t := Lo(x, b) - Lo(y, b) - c;
    Split(x, b);
    Split(y, b);
    Split(t, b);
    Distribute3(Up(x, b), 0 - Up(y, b), Up(t, b), b);
    NegProduct(Up(y, b), b);
    SplitUnique(x - y - c, b, Up(x, b) - Up(y, b) + Up(t, b), Lo(t, b));
    BelowProduct(t, Up(t, b), Lo(t, b), b, 1);
    BelowProduct(t, Up(t, b), Lo(t, b), b, -1);
  }

  lemma {:induction false} NegProduct(x: int, b: int)
    ensures (0 - x) * b == 0 - x * b
  {
  }

  /** The borrow out of the j low limbs of x - y - c. */
  function BorrowOut(j: nat, b: nat, x: int, y: int, c: int): int
    requires b > 0
  {
    Hi(j, b, x) - Hi(j, b, y) - Hi(j, b, x - y - c)
  }

  lemma {:induction false} SubLoop(j: nat, b: nat, x: int, y: int, c: int, r: Stack, alt: Stack)
    requires 0 < b <= 0x4000_0000 && 0 <= c <= 1
    ensures 0 <= BorrowOut(j, b, x, y, c) <= 1
    ensures Exec(Repeat(SubTurn(), j), Running(Cell(c, Cell(b, Pairs(j, b, x, y, r))), alt)) ==
            Running(Cell(BorrowOut(j, b, x, y, c), Cell(b, Cell(Hi(j, b, y), Cell(Hi(j, b, x), r)))),
                    PushAll(Low(j, b, x - y - c), alt))
    decreases j
  {
    hide Exec;
    hide SubTurn;
    hide Lo;
    hide Up;
    var s := Running(Cell(c, Cell(b, Pairs(j, b, x, y, r))), alt);
    if j == 0 {
      Exec0(s);
    } else {
      var t := Lo(x, b) - Lo(y, b) - c;
      BorrowStep(x, y, c, b);
      ExecRepeat(SubTurn(), j, s);
      SubTurnRun(Lo(x, b), Lo(y, b), c, b, Pairs(j - 1, b, Up(x, b), Up(y, b), r), alt);
      SubLoop(j - 1, b, Up(x, b), Up(y, b), 0 - Up(t, b), r, Cell(Lo(t, b), alt));
      PushFirst(Lo(t, b), Low(j - 1, b, Up(x - y - c, b)), alt);
    }
  }

  lemma {:induction false} SubFirst(k: nat, b: nat, x: int, y: int, r: Stack, alt: Stack)
    requires k > 0 && 0 < b <= 0x4000_0000
    ensures -1 <= Up(Lo(x, b) - Lo(y, b), b) <= 0
    ensures Exec([Num(b)] + LimbSubBorrow() + [ToAlt], Running(Pairs(k, b, x, y, r), alt)) ==
            Running(Cell(0 - Up(Lo(x, b) - Lo(y, b), b), Cell(b, Pairs(k - 1, b, Up(x, b), Up(y, b), r))),
                    Cell(Lo(x - y, b), alt))
  {
    hide Exec;
    hide Step;
    hide LimbSubBorrow;
    hide Lo;
    hide Up;
    StackRules();
    MoreStackRules();
    var s := Running(Pairs(k, b, x, y, r), alt);
    var rest := Pairs(k - 1, b, Up(x, b), Up(y, b), r);
    ExecAppend3([Num(b)], LimbSubBorrow(), [ToAlt], s);
    Exec1(Num(b), s);
    BorrowStep(x, y, 0, b);
    LimbSubBorrowRun(Lo(x, b), Lo(y, b), b, rest, alt);
    var t := Lo(x, b) - Lo(y, b);
    Exec1(ToAlt, Running(Cell(Lo(t, b), Cell(0 - Up(t, b), Cell(b, rest))), alt));
  }

  lemma {:induction false} SubLast(x: int, y: int, c: int, b: nat, h: nat, r: Stack, alt: Stack)
    requires 0 <= x < h && 0 <= y < h && 0 <= c <= 1 && 0 < h <= 0x4000_0000
    ensures Exec([Nip, Add] + LimbSubNoborrow(h), Running(Cell(c, Cell(b, Cell(y, Cell(x, r)))), alt)) ==
            Running(Cell(Lo(x - y - c, h), r), alt)
  {
    hide Exec;
    hide Step;
    hide LimbSubNoborrow;
    hide Lo;
    StackRules();
    NumberRules();
    var s := Running(Cell(c, Cell(b, Cell(y, Cell(x, r)))), alt);
    ExecAppend([Nip, Add], LimbSubNoborrow(h), s);
    Exec2(Nip, Add, s);
    LimbSubNoborrowRun(x, y + c, h, r, alt);
    assert x - (y + c) == x - y - c;
  }

  // ---------- whole numbers ----------

  lemma {:induction false} SubRest(k: nat, b: nat, h: nat, x: int, y: int, r: Stack, alt: Stack)
    requires k > 0 && 0 < b <= 0x4000_0000 && 0 < h <= 0x4000_0000
    requires 0 <= Hi(k, b, x) < h && 0 <= Hi(k, b, y) < h && -1 <= Up(Lo(x, b) - Lo(y, b), b) <= 0
    ensures Exec(Repeat([FromAlt], k), Exec([Nip, Add] + LimbSubNoborrow(h), Exec(Repeat(SubTurn(), k - 1),
              Running(Cell(0 - Up(Lo(x, b) - Lo(y, b), b), Cell(b, Pairs(k - 1, b, Up(x, b), Up(y, b), r))),
                      Cell(Lo(x - y, b), alt))))) ==
            Running(Prepend(Low(k, b, x - y), Cell(Lo(Hi(k, b, x - y), h), r)), alt)
  {
    hide Exec;
    hide Lo;
    hide Up;
    hide Pairs;
    hide LimbSubBorrow;
    hide LimbSubNoborrow;
    hide Repeat;
    hide Prepend;
    hide SubTurn;
    var c := 0 - Up(Lo(x, b) - Lo(y, b), b);
    BorrowStep(x, y, 0, b);
    var alt1 := Cell(Lo(x - y, b), alt);
    SubLoop(k - 1, b, Up(x, b), Up(y, b), c, r, alt1);
    var c2 := BorrowOut(k - 1, b, Up(x, b), Up(y, b), c);
    PushFirst(Lo(x - y, b), Low(k - 1, b, Up(x - y, b)), alt);
    SubLast(Hi(k, b, x), Hi(k, b, y), c2, b, h, r, PushAll(Low(k, b, x - y), alt));
    FromAltAll(Low(k, b, x - y), Cell(Lo(Hi(k, b, x - y), h), r), alt);
  }

  lemma {:induction false} SubZippedRun(w: Width, x: nat, y: nat, r: Stack, alt: Stack)
    requires Valid(w) && x < Capacity(w) && y < Capacity(w)
    ensures Base(w) > 0
    ensures Exec(SubZipped(w), Running(Pairs(NLimbs(w) - 1, Base(w), x, y, r), alt)) ==
            Running(On(w, (x - y) % Capacity(w), r), alt)
  {
    hide Exec;
    hide Capacity;
    hide Base;
    hide HeadOffset;
    hide NLimbs;
    hide Pairs;
    hide Hi;
    hide Low;
    hide Lo;
    hide Up;
    hide LimbSubBorrow;
    hide LimbSubNoborrow;
    hide Repeat;
    hide On;
    BaseBounds(w);
    var b, k, h := Base(w), NLimbs(w) - 1, HeadOffset(w);
    HeadBelow(w, x);
    HeadBelow(w, y);
    var s := Running(Pairs(k, b, x, y, r), alt);
    var first := [Num(b)] + LimbSubBorrow() + [ToAlt];
    ExecAppend4(first, Repeat(SubTurn(), k - 1), [Nip, Add] + LimbSubNoborrow(h), Repeat([FromAlt], k), s);
    SubFirst(k, b, x, y, r, alt);
    SubRest(k, b, h, x, y, r, alt);
    ReducedOn(w, x - y, r);
  }

  /** `sub` consumes the two numbers and leaves their difference modulo the capacity. */
  lemma {:induction false} SubCorrect(w: Width, a: nat, b: nat, top: seq<int>, mid: seq<int>, x: nat, y: nat, r: Stack, alt: Stack)
    requires Valid(w) && Placed(w, a, b, top, mid) && x < Capacity(w) && y < Capacity(w)
    ensures Exec(SubNums(w, a, b), Running(Pair(a, b, top, mid, Number(w, x), Number(w, y), r), alt)) ==
            Running(On(w, (x - y) % Capacity(w), Prepend(top + mid, r)), alt)
  {
    hide Exec;
    hide SubZipped;
    hide Zip;
    hide Pair;
    hide On;
    hide Prepend;
    hide Pairs;
    hide Capacity;
    hide NLimbs;
    hide Digits;
    hide Zipped;
    BaseBounds(w);
    ExecAppend(Zip(w, a, b), SubZipped(w), Running(Pair(a, b, top, mid, Number(w, x), Number(w, y), r), alt));
    ZipRun(w, a, b, top, mid, Number(w, x), Number(w, y), r, alt);
    ZippedIsPairs(NLimbs(w) - 1, Base(w), x, y, Prepend(top + mid, r));
    SubZippedRun(w, x, y, Prepend(top + mid, r), alt);
  }

  // ---------- increment ----------

  function IncrementTurn(): Script {
    [Dup2, Equal, Tuck, If([Not], []), ToAlt, Rot, Add]
  }

  /** `add1`. */
  function Increment(w: Width): Script
    requires Valid(w)
  {
    [Add1, Num(Base(w)), Swap] +
    Repeat(IncrementTurn(), NLimbs(w) - 1) +
    [Nip, Num(HeadOffset(w)), Over, Equal, If([Not], [])] +
    Repeat([FromAlt], NLimbs(w) - 1)
  }

  lemma {:induction false} IncrementTurnRun(t: int, b: nat, z: int, r: Stack, alt: Stack)
    requires 0 <= t <= b && 0 < b <= 0x4000_0000 && 0 <= z < b
    ensures Exec(IncrementTurn(), Running(Cell(t, Cell(b, Cell(z, r))), alt)) ==
            Running(Cell(z + Up(t, b), Cell(b, r)), Cell(Lo(t, b), alt))
  {
    hide Exec;
    hide Step;
    hide Lo;
    hide Up;
    StackRules();
    MoreStackRules();
    NumberRules();
    LogicRules();
    OneBit(t, b);
    var e := Bit(t == b);
    Exec7(Dup2, Equal, Tuck, If([Not], []), ToAlt, Rot, Add, Running(Cell(t, Cell(b, Cell(z, r))), alt));
    var s := Running(Cell(t, Cell(e, Cell(b, Cell(z, r)))), alt);
    Exec1(Not, s);
    Exec0(s);
  }

  lemma {:induction false} IncrementLast(t: int, b: int, h: nat, r: Stack, alt: Stack)
    requires 0 <= t <= h && 0 < h <= 0x4000_0000
    ensures Exec([Nip, Num(h), Over, Equal, If([Not], [])], Running(Cell(t, Cell(b, r)), alt)) == Running(Cell(Lo(t, h), r), alt)
  {
    hide Exec;
    hide Step;
    hide Lo;
    hide Up;
    StackRules();
    MoreStackRules();
    NumberRules();
    LogicRules();
    OneBit(t, h);
    Exec5(Nip, Num(h), Over, Equal, If([Not], []), Running(Cell(t, Cell(b, r)), alt));
    Exec1(Not, Running(Cell(t, r), alt));
    Exec0(Running(Cell(t, r), alt));
  }

  /** The increment loop's stack: the current limb with the carry added, the base, the limbs still to come. */
  function Bumped(j: nat, b: nat, v: int, c: int, r: Stack): Stack
    requires b > 0
  {
    if j == 0 then Cell(v + c, Cell(b, r)) else Cell(Lo(v, b) + c, Cell(b, Stacked(j - 1, b, Up(v, b), r)))
  }

  lemma {:induction false} BumpedLast(b: nat, v: int, c: int, r: Stack)
    requires b > 0
    ensures Bumped(0, b, v, c, r) == Cell(v + c, Cell(b, r))
  {
  }

  lemma {:induction false} BumpedTurn(j: nat, b: nat, v: int, c: int, r: Stack, alt: Stack)
    requires j > 0 && 0 < b <= 0x4000_0000 && 0 <= c <= 1 && (j == 1 ==> 0 <= Up(v, b) < b)
    ensures 0 <= Up(Lo(v, b) + c, b) <= 1
    ensures Exec(IncrementTurn(), Running(Bumped(j, b, v, c, r), alt)) ==
            Running(Bumped(j - 1, b, Up(v, b), Up(Lo(v, b) + c, b), r), Cell(Lo(v + c, b), alt))
    ensures Up(v + c, b) == Up(v, b) + Up(Lo(v, b) + c, b)
  {
    hide Exec;
    hide IncrementTurn;
    hide Lo;
    hide Up;
    var u, t := Up(v, b), Lo(v, b) + c;
    AddSmall(v, c, b);
    if j == 1 {
      IncrementTurnRun(t, b, u, r, alt);
    } else {
      IncrementTurnRun(t, b, Lo(u, b), Stacked(j - 2, b, Up(u, b), r), alt);
    }
  }

  lemma {:induction false} AddSmall(v: int, c: int, b: nat)
    requires b > 0 && 0 <= c <= 1
    ensures Lo(v + c, b) == Lo(Lo(v, b) + c, b) && Up(v + c, b) == Up(v, b) + Up(Lo(v, b) + c, b)
    ensures 0 <= Up(Lo(v, b) + c, b) <= 1
  {
    SplitUnique(0, b, 0, 0);
    CarryStep(v, 0, c, b);
  }

  lemma {:induction false} IncrementLoop(j: nat, b: nat, h: nat, v: int, c: int, r: Stack, alt: Stack)
    requires 0 < h <= b <= 0x4000_0000 && 0 <= c <= 1 && 0 <= Hi(j, b, v) < h
    ensures 0 <= Hi(j, b, v + c) <= h
    ensures Exec(Repeat(IncrementTurn(), j), Running(Bumped(j, b, v, c, r), alt)) ==
            Running(Cell(Hi(j, b, v + c), Cell(b, r)), PushAll(Low(j, b, v + c), alt))
    decreases j
  {
    hide Exec;
    hide IncrementTurn;
    hide Lo;
    hide Up;
    hide Bumped;
    hide PushAll;
    var s := Running(Bumped(j, b, v, c, r), alt);
    if j == 0 {
      Exec0(s);
      BumpedLast(b, v, c, r);
      NoCells(alt);
    } else {
      ExecRepeat(IncrementTurn(), j, s);
      BumpedTurn(j, b, v, c, r, alt);
      IncrementLoop(j - 1, b, h, Up(v, b), Up(Lo(v, b) + c, b), r, Cell(Lo(v + c, b), alt));
      PushFirst(Lo(v + c, b), Low(j - 1, b, Up(v + c, b)), alt);
    }
  }

  /** `add1` adds one modulo the capacity. */
  lemma {:induction false} IncrementCorrect(w: Width, v: nat, r: Stack, alt: Stack)
    requires Valid(w) && v < Capacity(w)
    ensures Exec(Increment(w), Running(On(w, v, r), alt)) == Running(On(w, (v + 1) % Capacity(w), r), alt)
  {
    hide Exec;
    hide Capacity;
    hide Base;
    hide HeadOffset;
    hide NLimbs;
    hide Prepend;
    hide Digits;
    hide Stacked;
    hide Hi;
    hide Low;
    hide Lo;
    hide Up;
    hide Repeat;
    hide IncrementTurn;
    BaseBounds(w);
    var b, k, h := Base(w), NLimbs(w) - 1, HeadOffset(w);
    HeadBelow(w, v);
    DigitsAreStacked(k, b, v, r);
    var s := Running(Stacked(k, b, v, r), alt);
    ExecAppend4([Add1, Num(b), Swap], Repeat(IncrementTurn(), k), [Nip, Num(h), Over, Equal, If([Not], [])],
                Repeat([FromAlt], k), s);
    IncrementFirst(k, b, v, r, alt);
    IncrementLoop(k, b, h, v, 1, r, alt);
    IncrementLast(Hi(k, b, v + 1), b, h, r, PushAll(Low(k, b, v + 1), alt));
    FromAltAll(Low(k, b, v + 1), Cell(Lo(Hi(k, b, v + 1), h), r), alt);
    ReducedOn(w, v + 1, r);
  }

  lemma {:induction false} IncrementFirst(k: nat, b: nat, v: int, r: Stack, alt: Stack)
    requires k > 0 && 0 < b <= 0x4000_0000
    ensures Exec([Add1, Num(b), Swap], Running(Stacked(k, b, v, r), alt)) == Running(Bumped(k, b, v, 1, r), alt)
  {
    hide Exec;
    hide Step;
    hide Lo;
    hide Up;
    StackRules();
    NumberRules();
    Exec3(Add1, Num(b), Swap, Running(Stacked(k, b, v, r), alt));
  }

  // ---------- negation ----------

  function ComplementTurn(): Script {
    [Tuck, Swap, Sub, ToAlt]
  }

  /** The limb-wise complement with which `neg` begins. */
  function Complement(w: Width): Script
    requires Valid(w)
  {
    BaseBounds(w);
    [Num(Base(w) - 1)] +
    Repeat(ComplementTurn(), NLimbs(w) - 2) +
    [Swap, Sub, ToAlt, Num(HeadOffset(w) - 1), Swap, Sub] +
    Repeat([FromAlt], NLimbs(w) - 1)
  }

  function Neg(w: Width): Script
    requires Valid(w)
  {
    Complement(w) + Increment(w)
  }

  lemma {:induction false} ComplementStep(v: int, b: nat)
    requires b > 0
    ensures Lo(-1 - v, b) == b - 1 - Lo(v, b) && Up(-1 - v, b) == -1 - Up(v, b)
  {
    hide Lo;
    hide Up;
    Split(v, b);
    Distribute3(-1, 0 - Up(v, b), 0, b);
    NegProduct(Up(v, b), b);
    SplitUnique(-1 - v, b, -1 - Up(v, b), b - 1 - Lo(v, b));
  }

  lemma {:induction false} ComplementTurnRun(x: int, a: int, r: Stack, alt: Stack)
    requires IsNum(x) && IsNum(a)
    ensures Exec(ComplementTurn(), Running(Cell(x, Cell(a, r)), alt)) == Running(Cell(x, r), Cell(x - a, alt))
  {
    hide Exec;
    hide Step;
    StackRules();
    MoreStackRules();
    NumberRules();
    Exec4(Tuck, Swap, Sub, ToAlt, Running(Cell(x, Cell(a, r)), alt));
  }

  lemma {:induction false} ComplementLoop(j: nat, k: nat, b: nat, v: int, r: Stack, alt: Stack)
    requires 0 < b <= 0x4000_0000 && j <= k
    ensures Exec(Repeat(ComplementTurn(), j), Running(Cell(b - 1, Stacked(k, b, v, r)), alt)) ==
            Running(Cell(b - 1, Stacked(k - j, b, Hi(j, b, v), r)), PushAll(Low(j, b, -1 - v), alt))
    decreases j
  {
    hide Exec;
    hide ComplementTurn;
    hide Lo;
    hide Up;
    hide PushAll;
    var s := Running(Cell(b - 1, Stacked(k, b, v, r)), alt);
    if j == 0 {
      Exec0(s);
      NoCells(alt);
    } else {
      ExecRepeat(ComplementTurn(), j, s);
      ComplementStep(v, b);
      ComplementTurnRun(b - 1, Lo(v, b), Stacked(k - 1, b, Up(v, b), r), alt);
      ComplementLoop(j - 1, k - 1, b, Up(v, b), r, Cell(Lo(-1 - v, b), alt));
      PushFirst(Lo(-1 - v, b), Low(j - 1, b, Up(-1 - v, b)), alt);
    }
  }

  lemma {:induction false} ComplementLast(b: nat, h: nat, v: int, r: Stack, alt: Stack)
    requires 0 < h <= b <= 0x4000_0000 && 0 <= Up(v, b) < h
    ensures Exec([Swap, Sub, ToAlt, Num(h - 1), Swap, Sub], Running(Cell(b - 1, Stacked(1, b, v, r)), alt)) ==
            Running(Cell(Lo(Up(-1 - v, b), h), r), Cell(Lo(-1 - v, b), alt))
  {
    hide Exec;
    hide Step;
    hide Lo;
    hide Up;
    StackRules();
    MoreStackRules();
    NumberRules();
    ComplementStep(v, b);
    var u := Up(v, b);
    assert Stacked(1, b, v, r) == Cell(Lo(v, b), Stacked(0, b, u, r));
    ComplementHead(u, h);
    Exec6(Swap, Sub, ToAlt, Num(h - 1), Swap, Sub, Running(Cell(b - 1, Cell(Lo(v, b), Cell(u, r))), alt));
  }

  lemma {:induction false} ComplementHead(u: int, h: nat)
    requires 0 <= u < h
    ensures Lo(-1 - u, h) == h - 1 - u
  {
    OneBorrow(-1 - u, h);
  }

  /** The complement is the bitwise negation: minus one minus the number. */
  lemma {:induction false} ComplementRun(w: Width, v: nat, r: Stack, alt: Stack)
    requires Valid(w) && v < Capacity(w)
    ensures Exec(Complement(w), Running(On(w, v, r), alt)) == Running(On(w, (-1 - v) % Capacity(w), r), alt)
  {
    hide Exec;
    hide Capacity;
    hide Base;
    hide HeadOffset;
    hide NLimbs;
    hide Prepend;
    hide Digits;
    hide Stacked;
    hide Hi;
    hide Low;
    hide Lo;
    hide Up;
    hide Repeat;
    hide ComplementTurn;
    BaseBounds(w);
    var b, k, h := Base(w), NLimbs(w) - 1, HeadOffset(w);
    HeadBelow(w, v);
    DigitsAreStacked(k, b, v, r);
    ExecAppend4([Num(b - 1)], Repeat(ComplementTurn(), k - 1), [Swap, Sub, ToAlt, Num(h - 1), Swap, Sub],
                Repeat([FromAlt], k), Running(Stacked(k, b, v, r), alt));
    ComplementParts(k, b, h, v, r, alt);
    FromAltAll(Low(k, b, -1 - v), Cell(Lo(Hi(k, b, -1 - v), h), r), alt);
    ReducedOn(w, -1 - v, r);
  }

  lemma {:induction false} ComplementParts(k: nat, b: nat, h: nat, v: int, r: Stack, alt: Stack)
    requires k > 0 && 0 < h <= b <= 0x4000_0000 && 0 <= Hi(k, b, v) < h
    ensures Exec([Swap, Sub, ToAlt, Num(h - 1), Swap, Sub], Exec(Repeat(ComplementTurn(), k - 1),
              Exec([Num(b - 1)], Running(Stacked(k, b, v, r), alt)))) ==
            Running(Cell(Lo(Hi(k, b, -1 - v), h), r), PushAll(Low(k, b, -1 - v), alt))
  {
    hide Exec;
    hide Step;
    hide Stacked;
    hide Lo;
    hide Up;
    hide Hi;
    hide Low;
    hide Repeat;
    hide ComplementTurn;
    StackRules();
    Exec1(Num(b - 1), Running(Stacked(k, b, v, r), alt));
    ComplementLoop(k - 1, k, b, v, r, alt);
    var u := Hi(k - 1, b, v);
    HiLast(k, b, v);
    HiLast(k, b, -1 - v);
    HiComplement(k - 1, b, v);
    ComplementLast(b, h, u, r, PushAll(Low(k - 1, b, -1 - v), alt));
    PushLast(Low(k - 1, b, -1 - v), Lo(Hi(k - 1, b, -1 - v), b), alt);
  }

  lemma {:induction false} HiComplement(j: nat, b: nat, v: int)
    requires b > 0
    ensures Hi(j, b, -1 - v) == -1 - Hi(j, b, v)
    decreases j
  {
    if j > 0 {
      ComplementStep(v, b);
      HiComplement(j - 1, b, Up(v, b));
    }
  }

  /** `neg` is negation modulo the capacity. */
  lemma {:induction false} NegCorrect(w: Width, v: nat, r: Stack, alt: Stack)
    requires Valid(w) && v < Capacity(w)
    ensures Exec(Neg(w), Running(On(w, v, r), alt)) == Running(On(w, (0 - v) % Capacity(w), r), alt)
  {
    hide Exec;
    hide On;
    hide Complement;
    hide Increment;
    var c := Capacity(w);
    hide Capacity;
    ExecAppend(Complement(w), Increment(w), Running(On(w, v, r), alt));
    ComplementRun(w, v, r, alt);
    var n := (-1 - v) % c;
    IncrementCorrect(w, n, r, alt);
    NegMod(v, c);
  }

  lemma {:induction false} NegMod(v: nat, c: nat)
    requires v < c
    ensures ((-1 - v) % c + 1) % c == (0 - v) % c
  {
    DivModUnique(-1 - v, c, -1, c - 1 - v);
    if v == 0 {
      DivModUnique(c, c, 1, 0);
    } else {
      DivModUnique(0 - v, c, -1, c - v);
    }
  }
}
