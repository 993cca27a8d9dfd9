/** Unsigned addition and doubling modulo the capacity (bitvm/src/bigint/add.rs). */
module UnsignedAdd {
  import opened ScriptMachine
  import opened Limbs
  import opened StackMoves

  // ---------- generators ----------

  function LimbAddCarry(): Script {
    [Rot, Rot, Add, Dup2, LessThanOrEqual, Tuck] + [If([Num(2), Pick, Sub], [])]
  }

  function LimbAddNocarry(headOffset: nat): Script {
    [Add, Num(headOffset), Dup2, GreaterThanOrEqual, If([Sub], [Drop])]
  }

  function AddTurn(): Script {
    [Rot, Add, Swap] + LimbAddCarry() + [ToAlt]
  }

  /** What `add` and `double` do once the limbs are interleaved. */
  function AddZipped(w: Width): Script
    requires Valid(w)
  {
    ([Num(Base(w))] + LimbAddCarry() + [ToAlt]) +
    Repeat(AddTurn(), NLimbs(w) - 2) +
    [Nip, Add] + LimbAddNocarry(HeadOffset(w)) +
    Repeat([FromAlt], NLimbs(w) - 1)
  }

  function AddNums(w: Width, a: nat, b: nat): Script
    requires Valid(w) && a != b
  {
    Zip(w, a, b) + AddZipped(w)
  }

  // ---------- limbs ----------

  /** A number below 2b splits by one comparison. */
  lemma {:induction false} OneBit(t: int, b: nat)
    requires 0 <= t < 2 * b
    ensures Up(t, b) == Bit(b <= t) && Lo(t, b) == (if b <= t then t - b else t)
  {
    SplitUnique(t, b, Bit(b <= t), if b <= t then t - b else t);
  }

  lemma {:induction false} LimbAddCarryRun(x: int, y: int, b: nat, r: Stack, alt: Stack)
    requires 0 <= x <= b && 0 <= y <= b && x + y < 2 * b && b <= 0x4000_0000
    ensures Exec(LimbAddCarry(), Running(Cell(b, Cell(y, Cell(x, r))), alt)) ==
            Running(Cell(Lo(x + y, b), Cell(Up(x + y, b), Cell(b, r))), alt)
  {
    hide Exec;
    hide Step;
    hide Lo;
    hide Up;
    var s := Running(Cell(b, Cell(y, Cell(x, r))), alt);
    var t := x + y;
    var c := Up(t, b);
    OneBit(t, b);
    StackRules();
    MoreStackRules();
    NumberRules();
    Exec6(Rot, Rot, Add, Dup2, LessThanOrEqual, Tuck, s);
    ExecAppend([Rot, Rot, Add, Dup2, LessThanOrEqual, Tuck], [If([Num(2), Pick, Sub], [])], s);
    Exec1(If([Num(2), Pick, Sub], []), Running(Cell(c, Cell(t, Cell(c, Cell(b, r)))), alt));
    CorrectionRun(Sub, c, t, c, b, r, alt);
  }

  /** The conditional `2 OP_PICK op`. */
  lemma {:induction false} CorrectionRun(op: Instr, flag: int, t: int, c: int, b: nat, r: Stack, alt: Stack)
    requires (flag == 0 || flag == 1) && IsNum(t) && b <= 0x4000_0000 && (op == Sub || op == Add)
    ensures Step(If([Num(2), Pick, op], []), Running(Cell(flag, Cell(t, Cell(c, Cell(b, r)))), alt)) ==
            Running(Cell(if flag == 0 then t else if op == Sub then t - b else t + b, Cell(c, Cell(b, r))), alt)
  {
    hide Exec;
    hide Step;
    StackRules();
    MoreStackRules();
    DepthRules();
    NumberRules();
    Exec3(Num(2), Pick, op, Running(Cell(t, Cell(c, Cell(b, r))), alt));
    Exec0(Running(Cell(t, Cell(c, Cell(b, r))), alt));
  }

  lemma {:induction false} LimbAddNocarryRun(x: int, y: int, h: nat, r: Stack, alt: Stack)
    requires 0 <= x + y < 2 * h && 0 < h <= 0x4000_0000 && IsNum(x) && IsNum(y)
    ensures Exec(LimbAddNocarry(h), Running(Cell(y, Cell(x, r)), alt)) == Running(Cell(Lo(x + y, h), r), alt)
  {
    var s := Running(Cell(y, Cell(x, r)), alt);
    var t := x + y;
    hide Exec;
    hide Step;
    hide Lo;
    hide Up;
    OneBit(t, h);
    StackRules();
    MoreStackRules();
    NumberRules();
    Exec5(Add, Num(h), Dup2, GreaterThanOrEqual, If([Sub], [Drop]), s);
    var s1 := Running(Cell(h, Cell(t, r)), alt);
    Exec1(Sub, s1);
    Exec1(Drop, s1);
  }

  /** One turn of the loop adds two limbs and the carry and puts the sum limb on the alt stack. */
  lemma {:induction false} AddTurnRun(x: int, y: int, c: int, b: nat, r: Stack, alt: Stack)
    requires 0 <= x < b && 0 <= y < b && 0 <= c <= 1 && b <= 0x4000_0000
    ensures Exec(AddTurn(), Running(Cell(c, Cell(b, Cell(y, Cell(x, r)))), alt)) ==
            Running(Cell(Up(x + y + c, b), Cell(b, r)), Cell(Lo(x + y + c, b), alt))
  {
    var s := Running(Cell(c, Cell(b, Cell(y, Cell(x, r)))), alt);
    hide Exec;
    hide LimbAddCarry;
    hide Lo;
    hide Up;
    hide Step;
    StackRules();
    MoreStackRules();
    NumberRules();
    ExecAppend3([Rot, Add, Swap], LimbAddCarry(), [ToAlt], s);
    Exec3(Rot, Add, Swap, s);
    LimbAddCarryRun(x, y + c, b, r, alt);
    assert x + (y + c) == x + y + c;
    Exec1(ToAlt, Running(Cell(Lo(x + y + c, b), Cell(Up(x + y + c, b), Cell(b, r))), alt));
  }

  // ---------- loops ----------

  /** Schoolbook addition, one limb. */
  lemma {:induction false} CarryStep(x: int, y: int, c: int, b: nat)
    requires b > 0 && 0 <= c <= 1
    ensures var t := Lo(x, b) + Lo(y, b) + c;
            Lo(x + y + c, b) == Lo(t, b) && Up(x + y + c, b) == Up(x, b) + Up(y, b) + Up(t, b) && 0 <= Up(t, b) <= 1
  {
    var t := Lo(x, b) + Lo(y, b) + c;
    Split(x, b);
    Split(y, b);
    Split(t, b);
    hide Lo;
    hide Up;
    Distribute3(Up(x, b), Up(y, b), Up(t, b), b);
    SplitUnique(x + y + c, b, Up(x, b) + Up(y, b) + Up(t, b), Lo(t, b));
    BelowProduct(t, Up(t, b), Lo(t, b), b, 2);
    BelowProduct(t, Up(t, b), Lo(t, b), b, 0);
  }

  lemma {:induction false} Distribute3(x: int, y: int, z: int, b: int)
    ensures (x + y + z) * b == x * b + y * b + z * b
  {
  }

  /** The interleaved limbs of two numbers, from the least significant pair on. */
  function Pairs(k: nat, b: nat, x: int, y: int, r: Stack): Stack
    requires b > 0
  {
    if k == 0 then Cell(y, Cell(x, r)) else Cell(Lo(y, b), Cell(Lo(x, b), Pairs(k - 1, b, Up(x, b), Up(y, b), r)))
  }

  lemma {:induction false} ZippedIsPairs(k: nat, b: nat, x: int, y: int, r: Stack)
    requires b > 0
    ensures Prepend(Zipped(Digits(k, b, x), Digits(k, b, y)), r) == Pairs(k, b, x, y, r)
    decreases k
  {
    if k == 0 {
      assert Digits(0, b, x) == [x] && Digits(0, b, y) == [y];
      assert [x][1..] == [] && [y][1..] == [];
      assert Zipped([x], [y]) == [y, x] + Zipped([], []) == [y, x] + [];
      TopTwo([y, x], y, x, [], r);
    } else {
      DigitsStep(k, b, x);
      DigitsStep(k, b, y);
      ZippedIsPairs(k - 1, b, Up(x, b), Up(y, b), r);
      ZippedStep(Digits(k, b, x), Digits(k, b, y), r);
    }
  }

  lemma {:induction false} ZippedStep(xs: seq<int>, ys: seq<int>, r: Stack)
    requires |xs| == |ys| > 0
    ensures Prepend(Zipped(xs, ys), r) == Cell(ys[0], Cell(xs[0], Prepend(Zipped(xs[1..], ys[1..]), r)))
  {
    TopTwo(Zipped(xs, ys), ys[0], xs[0], Zipped(xs[1..], ys[1..]), r);
  }

  lemma {:induction false} TopTwo(z: seq<int>, a: int, b: int, t: seq<int>, r: Stack)
    requires z == [a, b] + t
    ensures Prepend(z, r) == Cell(a, Cell(b, Prepend(t, r)))
  {
    assert z[1..] == [b] + t && ([b] + t)[1..] == t;
  }

  /** The carry out of the j low limbs of x + y + c. */
  function CarryOut(j: nat, b: nat, x: int, y: int, c: int): int
    requires b > 0
  {
    Hi(j, b, x + y + c) - Hi(j, b, x) - Hi(j, b, y)
  }

  /** The limb loop leaves the low limbs of the sum on the alt stack, the carry and the base on top of the head limbs. */
  lemma {:induction false} AddLoop(j: nat, b: nat, x: int, y: int, c: int, r: Stack, alt: Stack)
    requires 0 < b <= 0x4000_0000 && 0 <= c <= 1
    ensures 0 <= CarryOut(j, b, x, y, c) <= 1
    ensures Exec(Repeat(AddTurn(), j), Running(Cell(c, Cell(b, Pairs(j, b, x, y, r))), alt)) ==
            Running(Cell(CarryOut(j, b, x, y, c), Cell(b, Cell(Hi(j, b, y), Cell(Hi(j, b, x), r)))),
                    PushAll(Low(j, b, x + y + c), alt))
    decreases j
  {
    hide Exec;
    hide AddTurn;
    hide Lo;
    hide Up;
    var s := Running(Cell(c, Cell(b, Pairs(j, b, x, y, r))), alt);
    if j == 0 {
      Exec0(s);
    } else {
      var t := Lo(x, b) + Lo(y, b) + c;
      CarryStep(x, y, c, b);
      ExecRepeat(AddTurn(), j, s);
      AddTurnRun(Lo(x, b), Lo(y, b), c, b, Pairs(j - 1, b, Up(x, b), Up(y, b), r), alt);
      AddLoop(j - 1, b, Up(x, b), Up(y, b), Up(t, b), r, Cell(Lo(t, b), alt));
      PushFirst(Lo(t, b), Low(j - 1, b, Up(x + y + c, b)), alt);
    }
  }

  lemma {:induction false} AddFirst(k: nat, b: nat, x: int, y: int, r: Stack, alt: Stack)
    requires k > 0 && 0 < b <= 0x4000_0000
    ensures 0 <= Up(Lo(x, b) + Lo(y, b), b) <= 1
    ensures Exec([Num(b)] + LimbAddCarry() + [ToAlt], Running(Pairs(k, b, x, y, r), alt)) ==
            Running(Cell(Up(Lo(x, b) + Lo(y, b), b), Cell(b, Pairs(k - 1, b, Up(x, b), Up(y, b), r))),
                    Cell(Lo(x + y, b), alt))
  {
    hide Exec;
    hide Step;
    hide LimbAddCarry;
    hide Lo;
    hide Up;
    StackRules();
    MoreStackRules();
    var s := Running(Pairs(k, b, x, y, r), alt);
    var rest := Pairs(k - 1, b, Up(x, b), Up(y, b), r);
    ExecAppend3([Num(b)], LimbAddCarry(), [ToAlt], s);
    Exec1(Num(b), s);
    CarryStep(x, y, 0, b);
    LimbAddCarryRun(Lo(x, b), Lo(y, b), b, rest, alt);
    var t := Lo(x, b) + Lo(y, b);
    Exec1(ToAlt, Running(Cell(Lo(t, b), Cell(Up(t, b), Cell(b, rest))), alt));
  }

  /** The head limbs: drop the base, add the carry, reduce modulo the head offset. */
  lemma {:induction false} AddLast(x: int, y: int, c: int, b: nat, h: nat, r: Stack, alt: Stack)
    requires 0 <= x < h && 0 <= y < h && 0 <= c <= 1 && 0 < h <= 0x4000_0000
    ensures Exec([Nip, Add] + LimbAddNocarry(h), Running(Cell(c, Cell(b, Cell(y, Cell(x, r)))), alt)) ==
            Running(Cell(Lo(x + y + c, h), r), alt)
  {
    hide Exec;
    hide Step;
    hide LimbAddNocarry;
    hide Lo;
    StackRules();
    NumberRules();
    var s := Running(Cell(c, Cell(b, Cell(y, Cell(x, r)))), alt);
    ExecAppend([Nip, Add], LimbAddNocarry(h), s);
    Exec2(Nip, Add, s);
    LimbAddNocarryRun(x, y + c, h, r, alt);
    assert x + (y + c) == x + y + c;
  }

  // ---------- whole numbers ----------

  /** Once interleaved, two numbers below the capacity leave their sum modulo the capacity. */
  lemma {:induction false} AddZippedRun(w: Width, x: nat, y: nat, r: Stack, alt: Stack)
    requires Valid(w) && x < Capacity(w) && y < Capacity(w)
    ensures Base(w) > 0
    ensures Exec(AddZipped(w), Running(Pairs(NLimbs(w) - 1, Base(w), x, y, r), alt)) ==
            Running(On(w, (x + y) % Capacity(w), r), alt)
  {
    hide Exec;
    hide Capacity;
    hide Base;
    hide HeadOffset;
    hide NLimbs;
    hide Pairs;
    hide Hi;
    hide Low;
    hide Lo;
    hide Up;
    hide LimbAddCarry;
    hide LimbAddNocarry;
    hide Repeat;
    hide On;
    BaseBounds(w);
    var b, k, h := Base(w), NLimbs(w) - 1, HeadOffset(w);
    HeadBelow(w, x);
    HeadBelow(w, y);
    var s := Running(Pairs(k, b, x, y, r), alt);
    var first := [Num(b)] + LimbAddCarry() + [ToAlt];
    ExecAppend4(first, Repeat(AddTurn(), k - 1), [Nip, Add] + LimbAddNocarry(h), Repeat([FromAlt], k), s);
    assert AddZipped(w) == first + Repeat(AddTurn(), k - 1) + ([Nip, Add] + LimbAddNocarry(h)) + Repeat([FromAlt], k);
    AddFirst(k, b, x, y, r, alt);
    AddRest(k, b, h, x, y, r, alt);
    ReducedOn(w, x + y, r);
  }

  lemma {:induction false} AddRest(k: nat, b: nat, h: nat, x: int, y: int, r: Stack, alt: Stack)
    requires k > 0 && 0 < b <= 0x4000_0000 && 0 < h <= 0x4000_0000
    requires 0 <= Hi(k, b, x) < h && 0 <= Hi(k, b, y) < h && 0 <= Up(Lo(x, b) + Lo(y, b), b) <= 1
    ensures Exec(Repeat([FromAlt], k), Exec([Nip, Add] + LimbAddNocarry(h), Exec(Repeat(AddTurn(), k - 1),
              Running(Cell(Up(Lo(x, b) + Lo(y, b), b), Cell(b, Pairs(k - 1, b, Up(x, b), Up(y, b), r))),
                      Cell(Lo(x + y, b), alt))))) ==
            Running(Prepend(Low(k, b, x + y), Cell(Lo(Hi(k, b, x + y), h), r)), alt)
  {
    hide Exec;
    hide Lo;
    hide Up;
    hide Pairs;
    hide LimbAddCarry;
    hide LimbAddNocarry;
    hide Repeat;
    hide Prepend;
    hide AddTurn;
    var c := Up(Lo(x, b) + Lo(y, b), b);
    CarryStep(x, y, 0, b);
    var alt1 := Cell(Lo(x + y, b), alt);
    AddLoop(k - 1, b, Up(x, b), Up(y, b), c, r, alt1);
    var c2 := CarryOut(k - 1, b, Up(x, b), Up(y, b), c);
    PushFirst(Lo(x + y, b), Low(k - 1, b, Up(x + y, b)), alt);
    AddLast(Hi(k, b, x), Hi(k, b, y), c2, b, h, r, PushAll(Low(k, b, x + y), alt));
    FromAltAll(Low(k, b, x + y), Cell(Lo(Hi(k, b, x + y), h), r), alt);
  }

  /** `add` consumes the two numbers and leaves their sum modulo the capacity; both stacks are otherwise unchanged. */
  lemma {:induction false} AddCorrect(w: Width, a: nat, b: nat, top: seq<int>, mid: seq<int>, x: nat, y: nat, r: Stack, alt: Stack)
    requires Valid(w) && Placed(w, a, b, top, mid) && x < Capacity(w) && y < Capacity(w)
    ensures Exec(AddNums(w, a, b), Running(Pair(a, b, top, mid, Number(w, x), Number(w, y), r), alt)) ==
            Running(On(w, (x + y) % Capacity(w), Prepend(top + mid, r)), alt)
  {
    hide Exec;
    hide AddZipped;
    hide Zip;
    hide Pair;
    hide On;
    hide Prepend;
    hide Pairs;
    hide Capacity;
    hide NLimbs;
    hide Digits;
    hide Zipped;
    BaseBounds(w);
    ExecAppend(Zip(w, a, b), AddZipped(w), Running(Pair(a, b, top, mid, Number(w, x), Number(w, y), r), alt));
    ZipRun(w, a, b, top, mid, Number(w, x), Number(w, y), r, alt);
    ZippedIsPairs(NLimbs(w) - 1, Base(w), x, y, Prepend(top + mid, r));
    AddZippedRun(w, x, y, Prepend(top + mid, r), alt);
  }

  // ---------- doubling ----------

  function DupZipFrom(a: nat, i: nat, n: nat): Script
    requires i <= n
    decreases n - i
  {
    if i == n then [] else [Num(a + i), Roll] + [Dup] + DupZipFrom(a, i + 1, n)
  }

  function DupZip(w: Width, a: nat): Script
    requires Valid(w)
  {
    BlockEnd(a, NLimbs(w));
    DupZipFrom((a + 1) * NLimbs(w) - 1, 0, NLimbs(w))
  }

  function Double(w: Width, a: nat): Script
    requires Valid(w)
  {
    DupZip(w, a) + AddZipped(w)
  }

  lemma {:induction false} DupZipRun(n: nat, i: nat, z: seq<int>, top: seq<int>, xs: seq<int>, r: Stack, alt: Stack)
    requires n > 0 && i <= n && |xs| == n - i && |z| == 2 * i && |top| + 2 * n < 0x7FFF_FFFF
    ensures Exec(DupZipFrom(|top| + n - 1, i, n), Running(Prepend(z + top + xs, r), alt)) ==
            Running(Prepend(Zipped(xs, xs) + z + top, r), alt)
    decreases n - i
  {
    hide Exec;
    hide Prepend;
    hide Step;
    if i == n {
      Exec0(Running(Prepend(z + top + xs, r), alt));
      assert z + top + xs == Zipped(xs, xs) + z + top;
    } else {
      var m := n - i - 1;
      var a := |top| + n - 1;
      var xs', x := xs[..m], xs[m];
      assert xs == xs' + [x];
      var p := z + top + xs';
      assert z + top + xs == p + [x] + [];
      var s := Running(Prepend(p + [x] + [], r), alt);
      ExecAppend3([Num(a + i), Roll], [Dup], DupZipFrom(a, i + 1, n), s);
      RollMid(p, x, [], r, alt);
      DupTop(x, p + [], r, alt);
      assert [x] + p + [] == [x] + (p + []) && [x, x] + (p + []) == [x, x] + z + top + xs';
      DupZipRun(n, i + 1, [x, x] + z, top, xs', r, alt);
      ZippedAppend(xs', xs', x, x);
      assert Zipped(xs', xs') + ([x, x] + z) + top == Zipped(xs, xs) + z + top;
    }
  }

  lemma {:induction false} DupTop(x: int, l: seq<int>, r: Stack, alt: Stack)
    ensures Exec([Dup], Running(Prepend([x] + l, r), alt)) == Running(Prepend([x, x] + l, r), alt)
  {
    StackRules();
    Exec1(Dup, Running(Prepend([x] + l, r), alt));
    assert ([x] + l)[1..] == l && ([x, x] + l)[1..] == [x] + l;
  }

  /** `double` replaces the number by its double modulo the capacity, on top of what was above it. */
  lemma {:induction false} DoubleCorrect(w: Width, a: nat, top: seq<int>, x: nat, r: Stack, alt: Stack)
    requires Valid(w) && |top| == a * NLimbs(w) && |top| + 2 * NLimbs(w) < 0x7FFF_FFFF && x < Capacity(w)
    ensures Exec(Double(w, a), Running(Prepend(top, On(w, x, r)), alt)) ==
            Running(On(w, (x + x) % Capacity(w), Prepend(top, r)), alt)
  {
    hide Exec;
    hide AddZipped;
    hide DupZipFrom;
    hide Prepend;
    hide Pairs;
    hide Capacity;
    hide NLimbs;
    hide Digits;
    hide Zipped;
    BaseBounds(w);
    var xs := Number(w, x);
    var n := NLimbs(w);
    ExecAppend(DupZip(w, a), AddZipped(w), Running(Prepend(top, On(w, x, r)), alt));
    PrependAppend(top, xs, r);
    BlockEnd(a, n);
    assert [] + top + xs == top + xs;
    DupZipRun(n, 0, [], top, xs, r, alt);
    assert Zipped(xs, xs) + [] + top == Zipped(xs, xs) + top;
    PrependAppend(Zipped(xs, xs), top, r);
    ZippedIsPairs(n - 1, Base(w), x, x, Prepend(top, r));
    AddZippedRun(w, x, x, Prepend(top, r), alt);
  }
}
