/** Double-and-add multiplication over bits held on the alt stack (bitvm/src/bigint/mul.rs). */
module BigMul {
  import opened Arithmetic
  import opened ScriptMachine
  import opened Limbs
  import opened StackMoves
  import opened NumberMoves
  import opened UnsignedAdd
  import opened BitConversion

  /** Doubles the base, brings the accumulator to the top and adds the base if the next bit is set. */
  function MulTurn(w: Width): Script
    requires Valid(w)
  {
    Double(w, 1) + RollNum(w, 1) + [FromAlt, If(CopyNum(w, 1) + AddNums(w, 1, 0), [])]
  }

  function MulLast(w: Width): Script
    requires Valid(w)
  {
    Double(w, 1) + [FromAlt, If(AddNums(w, 1, 0), DropNum(w))]
  }

  function Mul(w: Width): Script
    requires Valid(w)
  {
    BeLimbsToAlt(w) +
    [FromAlt, If(CopyNum(w, 0), PushCopies(0, NLimbs(w)))] +
    Repeat(MulTurn(w), w.nBits - 2) +
    MulLast(w)
  }

  // ---------- arithmetic ----------

  lemma {:induction false} ModShift(a: int, k: int, c: nat)
    requires c > 0
    ensures (a + k * c) % c == a % c
  {
    var q, r := a / c, a % c;
    assert a == q * c + r;
    DistributeTwo(q, k, c);
    DivModUnique(a + k * c, c, q + k, r);
  }

  lemma {:induction false} DistributeTwo(q: int, k: int, c: int)
    ensures (q + k) * c == q * c + k * c
  {
  }

  /** Reducing the accumulator or the base early does not change the product modulo c. */
  lemma {:induction false} ReduceEarly(acc: int, base: int, k: int, c: nat)
    requires c > 0
    ensures (acc % c + (base % c) * k) % c == (acc + base * k) % c
  {
    var q1, q2 := acc / c, base / c;
    assert acc == q1 * c + acc % c;
    assert base == q2 * c + base % c;
    Expand(q2, c, base % c, k);
    DistributeTwo(q1, q2 * k, c);
    ModShift(acc % c + (base % c) * k, q1 + q2 * k, c);
  }

  lemma {:induction false} Expand(q: int, c: int, r: int, k: int)
    ensures (q * c + r) * k == (q * k) * c + r * k
  {
    MulAssoc(q, c, k);
    MulAssoc(q, k, c);
    assert c * k == k * c;
  }

  /** One turn of double-and-add: base and accumulator before, the bits y of the multiplier still to come. */
  lemma {:induction false} TurnArithmetic(acc: nat, base: nat, y: nat, c: nat)
    requires c > 0
    ensures var base' := (base + base) % c;
            var acc' := if Lo(y, 2) == 1 then (acc + base') % c else acc;
            (acc' + 2 * base' * Up(y, 2)) % c == (acc + 2 * base * y) % c
  {
    var e, u := Lo(y, 2), Up(y, 2);
    Split(y, 2);
    hide Lo;
    hide Up;
    var base' := (base + base) % c;
    ReduceEarly(acc, base + base, y, c);
    ReduceOnce(acc, base' * y, c);
    Twice(base, y);
    EvenOdd(base', u, e, y);
    if e == 1 {
      ReduceOnce(acc + base', 2 * base' * u, c);
    }
  }

  lemma {:induction false} Twice(base: int, y: int)
    ensures (base + base) * y == 2 * base * y
  {
  }

  lemma {:induction false} EvenOdd(b: int, u: int, e: int, y: int)
    requires y == u * 2 + e
    ensures b * y == 2 * b * u + b * e
  {
    assert b * (u * 2) == 2 * b * u;
  }

  lemma {:induction false} ReduceOnce(a: int, k: int, c: nat)
    requires c > 0
    ensures (a % c + k) % c == (a + k) % c
  {
    ReduceEarly(a, 0, 0, c);
    var q := a / c;
    assert a == q * c + a % c;
    ModShift(a % c + k, q, c);
  }

  // ---------- one turn ----------

  /** Two numbers on top of the stack, in the form the two-operand gadgets are stated for. */
  lemma {:induction false} TopPair(w: Width, x: int, y: int, r: Stack)
    requires Valid(w) && 2 * NLimbs(w) < 0x7FFF_FFFF
    ensures Placed(w, 1, 0, [], [])
    ensures Pair(1, 0, [], [], Number(w, x), Number(w, y), r) == On(w, y, On(w, x, r))
    ensures Prepend([] + [], r) == r
    ensures On(w, y, On(w, x, r)) == Prepend(Number(w, y) + Number(w, x), r)
  {
    hide Digits;
    PrependAppend(Number(w, y), Number(w, x), r);
    assert [] + Number(w, y) + [] + Number(w, x) == Number(w, y) + Number(w, x);
  }

  lemma {:induction false} AddTop(w: Width, x: nat, y: nat, r: Stack, alt: Stack)
    requires Valid(w) && 2 * NLimbs(w) < 0x7FFF_FFFF && x < Capacity(w) && y < Capacity(w)
    ensures Exec(AddNums(w, 1, 0), Running(On(w, y, On(w, x, r)), alt)) == Running(On(w, (x + y) % Capacity(w), r), alt)
  {
    hide Exec;
    hide AddNums;
    hide Pair;
    hide On;
    hide Prepend;
    hide Capacity;
    hide NLimbs;
    hide Number;
    TopPair(w, x, y, r);
    AddCorrect(w, 1, 0, [], [], x, y, r, alt);
  }

  lemma {:induction false} DoubleAndRoll(w: Width, acc: nat, base: nat, r: Stack, alt: Stack)
    requires Valid(w) && 4 * NLimbs(w) < 0x7FFF_FFFF && acc < Capacity(w) && base < Capacity(w)
    ensures Exec(Double(w, 1), Running(On(w, acc, On(w, base, r)), alt)) ==
            Running(On(w, (base + base) % Capacity(w), On(w, acc, r)), alt)
    ensures Exec(RollNum(w, 1), Running(On(w, (base + base) % Capacity(w), On(w, acc, r)), alt)) ==
            Running(On(w, acc, On(w, (base + base) % Capacity(w), r)), alt)
  {
    hide Exec;
    hide Double;
    hide RollNum;
    hide Prepend;
    hide Capacity;
    hide NLimbs;
    hide Number;
    var base' := (base + base) % Capacity(w);
    DoubleCorrect(w, 1, Number(w, acc), base, r, alt);
    TopPair(w, acc, base', r);
    TopPair(w, base', acc, r);
    RollRun(w, 1, Number(w, base'), Number(w, acc), r, alt);
  }

  lemma {:induction false} CopyAndAdd(w: Width, acc: nat, base: nat, r: Stack, alt: Stack)
    requires Valid(w) && 4 * NLimbs(w) < 0x7FFF_FFFF && acc < Capacity(w) && base < Capacity(w)
    ensures Exec(CopyNum(w, 1) + AddNums(w, 1, 0), Running(On(w, acc, On(w, base, r)), alt)) ==
            Running(On(w, (acc + base) % Capacity(w), On(w, base, r)), alt)
  {
    hide Exec;
    hide AddNums;
    hide CopyNum;
    hide Prepend;
    hide Capacity;
    hide NLimbs;
    hide Number;
    ExecAppend(CopyNum(w, 1), AddNums(w, 1, 0), Running(On(w, acc, On(w, base, r)), alt));
    TopPair(w, base, acc, r);
    CopyRun(w, 1, Number(w, acc), Number(w, base), r, alt);
    assert Number(w, base) + Number(w, acc) + Number(w, base) == Number(w, base) + (Number(w, acc) + Number(w, base));
    PrependAppend(Number(w, base), Number(w, acc) + Number(w, base), r);
    AddTop(w, acc, base, On(w, base, r), alt);
  }

  lemma {:induction false} BranchRun(thn: Script, els: Script, bit: int, s: Stack, alt: Stack)
    requires bit == 0 || bit == 1
    ensures Exec([FromAlt, If(thn, els)], Running(s, Cell(bit, alt))) ==
            if bit == 1 then Exec(thn, Running(s, alt)) else Exec(els, Running(s, alt))
  {
    hide Exec;
    hide Step;
    MoreStackRules();
    Exec2(FromAlt, If(thn, els), Running(s, Cell(bit, alt)));
  }

  lemma {:induction false} MulTurnRun(w: Width, acc: nat, base: nat, bit: int, r: Stack, alt: Stack)
    requires Valid(w) && 4 * NLimbs(w) < 0x7FFF_FFFF && acc < Capacity(w) && base < Capacity(w) && (bit == 0 || bit == 1)
    ensures var base' := (base + base) % Capacity(w);
            Exec(MulTurn(w), Running(On(w, acc, On(w, base, r)), Cell(bit, alt))) ==
            Running(On(w, if bit == 1 then (acc + base') % Capacity(w) else acc, On(w, base', r)), alt)
  {
    hide Exec;
    hide Double;
    hide RollNum;
    hide CopyNum;
    hide AddNums;
    hide On;
    hide Capacity;
    hide NLimbs;
    var base' := (base + base) % Capacity(w);
    ExecAppend3(Double(w, 1), RollNum(w, 1), [FromAlt, If(CopyNum(w, 1) + AddNums(w, 1, 0), [])],
                Running(On(w, acc, On(w, base, r)), Cell(bit, alt)));
    DoubleAndRoll(w, acc, base, r, Cell(bit, alt));
    BranchRun(CopyNum(w, 1) + AddNums(w, 1, 0), [], bit, On(w, acc, On(w, base', r)), alt);
    CopyAndAdd(w, acc, base', r, alt);
    Exec0(Running(On(w, acc, On(w, base', r)), alt));
  }

  lemma {:induction false} MulLastRun(w: Width, acc: nat, base: nat, bit: int, r: Stack, alt: Stack)
    requires Valid(w) && 4 * NLimbs(w) < 0x7FFF_FFFF && acc < Capacity(w) && base < Capacity(w) && (bit == 0 || bit == 1)
    ensures var base' := (base + base) % Capacity(w);
            Exec(MulLast(w), Running(On(w, acc, On(w, base, r)), Cell(bit, alt))) ==
            Running(On(w, if bit == 1 then (acc + base') % Capacity(w) else acc, r), alt)
  {
    hide Exec;
    hide Double;
    hide DropNum;
    hide AddNums;
    hide Prepend;
    hide Number;
    hide Capacity;
    hide NLimbs;
    var base' := (base + base) % Capacity(w);
    ExecAppend(Double(w, 1), [FromAlt, If(AddNums(w, 1, 0), DropNum(w))], Running(On(w, acc, On(w, base, r)), Cell(bit, alt)));
    DoubleAndRoll(w, acc, base, r, Cell(bit, alt));
    BranchRun(AddNums(w, 1, 0), DropNum(w), bit, On(w, base', On(w, acc, r)), alt);
    AddTop(w, acc, base', r, alt);
    DropRun(w, Number(w, base'), On(w, acc, r), alt);
  }

  // ---------- the loop ----------

  /** n + 1 bits of the multiplier still to come, n of them for full turns. */
  lemma {:induction false} MulLoop(w: Width, n: nat, acc: nat, base: nat, y: nat, r: Stack, alt: Stack)
    requires Valid(w) && 4 * NLimbs(w) < 0x7FFF_FFFF && acc < Capacity(w) && base < Capacity(w) && y < Pow2(n + 1)
    ensures Exec(MulLast(w), Exec(Repeat(MulTurn(w), n),
              Running(On(w, acc, On(w, base, r)), Prepend(Low(n + 1, 2, y), alt)))) ==
            Running(On(w, (acc + 2 * base * y) % Capacity(w), r), alt)
    decreases n
  {
    hide Exec;
    hide MulTurn;
    hide MulLast;
    hide On;
    hide NLimbs;
    hide Lo;
    hide Up;
    hide Prepend;
    var c := Capacity(w);
    hide Capacity;
    var bits := Low(n + 1, 2, y);
    var s := Running(On(w, acc, On(w, base, r)), Prepend(bits, alt));
    var base' := (base + base) % c;
    var e, u := Lo(y, 2), Up(y, 2);
    var acc' := if e == 1 then (acc + base') % c else acc;
    UpNonNeg(y, 2);
    UpBelow(n, y);
    TurnArithmetic(acc, base, y, c);
    PrependFirst(e, Low(n, 2, u), alt);
    if n == 0 {
      Exec0(s);
      NoLimbs(2, u);
      NoCells(alt);
      MulLastRun(w, acc, base, e, r, alt);
      FinalTurn(acc', base', u, c);
    } else {
      ExecRepeat(MulTurn(w), n, s);
      MulTurnRun(w, acc, base, e, r, Prepend(Low(n, 2, u), alt));
      MulLoop(w, n - 1, acc', base', u, r, alt);
    }
  }

  lemma {:induction false} UpBelow(n: nat, y: nat)
    requires y < Pow2(n + 1)
    ensures Up(y, 2) < Pow2(n) && (n == 0 ==> Up(y, 2) == 0)
  {
    Split(y, 2);
    assert n == 0 ==> Pow2(1) == 2;
  }

  lemma {:induction false} FinalTurn(acc: nat, base: nat, u: int, c: nat)
    requires acc < c && u == 0
    ensures (acc + 2 * base * u) % c == acc
  {
    assert 2 * base * u == 0;
    DivModUnique(acc, c, 0, acc);
  }

  /** `mul` consumes both numbers and leaves their product modulo the capacity. */
  lemma {:induction false} MulCorrect(w: Width, x: nat, y: nat, r: Stack, alt: Stack)
    requires Valid(w) && 4 * NLimbs(w) < 0x7FFF_FFFF && x < Capacity(w) && y < Capacity(w)
    ensures Exec(Mul(w), Running(On(w, y, On(w, x, r)), alt)) == Running(On(w, (x * y) % Capacity(w), r), alt)
  {
    hide Exec;
    hide BeLimbsToAlt;
    hide MulTurn;
    hide MulLast;
    hide CopyNum;
    hide PushCopies;
    hide On;
    hide NLimbs;
    hide Lo;
    hide Up;
    hide Prepend;
    hide Repeat;
    hide Low;
    var n := w.nBits - 2;
    var e, u := Lo(y, 2), Up(y, 2);
    var first := [FromAlt, If(CopyNum(w, 0), PushCopies(0, NLimbs(w)))];
    ExecAppend4(BeLimbsToAlt(w), first, Repeat(MulTurn(w), n), MulLast(w), Running(On(w, y, On(w, x, r)), alt));
    BeBitsCorrect(w, y, On(w, x, r), alt);
    NextLimb(w.nBits, 2, y);
    PrependFirst(e, Low(n + 1, 2, u), alt);
    UpNonNeg(y, 2);
    UpBelow(n + 1, y);
    FirstBit(w, x, e, r, Prepend(Low(n + 1, 2, u), alt));
    var acc := if e == 1 then x else 0;
    CapacityPositive(w);
    MulLoop(w, n, acc, x, u, r, alt);
    Split(y, 2);
    FirstProduct(x, e, u, y);
  }

  lemma {:induction false} CapacityPositive(w: Width)
    ensures Capacity(w) > 0
  {
  }

  lemma {:induction false} FirstProduct(x: nat, e: nat, u: int, y: nat)
    requires y == u * 2 + e && e < 2
    ensures (if e == 1 then x else 0) + 2 * x * u == x * y
  {
    EvenOdd(x, u, e, y);
  }

  lemma {:induction false} FirstBit(w: Width, x: nat, bit: int, r: Stack, alt: Stack)
    requires Valid(w) && 4 * NLimbs(w) < 0x7FFF_FFFF && (bit == 0 || bit == 1)
    ensures Exec([FromAlt, If(CopyNum(w, 0), PushCopies(0, NLimbs(w)))], Running(On(w, x, r), Cell(bit, alt))) ==
            Running(On(w, if bit == 1 then x else 0, On(w, x, r)), alt)
  {
    hide Exec;
    hide CopyNum;
    hide PushCopies;
    hide Prepend;
    hide NLimbs;
    hide Number;
    BranchRun(CopyNum(w, 0), PushCopies(0, NLimbs(w)), bit, On(w, x, r), alt);
    var l := Number(w, x);
    CopyRun(w, 0, [], l, r, alt);
    assert [] + l == l && l + [] + l == l + l;
    PrependAppend(l, l, r);
    PushZeroRun(w, On(w, x, r), alt);
  }
}
