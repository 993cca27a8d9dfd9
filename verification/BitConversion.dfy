/** Splitting limbs and whole numbers into bits (bitvm/src/bigint/bits.rs). */
module BitConversion {
  import opened Arithmetic
  import opened ScriptMachine
  import opened Limbs

  // ---------- generators ----------

  /** The powers 2 to 2^m: up to 22 of them pushed, the others by doubling. */
  function PushPowers(i: nat, m: nat): Script
    requires i <= m
    decreases m - i
  {
    if i == m then [] else [Num(Pow2(i + 1))] + PushPowers(i + 1, m)
  }

  function PowersToAlt(i: nat, m: nat): Script
    requires i <= m
    decreases m - i
  {
    if i == m then [] else [Num(Pow2(i + 1)), ToAlt] + PowersToAlt(i + 1, m)
  }

  function Smaller(a: nat, b: nat): nat {
    if a < b then a else b
  }

  function BeBit(): Script {
    [Dup2, LessThanOrEqual, If([Swap, Sub, Num(1)], [Nip, Num(0)])]
  }

  function LeBit(): Script {
    [FromAlt, Dup2, GreaterThanOrEqual, If([Sub, Num(1)], [Drop, Num(0)]), Swap]
  }

  function LimbToBeBitsCommon(n: nat): Script
    requires n >= 2
  {
    var m := Smaller(22, n - 1);
    [ToAlt] + PushPowers(0, m) + Repeat([Dup, Dup, Add], n - 1 - m) + [FromAlt] +
    (Repeat(BeBit() + [ToAlt], n - 2) + BeBit())
  }

  function LimbToLeBitsCommon(n: nat): Script
    requires n >= 2
  {
    var m := Smaller(22, n - 1);
    PowersToAlt(0, m - 1) +
    (if n - 1 > m then
       [Num(Pow2(m)), Dup, ToAlt] + Repeat([Dup, Add, Dup, ToAlt], n - 2 - m) + [Dup, Add, ToAlt]
     else
       [Num(Pow2(m)), ToAlt]) +
    (Repeat(LeBit(), n - 2) + LeBit())
  }

  function LimbToBeBitsToAlt(n: nat): Script
    requires n > 0
  {
    if n >= 2 then LimbToBeBitsCommon(n) + [ToAlt, ToAlt] else [ToAlt]
  }

  function LimbToLeBitsToAlt(n: nat): Script
    requires n > 0
  {
    if n >= 2 then LimbToLeBitsCommon(n) + Repeat([ToAlt], n) else [ToAlt]
  }

  // ---------- pushing the powers ----------

  /** 2^j on top, 2 at the bottom. */
  function Powers(j: nat, r: Stack): Stack {
    if j == 0 then r else Cell(Pow2(j), Powers(j - 1, r))
  }

  lemma {:induction false} PushPowersRun(i: nat, m: nat, r: Stack, alt: Stack)
    requires i <= m
    ensures Exec(PushPowers(i, m), Running(Powers(i, r), alt)) == Running(Powers(m, r), alt)
    decreases m - i
  {
    hide Exec;
    hide Step;
    hide Pow2;
    StackRules();
    var s := Running(Powers(i, r), alt);
    if i == m {
      Exec0(s);
    } else {
      ExecAppend([Num(Pow2(i + 1))], PushPowers(i + 1, m), s);
      Exec1(Num(Pow2(i + 1)), s);
      PushPowersRun(i + 1, m, r, alt);
    }
  }

  lemma {:induction false} PowersToAltRun(i: nat, m: nat, r: Stack, alt: Stack)
    requires i <= m
    ensures Exec(PowersToAlt(i, m), Running(r, Powers(i, alt))) == Running(r, Powers(m, alt))
    decreases m - i
  {
    hide Exec;
    hide Step;
    hide Pow2;
    StackRules();
    MoreStackRules();
    var s := Running(r, Powers(i, alt));
    if i == m {
      Exec0(s);
    } else {
      ExecAppend([Num(Pow2(i + 1)), ToAlt], PowersToAlt(i + 1, m), s);
      Exec2(Num(Pow2(i + 1)), ToAlt, s);
      PowersToAltRun(i + 1, m, r, alt);
    }
  }

  lemma {:induction false} PowerIsNum(i: nat)
    requires i <= 30
    ensures IsNum(Pow2(i)) && Pow2(i + 1) == Pow2(i) + Pow2(i)
  {
    assert Pow2(10) == 1024;
    Pow2Add(10, 10);
    Pow2Add(20, 10);
    Pow2Mono(i, 30);
  }

  lemma {:induction false} DoublePowers(i: nat, n: nat, r: Stack, alt: Stack)
    requires i > 0 && i + n <= 31
    ensures Exec(Repeat([Dup, Dup, Add], n), Running(Powers(i, r), alt)) == Running(Powers(i + n, r), alt)
    decreases n
  {
    hide Exec;
    hide Step;
    hide Pow2;
    StackRules();
    NumberRules();
    var s := Running(Powers(i, r), alt);
    if n == 0 {
      Exec0(s);
    } else {
      ExecRepeat([Dup, Dup, Add], n, s);
      PowerIsNum(i);
      Exec3(Dup, Dup, Add, s);
      DoublePowers(i + 1, n - 1, r, alt);
    }
  }

  lemma {:induction false} DoublePowersToAlt(i: nat, n: nat, r: Stack, alt: Stack)
    requires i > 0 && i + n <= 31
    ensures Exec(Repeat([Dup, Add, Dup, ToAlt], n), Running(Cell(Pow2(i), r), Powers(i, alt))) ==
            Running(Cell(Pow2(i + n), r), Powers(i + n, alt))
    decreases n
  {
    hide Exec;
    hide Step;
    hide Pow2;
    StackRules();
    MoreStackRules();
    NumberRules();
    var s := Running(Cell(Pow2(i), r), Powers(i, alt));
    if n == 0 {
      Exec0(s);
    } else {
      ExecRepeat([Dup, Add, Dup, ToAlt], n, s);
      PowerIsNum(i);
      Exec4(Dup, Add, Dup, ToAlt, s);
      DoublePowersToAlt(i + 1, n - 1, r, alt);
    }
  }

  // ---------- one bit ----------

  /** Where a number splits at 2p and at p. */
  lemma {:induction false} SplitTwice(v: nat, p: nat)
    requires p > 0
    ensures Up(Lo(v, 2 * p), p) == Lo(Up(v, p), 2)
    ensures Lo(Lo(v, 2 * p), p) == Lo(v, p)
    ensures Up(Up(v, p), 2) == Up(v, 2 * p)
  {
    hide Lo;
    hide Up;
    var u := Up(v, p);
    var q, e, s := Up(u, 2), Lo(u, 2), Lo(v, p);
    Split(v, p);
    Split(u, 2);
    Shuffle(q, e, p);
    BelowProduct(e * p + s, e, s, p, 2);
    MulNonNeg(e, p);
    SplitUnique(v, 2 * p, q, e * p + s);
    SplitUnique(e * p + s, p, e, s);
  }

  lemma {:induction false} Shuffle(q: int, e: int, p: int)
    ensures (q * 2 + e) * p == q * (2 * p) + e * p && p * 2 == 2 * p
  {
  }

  /** One comparison with p splits a number below 2p. */
  lemma {:induction false} OneDigit(v: nat, p: nat)
    requires v < 2 * p
    ensures Up(v, p) == Bit(p <= v) && Lo(v, p) == (if p <= v then v - p else v)
  {
    SplitUnique(v, p, Bit(p <= v), if p <= v then v - p else v);
  }

  lemma {:induction false} BeBitRun(v: nat, p: nat, r: Stack, alt: Stack)
    requires v < 2 * p && IsNum(v) && IsNum(p)
    ensures Exec(BeBit(), Running(Cell(v, Cell(p, r)), alt)) == Running(Cell(Up(v, p), Cell(Lo(v, p), r)), alt)
  {
    hide Exec;
    hide Step;
    hide Lo;
    hide Up;
    StackRules();
    MoreStackRules();
    NumberRules();
    OneDigit(v, p);
    var s := Running(Cell(v, Cell(p, r)), alt);
    Exec3(Dup2, LessThanOrEqual, If([Swap, Sub, Num(1)], [Nip, Num(0)]), s);
    Exec3(Swap, Sub, Num(1), s);
    Exec2(Nip, Num(0), s);
  }

  lemma {:induction false} LeBitRun(v: nat, p: nat, r: Stack, alt: Stack)
    requires v < 2 * p && IsNum(v) && IsNum(p)
    ensures Exec(LeBit(), Running(Cell(v, r), Cell(p, alt))) == Running(Cell(Lo(v, p), Cell(Up(v, p), r)), alt)
  {
    hide Exec;
    hide Step;
    hide Lo;
    hide Up;
    StackRules();
    MoreStackRules();
    NumberRules();
    OneDigit(v, p);
    var s := Running(Cell(p, Cell(v, r)), alt);
    Exec5(FromAlt, Dup2, GreaterThanOrEqual, If([Sub, Num(1)], [Drop, Num(0)]), Swap, Running(Cell(v, r), Cell(p, alt)));
    Exec2(Sub, Num(1), s);
    Exec2(Drop, Num(0), s);
  }

  // ---------- all bits of a limb ----------

  /** The i top bits of a number of j + 1 bits. */
  function TopBits(i: nat, j: nat, v: int): (l: seq<int>)
    requires i <= j + 1
    ensures |l| == i
  {
    Low(i, 2, Up(v, Pow2(j + 1 - i)))
  }

  function Below(i: nat, j: nat, v: int): nat
    requires i <= j + 1
  {
    Lo(v, Pow2(j + 1 - i))
  }

  lemma {:induction false} NextBit(i: nat, j: nat, v: nat)
    requires 0 < i <= j
    ensures TopBits(i, j, v) == [Up(Below(i - 1, j, v), Pow2(j + 1 - i))] + TopBits(i - 1, j, v)
    ensures Below(i, j, v) == Lo(Below(i - 1, j, v), Pow2(j + 1 - i))
    ensures Below(i - 1, j, v) < 2 * Pow2(j + 1 - i)
  {
    hide Lo;
    hide Up;
    SplitTwice(v, Pow2(j + 1 - i));
  }

  lemma {:induction false} NoBits(j: nat, v: nat)
    requires v < Pow2(j + 1)
    ensures TopBits(0, j, v) == [] && Below(0, j, v) == v
  {
    hide Up;
    hide Pow2;
    SplitUnique(v, Pow2(j + 1), 0, v);
  }

  lemma {:induction false} AllBits(j: nat, v: nat)
    ensures [Below(j, j, v)] + TopBits(j, j, v) == Low(j + 1, 2, v)
  {
    assert Pow2(1) == 2;
  }

  lemma {:induction false} BeLoop(i: nat, j: nat, v: nat, r: Stack, alt: Stack)
    requires i <= j <= 30 && v < Pow2(j + 1)
    ensures Exec(Repeat(BeBit() + [ToAlt], i), Running(Cell(v, Powers(j, r)), alt)) ==
            Running(Cell(Below(i, j, v), Powers(j - i, r)), Prepend(TopBits(i, j, v), alt))
    decreases i
  {
    hide Exec;
    hide Step;
    hide BeBit;
    hide Below;
    hide TopBits;
    hide Pow2;
    MoreStackRules();
    var s := Running(Cell(v, Powers(j, r)), alt);
    if i == 0 {
      NoBits(j, v);
      Exec0(s);
    } else {
      ExecRepeatLast(BeBit() + [ToAlt], i, s);
      BeLoop(i - 1, j, v, r, alt);
      NextBit(i, j, v);
      var p, u := Pow2(j + 1 - i), Below(i - 1, j, v);
      PowerIsNum(j + 1 - i);
      BelowIsNum(i - 1, j, v);
      var alt1 := Prepend(TopBits(i - 1, j, v), alt);
      ExecAppend(BeBit(), [ToAlt], Running(Cell(u, Powers(j + 1 - i, r)), alt1));
      BeBitRun(u, p, Powers(j - i, r), alt1);
      Exec1(ToAlt, Running(Cell(Up(u, p), Cell(Below(i, j, v), Powers(j - i, r))), alt1));
      PrependFirst(Up(u, p), TopBits(i - 1, j, v), alt);
    }
  }

  lemma {:induction false} BelowIsNum(i: nat, j: nat, v: nat)
    requires i <= j <= 30 && v < Pow2(j + 1)
    ensures IsNum(Below(i, j, v))
  {
    hide Pow2;
    Pow2Mono(j + 1 - i, 31);
    Pow2Of32();
    Pow2Succ(31);
  }

  lemma {:induction false} LeLoop(i: nat, j: nat, v: nat, r: Stack, alt: Stack)
    requires i <= j <= 30 && v < Pow2(j + 1)
    ensures Exec(Repeat(LeBit(), i), Running(Cell(v, r), Powers(j, alt))) ==
            Running(Cell(Below(i, j, v), Prepend(TopBits(i, j, v), r)), Powers(j - i, alt))
    decreases i
  {
    hide Exec;
    hide Step;
    hide LeBit;
    hide Below;
    hide TopBits;
    hide Pow2;
    var s := Running(Cell(v, r), Powers(j, alt));
    if i == 0 {
      NoBits(j, v);
      Exec0(s);
    } else {
      ExecRepeatLast(LeBit(), i, s);
      LeLoop(i - 1, j, v, r, alt);
      NextBit(i, j, v);
      var p, u := Pow2(j + 1 - i), Below(i - 1, j, v);
      PowerIsNum(j + 1 - i);
      BelowIsNum(i - 1, j, v);
      LeBitRun(u, p, Prepend(TopBits(i - 1, j, v), r), Powers(j - i, alt));
      PrependFirst(Up(u, p), TopBits(i - 1, j, v), r);
    }
  }

  /** Bit 1 and bit 0 on the main stack, the higher bits below them on the alt stack. */
  lemma {:induction false} BeCommonRun(n: nat, v: nat, r: Stack, alt: Stack)
    requires 2 <= n <= 31 && v < Pow2(n)
    ensures Exec(LimbToBeBitsCommon(n), Running(Cell(v, r), alt)) ==
            Running(Cell(Lo(Up(v, 2), 2), Cell(Lo(v, 2), r)), Prepend(Low(n - 2, 2, Up(Up(v, 2), 2)), alt))
  {
    hide Exec;
    hide Step;
    hide Repeat;
    hide BeBit;
    hide Pow2;
    hide Below;
    hide TopBits;
    hide Lo;
    hide Up;
    hide Low;
    hide PushPowers;
    hide Prepend;
    MoreStackRules();
    var m := Smaller(22, n - 1);
    var j := n - 1;
    var s := Running(Cell(v, r), alt);
    ExecAppend5([ToAlt], PushPowers(0, m), Repeat([Dup, Dup, Add], j - m), [FromAlt],
                Repeat(BeBit() + [ToAlt], j - 1) + BeBit(), s);
    Exec1(ToAlt, s);
    PushPowersRun(0, m, r, Cell(v, alt));
    DoublePowers(m, j - m, r, Cell(v, alt));
    Exec1(FromAlt, Running(Powers(j, r), Cell(v, alt)));
    var s1 := Running(Cell(v, Powers(j, r)), alt);
    ExecAppend(Repeat(BeBit() + [ToAlt], j - 1), BeBit(), s1);
    BeLoop(j - 1, j, v, r, alt);
    BeCommonLast(j, v);
    assert Powers(1, r) == Cell(Pow2(1), Powers(0, r));
    BeBitRun(Below(j - 1, j, v), 2, r, Prepend(TopBits(j - 1, j, v), alt));
  }

  lemma {:induction false} BeCommonLast(j: nat, v: nat)
    requires 1 <= j <= 30 && v < Pow2(j + 1)
    ensures Pow2(1) == 2 && Below(j - 1, j, v) < 4
    ensures Up(Below(j - 1, j, v), 2) == Lo(Up(v, 2), 2) && Lo(Below(j - 1, j, v), 2) == Lo(v, 2)
    ensures TopBits(j - 1, j, v) == Low(j - 1, 2, Up(Up(v, 2), 2))
  {
    hide Lo;
    hide Up;
    assert Pow2(2) == 4;
    SplitTwice(v, 2);
  }

  lemma {:induction false} PowersForLe(n: nat, r: Stack, alt: Stack)
    requires 2 <= n <= 31
    ensures var m := Smaller(22, n - 1);
            Exec(if n - 1 > m then
                   [Num(Pow2(m)), Dup, ToAlt] + Repeat([Dup, Add, Dup, ToAlt], n - 2 - m) + [Dup, Add, ToAlt]
                 else [Num(Pow2(m)), ToAlt],
                 Running(r, Powers(m - 1, alt))) == Running(r, Powers(n - 1, alt))
  {
    hide Exec;
    hide Step;
    hide Repeat;
    hide Pow2;
    StackRules();
    MoreStackRules();
    NumberRules();
    var m := Smaller(22, n - 1);
    var s := Running(r, Powers(m - 1, alt));
    if n - 1 > m {
      ExecAppend3([Num(Pow2(m)), Dup, ToAlt], Repeat([Dup, Add, Dup, ToAlt], n - 2 - m), [Dup, Add, ToAlt], s);
      Exec3(Num(Pow2(m)), Dup, ToAlt, s);
      DoublePowersToAlt(m, n - 2 - m, r, alt);
      PowerIsNum(n - 2);
      Exec3(Dup, Add, ToAlt, Running(Cell(Pow2(n - 2), r), Powers(n - 2, alt)));
    } else {
      Exec2(Num(Pow2(m)), ToAlt, s);
    }
  }

  /** All bits on the main stack, bit 0 on top. */
  lemma {:induction false} LeCommonRun(n: nat, v: nat, r: Stack, alt: Stack)
    requires 2 <= n <= 31 && v < Pow2(n)
    ensures Exec(LimbToLeBitsCommon(n), Running(Cell(v, r), alt)) == Running(Prepend(Low(n, 2, v), r), alt)
  {
    hide Exec;
    hide Step;
    hide Repeat;
    hide LeBit;
    hide Pow2;
    hide Below;
    hide TopBits;
    hide Low;
    hide PowersToAlt;
    hide Prepend;
    var m := Smaller(22, n - 1);
    var j := n - 1;
    var s := Running(Cell(v, r), alt);
    var powers := if j > m then
        [Num(Pow2(m)), Dup, ToAlt] + Repeat([Dup, Add, Dup, ToAlt], n - 2 - m) + [Dup, Add, ToAlt]
      else [Num(Pow2(m)), ToAlt];
    ExecAppend3(PowersToAlt(0, m - 1), powers, Repeat(LeBit(), j - 1) + LeBit(), s);
    PowersToAltRun(0, m - 1, Cell(v, r), alt);
    PowersForLe(n, Cell(v, r), alt);
    ExecAppend(Repeat(LeBit(), j - 1), LeBit(), Running(Cell(v, r), Powers(j, alt)));
    ExecRepeatLast(LeBit(), j, Running(Cell(v, r), Powers(j, alt)));
    LeLoop(j, j, v, r, alt);
    PrependFirst(Below(j, j, v), TopBits(j, j, v), r);
    AllBits(j, v);
  }

  // ---------- all bits of a limb, on the alt stack ----------

  /** Most significant bit first: bit 0 ends on top. */
  lemma {:induction false} LimbToBeBitsRun(n: nat, v: nat, r: Stack, alt: Stack)
    requires 1 <= n <= 31 && v < Pow2(n)
    ensures Exec(LimbToBeBitsToAlt(n), Running(Cell(v, r), alt)) == Running(r, Prepend(Low(n, 2, v), alt))
  {
    hide Exec;
    hide Step;
    hide LimbToBeBitsCommon;
    hide Pow2;
    hide Lo;
    hide Up;
    hide Low;
    hide Prepend;
    MoreStackRules();
    if n == 1 {
      Exec1(ToAlt, Running(Cell(v, r), alt));
      OneBitNumber(v, alt);
    } else {
      ExecAppend(LimbToBeBitsCommon(n), [ToAlt, ToAlt], Running(Cell(v, r), alt));
      BeCommonRun(n, v, r, alt);
      var rest := Low(n - 2, 2, Up(Up(v, 2), 2));
      Exec2(ToAlt, ToAlt, Running(Cell(Lo(Up(v, 2), 2), Cell(Lo(v, 2), r)), Prepend(rest, alt)));
      LowTwo(n, v);
      PrependFirst(Lo(Up(v, 2), 2), rest, alt);
      PrependFirst(Lo(v, 2), [Lo(Up(v, 2), 2)] + rest, alt);
    }
  }

  lemma {:induction false} LowTwo(n: nat, v: int)
    requires n >= 2
    ensures Low(n, 2, v) == [Lo(v, 2)] + ([Lo(Up(v, 2), 2)] + Low(n - 2, 2, Up(Up(v, 2), 2)))
  {
    assert Low(n - 1, 2, Up(v, 2)) == [Lo(Up(v, 2), 2)] + Low(n - 2, 2, Up(Up(v, 2), 2));
  }

  lemma {:induction false} OneBitNumber(v: nat, r: Stack)
    requires v < Pow2(1)
    ensures Low(1, 2, v) == [v] && Prepend([v], r) == Cell(v, r) && PushAll([v], r) == Cell(v, r)
  {
    assert Pow2(1) == 2;
    SplitUnique(v, 2, 0, v);
    assert Low(1, 2, v) == [Lo(v, 2)] + Low(0, 2, Up(v, 2));
    assert [v][1..] == [];
  }

  /** Least significant bit first: the top bit ends on top. */
  lemma {:induction false} LimbToLeBitsRun(n: nat, v: nat, r: Stack, alt: Stack)
    requires 1 <= n <= 31 && v < Pow2(n)
    ensures Exec(LimbToLeBitsToAlt(n), Running(Cell(v, r), alt)) == Running(r, PushAll(Low(n, 2, v), alt))
  {
    hide Exec;
    hide Step;
    hide LimbToLeBitsCommon;
    hide Pow2;
    hide Low;
    hide Prepend;
    hide PushAll;
    MoreStackRules();
    if n == 1 {
      Exec1(ToAlt, Running(Cell(v, r), alt));
      OneBitNumber(v, alt);
    } else {
      ExecAppend(LimbToLeBitsCommon(n), Repeat([ToAlt], n), Running(Cell(v, r), alt));
      LeCommonRun(n, v, r, alt);
      ToAltAll(Low(n, 2, v), r, alt);
    }
  }

  // ---------- bits of a whole number ----------

  lemma {:induction false} LowSplit(m: nat, n: nat, v: int)
    ensures Low(m + n, 2, v) == Low(m, 2, v) + Low(n, 2, Hi(m, 2, v))
    decreases m
  {
    if m > 0 { LowSplit(m - 1, n, Up(v, 2)); }
  }

  /** The first l bits of a number are those of its lowest limb, and the rest those of what lies above. */
  lemma {:induction false} LimbBits(l: nat, v: int)
    ensures Low(l, 2, v) == Low(l, 2, Lo(v, Pow2(l)))
    ensures Hi(l, 2, v) == Up(v, Pow2(l))
  {
    ScaleIsPowerOfTwo(l);
    DigitsOfMod(l, 2, 1, v);
    HiIsUp(l, v);
  }

  lemma {:induction false} ScaleIsPowerOfTwo(l: nat)
    ensures Scale(l, 2, 1) == Pow2(l)
  {
    if l > 0 { ScaleIsPowerOfTwo(l - 1); }
  }

  lemma {:induction false} HiIsUp(l: nat, v: int)
    ensures Hi(l, 2, v) == Up(v, Pow2(l))
    decreases l
  {
    if l == 0 {
      SplitUnique(v, 1, v, 0);
    } else {
      hide Lo;
      hide Up;
      var p, u := Pow2(l - 1), Up(v, 2);
      HiIsUp(l - 1, u);
      Split(v, 2);
      Split(u, p);
      ShuffleBack(Up(u, p), Lo(u, p), p);
      SplitUnique(v, 2 * p, Up(u, p), Lo(u, p) * 2 + Lo(v, 2));
    }
  }

  lemma {:induction false} ShuffleBack(q: int, s: int, p: int)
    ensures (q * p + s) * 2 == q * (2 * p) + s * 2
  {
  }

  function LeLimbsToAlt(w: Width): Script
    requires Valid(w)
  {
    Repeat(LimbToLeBitsToAlt(w.limb), NLimbs(w) - 1) + LimbToLeBitsToAlt(Head(w))
  }

  /** `convert_to_le_bits_toaltstack`. */
  lemma {:induction false} LeLoopRun(k: nat, l: nat, h: nat, v: int, r: Stack, alt: Stack)
    requires 0 < l <= 30 && 0 < h <= 31 && 0 <= Hi(k, Pow2(l), v) < Pow2(h)
    ensures k * l + h >= 0
    ensures Exec(LimbToLeBitsToAlt(h), Exec(Repeat(LimbToLeBitsToAlt(l), k), Running(Stacked(k, Pow2(l), v, r), alt))) ==
            Running(r, PushAll(Low(k * l + h, 2, v), alt))
    decreases k
  {
    hide Exec;
    hide LimbToLeBitsToAlt;
    hide Pow2;
    hide Lo;
    hide Up;
    hide PushAll;
    hide Low;
    var b := Pow2(l);
    var s := Running(Stacked(k, b, v, r), alt);
    MulNonNeg(k, l);
    if k == 0 {
      Exec0(s);
      LimbToLeBitsRun(h, v, r, alt);
    } else {
      ExecRepeat(LimbToLeBitsToAlt(l), k, s);
      LimbToLeBitsRun(l, Lo(v, b), Stacked(k - 1, b, Up(v, b), r), alt);
      LeLoopRun(k - 1, l, h, Up(v, b), r, PushAll(Low(l, 2, Lo(v, b)), alt));
      LimbBits(l, v);
      SplitProduct(k, l);
      MulNonNeg(k - 1, l);
      LowSplit(l, (k - 1) * l + h, v);
      PushAllAppend(Low(l, 2, v), Low((k - 1) * l + h, 2, Up(v, b)), alt);
    }
  }

  /** All bits of the number on the alt stack, the most significant one on top. */
  lemma {:induction false} LeBitsCorrect(w: Width, v: nat, r: Stack, alt: Stack)
    requires Valid(w) && v < Capacity(w)
    ensures Exec(LeLimbsToAlt(w), Running(On(w, v, r), alt)) == Running(r, PushAll(Low(w.nBits, 2, v), alt))
  {
    hide Exec;
    hide LimbToLeBitsToAlt;
    hide Pow2;
    hide Low;
    hide Digits;
    hide Stacked;
    hide Prepend;
    hide PushAll;
    hide Hi;
    hide Repeat;
    hide NLimbs;
    hide Head;
    var k := NLimbs(w) - 1;
    HeadBelow(w, v);
    DigitsAreStacked(k, Base(w), v, r);
    ExecAppend(Repeat(LimbToLeBitsToAlt(w.limb), k), LimbToLeBitsToAlt(Head(w)), Running(Stacked(k, Base(w), v, r), alt));
    LeLoopRun(k, w.limb, Head(w), v, r, alt);
  }

  /** The limb loop of `convert_to_be_bits_toaltstack`. */
  function BeLimbs(j: nat, l: nat): Script
    requires l > 0
  {
    if j == 0 then [] else [Num(j - 1), Roll] + LimbToBeBitsToAlt(l) + BeLimbs(j - 1, l)
  }

  function BeLimbsToAlt(w: Width): Script
    requires Valid(w)
  {
    [Num(NLimbs(w) - 1), Roll] + LimbToBeBitsToAlt(Head(w)) + BeLimbs(NLimbs(w) - 1, w.limb)
  }

  lemma {:induction false} HiOfLimbs(j: nat, l: nat, v: int)
    ensures j * l >= 0 && Hi(j, Pow2(l), v) == Hi(j * l, 2, v)
    decreases j
  {
    MulNonNeg(j, l);
    if j > 0 {
      SplitProduct(j, l);
      MulNonNeg(j - 1, l);
      HiOfLimbs(j - 1, l, Up(v, Pow2(l)));
      LimbBits(l, v);
      HiSplit(l, (j - 1) * l, v);
    }
  }

  lemma {:induction false} HiSplit(m: nat, n: nat, v: int)
    ensures Hi(m + n, 2, v) == Hi(n, 2, Hi(m, 2, v))
    decreases m
  {
    if m > 0 { HiSplit(m - 1, n, Up(v, 2)); }
  }

  lemma {:induction false} BeLimbsRun(j: nat, l: nat, v: int, r: Stack, alt: Stack)
    requires 0 < l <= 30 && j <= 0x7FFF_FFFF
    ensures j * l >= 0
    ensures Exec(BeLimbs(j, l), Running(Prepend(Low(j, Pow2(l), v), r), alt)) == Running(r, Prepend(Low(j * l, 2, v), alt))
    decreases j
  {
    hide Exec;
    hide LimbToBeBitsToAlt;
    hide Pow2;
    hide Lo;
    hide Up;
    hide Low;
    hide Hi;
    hide Prepend;
    var b := Pow2(l);
    var s := Running(Prepend(Low(j, b, v), r), alt);
    MulNonNeg(j, l);
    if j == 0 {
      Exec0(s);
      NoLimbs(b, v);
      NoLimbs(2, v);
      NoCells(r);
      NoCells(alt);
    } else {
      var x := Lo(Hi(j - 1, b, v), b);
      var low := Low(j - 1, b, v);
      HiLast(j, b, v);
      PrependLast(low, x, r);
      ExecAppend3([Num(j - 1), Roll], LimbToBeBitsToAlt(l), BeLimbs(j - 1, l), s);
      RollBelow(low, x, r, alt);
      LimbToBeBitsRun(l, x, Prepend(low, r), alt);
      BeLimbsRun(j - 1, l, v, r, Prepend(Low(l, 2, x), alt));
      BitsOfLimb(j, l, v);
      PrependAppend(Low((j - 1) * l, 2, v), Low(l, 2, x), alt);
    }
  }

  lemma {:induction false} BitsOfLimb(j: nat, l: nat, v: int)
    requires j > 0
    ensures 0 <= (j - 1) * l <= j * l
    ensures Low(j * l, 2, v) == Low((j - 1) * l, 2, v) + Low(l, 2, Lo(Hi(j - 1, Pow2(l), v), Pow2(l)))
  {
    hide Low;
    hide Hi;
    hide Pow2;
    hide Lo;
    SplitProduct(j, l);
    MulNonNeg(j - 1, l);
    LowSplit((j - 1) * l, l, v);
    HiOfLimbs(j - 1, l, v);
    LimbBits(l, Hi(j - 1, Pow2(l), v));
  }

  /** All bits of the number on the alt stack, the least significant one on top. */
  lemma {:induction false} BeBitsCorrect(w: Width, v: nat, r: Stack, alt: Stack)
    requires Valid(w) && v < Capacity(w) && NLimbs(w) <= 0x7FFF_FFFF
    ensures Exec(BeLimbsToAlt(w), Running(On(w, v, r), alt)) == Running(r, Prepend(Low(w.nBits, 2, v), alt))
  {
    hide Exec;
    hide LimbToBeBitsToAlt;
    hide Pow2;
    hide Low;
    hide Prepend;
    hide Hi;
    hide BeLimbs;
    hide NLimbs;
    hide Head;
    var k, b, h := NLimbs(w) - 1, Base(w), Head(w);
    HeadBelow(w, v);
    var low, x := Low(k, b, v), Hi(k, b, v);
    PrependLast(low, x, r);
    ExecAppend3([Num(k), Roll], LimbToBeBitsToAlt(h), BeLimbs(k, w.limb), Running(On(w, v, r), alt));
    RollBelow(low, x, r, alt);
    LimbToBeBitsRun(h, x, Prepend(low, r), alt);
    BeLimbsRun(k, w.limb, v, r, Prepend(Low(h, 2, x), alt));
    MulNonNeg(k, w.limb);
    LowSplit(k * w.limb, h, v);
    HiOfLimbs(k, w.limb, v);
    PrependAppend(Low(k * w.limb, 2, v), Low(h, 2, x), alt);
  }
}
