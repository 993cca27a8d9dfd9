/** Comparisons of big integers (bitvm/src/bigint/cmp.rs). */
module Compare {
  import opened Arithmetic
  import opened ScriptMachine
  import opened Limbs
  import opened StackMoves
  import opened UnsignedAdd

  // ---------- generators ----------

  function FlagsTurn(): Script {
    [Dup2, GreaterThan, ToAlt, LessThan, ToAlt]
  }

  function FoldTurn(): Script {
    [FromAlt, FromAlt, Rot, If([Drop2, Num(1)], [Rot, Drop, Over, BoolOr])]
  }

  function LessThanZipped(n: nat): Script
    requires n > 0
  {
    FlagsTurn() + Repeat(FlagsTurn(), n - 1) + [FromAlt, FromAlt, Over, BoolOr] + Repeat(FoldTurn(), n - 1) + [BoolAnd]
  }

  function LessThanNums(w: Width, a: nat, b: nat): Script
    requires Valid(w) && a != b
  {
    Zip(w, a, b) + LessThanZipped(NLimbs(w))
  }

  function GreaterThanOrEqualNums(w: Width, a: nat, b: nat): Script
    requires Valid(w) && a != b
  {
    LessThanNums(w, a, b) + [Not]
  }

  function LessThanOrEqualNums(w: Width, a: nat, b: nat): Script
    requires Valid(w) && a != b
  {
    GreaterThanOrEqualNums(w, b, a)
  }

  function GreaterThanNums(w: Width, a: nat, b: nat): Script
    requires Valid(w) && a != b
  {
    LessThanOrEqualNums(w, a, b) + [Not]
  }

  // ---------- comparing limb by limb ----------

  /** The alt stack after comparing every pair of limbs, least significant first: for each pair whether x is above y,
      and on top of it whether x is below y. */
  function Flags(k: nat, b: nat, x: int, y: int, alt: Stack): Stack
    requires b > 0
  {
    if k == 0 then Cell(Bit(x < y), Cell(Bit(x > y), alt))
    else Flags(k - 1, b, Up(x, b), Up(y, b), Cell(Bit(Lo(x, b) < Lo(y, b)), Cell(Bit(Lo(x, b) > Lo(y, b)), alt)))
  }

  lemma {:induction false} FlagsTurnRun(x: int, y: int, r: Stack, alt: Stack)
    requires IsNum(x) && IsNum(y)
    ensures Exec(FlagsTurn(), Running(Cell(y, Cell(x, r)), alt)) == Running(r, Cell(Bit(x < y), Cell(Bit(x > y), alt)))
  {
    hide Exec;
    hide Step;
    StackRules();
    MoreStackRules();
    NumberRules();
    Exec5(Dup2, GreaterThan, ToAlt, LessThan, ToAlt, Running(Cell(y, Cell(x, r)), alt));
  }

  lemma {:induction false} FlagsLoop(k: nat, b: nat, x: int, y: int, r: Stack, alt: Stack)
    requires 0 < b <= 0x4000_0000 && IsNum(Hi(k, b, x)) && IsNum(Hi(k, b, y))
    ensures Exec(Repeat(FlagsTurn(), k + 1), Running(Pairs(k, b, x, y, r), alt)) == Running(r, Flags(k, b, x, y, alt))
    decreases k
  {
    hide Exec;
    hide FlagsTurn;
    hide Lo;
    hide Up;
    var s := Running(Pairs(k, b, x, y, r), alt);
    ExecRepeat(FlagsTurn(), k + 1, s);
    if k == 0 {
      FlagsTurnRun(x, y, r, alt);
      Exec0(Running(r, Flags(0, b, x, y, alt)));
    } else {
      var lx, ly := Lo(x, b), Lo(y, b);
      FlagsTurnRun(lx, ly, Pairs(k - 1, b, Up(x, b), Up(y, b), r), alt);
      FlagsLoop(k - 1, b, Up(x, b), Up(y, b), r, Cell(Bit(lx < ly), Cell(Bit(lx > ly), alt)));
    }
  }

  /** The higher part decides unless it is equal. */
  lemma {:induction false} CompareStep(x: int, y: int, b: nat)
    requires b > 0
    ensures x < y <==> Up(x, b) < Up(y, b) || (Up(x, b) == Up(y, b) && Lo(x, b) < Lo(y, b))
    ensures x == y <==> Up(x, b) == Up(y, b) && Lo(x, b) == Lo(y, b)
  {
    hide Lo;
    hide Up;
    Split(x, b);
    Split(y, b);
    if Up(x, b) < Up(y, b) { MulMono(Up(x, b) + 1, Up(y, b), b); }
    if Up(y, b) < Up(x, b) { MulMono(Up(y, b) + 1, Up(x, b), b); }
  }

  /** One fold turn: keep the verdict of the higher limbs, or take that of this limb if they are equal. */
  lemma {:induction false} FoldTurnRun(ne: int, lt: int, lt0: int, gt0: int, r: Stack, alt: Stack)
    requires (ne == 0 || ne == 1) && IsNum(lt0) && IsNum(gt0)
    ensures Exec(FoldTurn(), Running(Cell(ne, Cell(lt, r)), Cell(lt0, Cell(gt0, alt)))) ==
            Running(if ne == 1 then Cell(1, Cell(lt, r)) else Cell(Bit(lt0 != 0 || gt0 != 0), Cell(lt0, r)), alt)
  {
    hide Exec;
    hide Step;
    StackRules();
    MoreStackRules();
    LogicRules();
    Exec4(FromAlt, FromAlt, Rot, If([Drop2, Num(1)], [Rot, Drop, Over, BoolOr]),
          Running(Cell(ne, Cell(lt, r)), Cell(lt0, Cell(gt0, alt))));
    var s := Running(Cell(gt0, Cell(lt0, Cell(lt, r))), alt);
    Exec2(Drop2, Num(1), s);
    Exec4(Rot, Drop, Over, BoolOr, s);
  }

  lemma {:induction false} FoldFirst(x: int, y: int, r: Stack, alt: Stack)
    ensures Exec([FromAlt, FromAlt, Over, BoolOr], Running(r, Cell(Bit(x < y), Cell(Bit(x > y), alt)))) ==
            Running(Cell(Bit(x != y), Cell(Bit(x < y), r)), alt)
  {
    hide Exec;
    hide Step;
    StackRules();
    MoreStackRules();
    LogicRules();
    Exec4(FromAlt, FromAlt, Over, BoolOr, Running(r, Cell(Bit(x < y), Cell(Bit(x > y), alt))));
  }

  /** Folding the flags from the head down leaves whether the numbers differ, above whether the first is smaller. */
  lemma {:induction false} FoldLoop(k: nat, b: nat, x: int, y: int, r: Stack, alt: Stack)
    requires b > 0
    ensures Exec(Repeat(FoldTurn(), k), Exec([FromAlt, FromAlt, Over, BoolOr], Running(r, Flags(k, b, x, y, alt)))) ==
            Running(Cell(Bit(x != y), Cell(Bit(x < y), r)), alt)
    decreases k
  {
    hide Exec;
    hide FoldTurn;
    hide Lo;
    hide Up;
    var s := Exec([FromAlt, FromAlt, Over, BoolOr], Running(r, Flags(k, b, x, y, alt)));
    if k == 0 {
      FoldFirst(x, y, r, alt);
      Exec0(s);
    } else {
      var lx, ly := Lo(x, b), Lo(y, b);
      FoldLoop(k - 1, b, Up(x, b), Up(y, b), r, Cell(Bit(lx < ly), Cell(Bit(lx > ly), alt)));
      ExecRepeatLast(FoldTurn(), k, s);
      CompareStep(x, y, b);
      FoldTurnRun(Bit(Up(x, b) != Up(y, b)), Bit(Up(x, b) < Up(y, b)), Bit(lx < ly), Bit(lx > ly), r, alt);
    }
  }

  lemma {:induction false} LessThanZippedRun(k: nat, b: nat, x: int, y: int, r: Stack, alt: Stack)
    requires 0 < b <= 0x4000_0000 && IsNum(Hi(k, b, x)) && IsNum(Hi(k, b, y))
    ensures Exec(LessThanZipped(k + 1), Running(Pairs(k, b, x, y, r), alt)) == Running(Cell(Bit(x < y), r), alt)
  {
    hide Exec;
    hide Step;
    hide Pairs;
    hide Hi;
    hide Flags;
    hide FlagsTurn;
    hide FoldTurn;
    hide Repeat;
    LogicRules();
    var s := Running(Pairs(k, b, x, y, r), alt);
    ExecAppend5(FlagsTurn(), Repeat(FlagsTurn(), k), [FromAlt, FromAlt, Over, BoolOr], Repeat(FoldTurn(), k), [BoolAnd], s);
    ExecRepeat(FlagsTurn(), k + 1, s);
    FlagsLoop(k, b, x, y, r, alt);
    FoldLoop(k, b, x, y, r, alt);
    Exec1(BoolAnd, Running(Cell(Bit(x != y), Cell(Bit(x < y), r)), alt));
  }

  /** `lessthan` consumes both numbers and leaves whether the first is smaller. */
  lemma {:induction false} LessThanCorrect(w: Width, a: nat, b: nat, top: seq<int>, mid: seq<int>, x: nat, y: nat,
                                           r: Stack, alt: Stack)
    requires Valid(w) && Placed(w, a, b, top, mid) && x < Capacity(w) && y < Capacity(w)
    ensures Exec(LessThanNums(w, a, b), Running(Pair(a, b, top, mid, Number(w, x), Number(w, y), r), alt)) ==
            Running(Cell(Bit(x < y), Prepend(top + mid, r)), alt)
  {
    hide Exec;
    hide LessThanZipped;
    hide Zip;
    hide Pair;
    hide On;
    hide Prepend;
    hide Pairs;
    hide Capacity;
    hide NLimbs;
    hide Digits;
    hide Zipped;
    hide Hi;
    BaseBounds(w);
    var rest := Prepend(top + mid, r);
    ExecAppend(Zip(w, a, b), LessThanZipped(NLimbs(w)), Running(Pair(a, b, top, mid, Number(w, x), Number(w, y), r), alt));
    ZipRun(w, a, b, top, mid, Number(w, x), Number(w, y), r, alt);
    ZippedIsPairs(NLimbs(w) - 1, Base(w), x, y, rest);
    HeadBelow(w, x);
    HeadBelow(w, y);
    LessThanZippedRun(NLimbs(w) - 1, Base(w), x, y, rest, alt);
  }

  lemma {:induction false} NotRun(v: bool, r: Stack, alt: Stack)
    ensures Exec([Not], Running(Cell(Bit(v), r), alt)) == Running(Cell(Bit(!v), r), alt)
  {
    hide Exec;
    hide Step;
    NumberRules();
    Exec1(Not, Running(Cell(Bit(v), r), alt));
  }

  /** Reading the two positions in the other order describes the same stack. */
  lemma {:induction false} PairSwap(w: Width, a: nat, b: nat, top: seq<int>, mid: seq<int>, xs: seq<int>, ys: seq<int>, r: Stack)
    requires Valid(w) && Placed(w, a, b, top, mid)
    ensures Placed(w, b, a, top, mid) && Pair(a, b, top, mid, xs, ys, r) == Pair(b, a, top, mid, ys, xs, r)
  {
  }

  /** The three derived comparisons. */
  lemma {:induction false} DerivedComparisons(w: Width, a: nat, b: nat, top: seq<int>, mid: seq<int>, x: nat, y: nat,
                                              r: Stack, alt: Stack)
    requires Valid(w) && Placed(w, a, b, top, mid) && x < Capacity(w) && y < Capacity(w)
    ensures var s := Running(Pair(a, b, top, mid, Number(w, x), Number(w, y), r), alt);
            var rest := Prepend(top + mid, r);
            Exec(GreaterThanOrEqualNums(w, a, b), s) == Running(Cell(Bit(x >= y), rest), alt) &&
            Exec(LessThanOrEqualNums(w, a, b), s) == Running(Cell(Bit(x <= y), rest), alt) &&
            Exec(GreaterThanNums(w, a, b), s) == Running(Cell(Bit(x > y), rest), alt)
  {
    hide Exec;
    hide LessThanNums;
    hide Pair;
    hide Prepend;
    hide Capacity;
    hide NLimbs;
    hide Number;
    var s := Running(Pair(a, b, top, mid, Number(w, x), Number(w, y), r), alt);
    var rest := Prepend(top + mid, r);
    PairSwap(w, a, b, top, mid, Number(w, x), Number(w, y), r);
    LessThanCorrect(w, a, b, top, mid, x, y, r, alt);
    LessThanCorrect(w, b, a, top, mid, y, x, r, alt);
    ExecAppend(LessThanNums(w, a, b), [Not], s);
    ExecAppend(LessThanNums(w, b, a), [Not], s);
    NotRun(x < y, rest, alt);
    NotRun(y < x, rest, alt);
    ExecAppend(LessThanOrEqualNums(w, a, b), [Not], s);
    NotRun(x <= y, rest, alt);
  }

  // ---------- equality ----------

  function EqualVerifyNums(w: Width, a: nat, b: nat): Script
    requires Valid(w) && a != b
  {
    Zip(w, a, b) + Repeat([Equal, Verify], NLimbs(w))
  }

  function EqualNums(w: Width, a: nat, b: nat): Script
    requires Valid(w) && a != b
  {
    Zip(w, a, b) + Repeat([Equal, ToAlt], NLimbs(w)) + Repeat([FromAlt], NLimbs(w)) + Repeat([BoolAnd], NLimbs(w) - 1)
  }

  /** One flag per pair of limbs, least significant first. */
  function Matches(k: nat, b: nat, x: int, y: int): (l: seq<int>)
    requires b > 0
    ensures |l| == k + 1
  {
    if k == 0 then [Bit(x == y)] else [Bit(Lo(x, b) == Lo(y, b))] + Matches(k - 1, b, Up(x, b), Up(y, b))
  }

  function AllOnes(l: seq<int>): bool {
    forall i :: 0 <= i < |l| ==> l[i] != 0
  }

  lemma {:induction false} MatchesMeansEqual(k: nat, b: nat, x: int, y: int)
    requires b > 0
    ensures AllOnes(Matches(k, b, x, y)) <==> x == y
    ensures forall i :: 0 <= i <= k ==> IsNum(Matches(k, b, x, y)[i])
    decreases k
  {
    if k > 0 {
      hide Lo;
      hide Up;
      CompareStep(x, y, b);
      var t := Matches(k - 1, b, Up(x, b), Up(y, b));
      MatchesMeansEqual(k - 1, b, Up(x, b), Up(y, b));
      AllOnesCons(Bit(Lo(x, b) == Lo(y, b)), t);
    } else {
      AllOnesCons(Bit(x == y), []);
      assert [Bit(x == y)] + [] == [Bit(x == y)];
    }
  }

  lemma {:induction false} AllOnesCons(x: int, t: seq<int>)
    ensures AllOnes([x] + t) <==> x != 0 && AllOnes(t)
  {
    if AllOnes([x] + t) {
      forall i | 0 <= i < |t| ensures t[i] != 0 { assert ([x] + t)[i + 1] == t[i]; }
      assert ([x] + t)[0] == x;
    }
  }

  lemma {:induction false} MatchLoop(k: nat, b: nat, x: int, y: int, r: Stack, alt: Stack)
    requires b > 0
    ensures Exec(Repeat([Equal, ToAlt], k + 1), Running(Pairs(k, b, x, y, r), alt)) ==
            Running(r, PushAll(Matches(k, b, x, y), alt))
    decreases k
  {
    hide Exec;
    hide Step;
    hide Lo;
    hide Up;
    hide PushAll;
    MoreStackRules();
    LogicRules();
    var s := Running(Pairs(k, b, x, y, r), alt);
    ExecRepeat([Equal, ToAlt], k + 1, s);
    Exec2(Equal, ToAlt, s);
    if k == 0 {
      Exec0(Running(r, Cell(Bit(x == y), alt)));
      PushOne(Bit(x == y), alt);
    } else {
      var m := Bit(Lo(x, b) == Lo(y, b));
      SymmetricBit(Lo(x, b), Lo(y, b));
      MatchLoop(k - 1, b, Up(x, b), Up(y, b), r, Cell(m, alt));
      PushFirst(m, Matches(k - 1, b, Up(x, b), Up(y, b)), alt);
    }
  }

  lemma {:induction false} SymmetricBit(x: int, y: int)
    ensures Bit(x == y) == Bit(y == x)
  {
  }

  lemma {:induction false} AndAll(l: seq<int>, r: Stack, alt: Stack)
    requires l != [] && forall i :: 0 <= i < |l| ==> IsNum(l[i])
    requires |l| == 1 ==> l[0] == 0 || l[0] == 1
    ensures Exec(Repeat([BoolAnd], |l| - 1), Running(Prepend(l, r), alt)) == Running(Cell(Bit(AllOnes(l)), r), alt)
    decreases |l|
  {
    hide Exec;
    hide Step;
    LogicRules();
    var s := Running(Prepend(l, r), alt);
    if |l| == 1 {
      Exec0(s);
      assert l == [l[0]] && l[1..] == [];
    } else {
      var m := Bit(l[0] != 0 && l[1] != 0);
      var t := l[2..];
      var l' := [m] + t;
      assert l[1..][1..] == t && l'[1..] == t;
      ExecRepeat([BoolAnd], |l| - 1, s);
      SwapAnd(l[0], l[1]);
      Exec1(BoolAnd, s);
      AndAll(l', r, alt);
      assert l == [l[0]] + ([l[1]] + t);
      AllOnesCons(l[0], [l[1]] + t);
      AllOnesCons(l[1], t);
      AllOnesCons(m, t);
    }
  }

  lemma {:induction false} SwapAnd(x: int, y: int)
    ensures Bit(x != 0 && y != 0) == Bit(y != 0 && x != 0)
  {
  }

  /** `equal` consumes both numbers and leaves whether they are equal. */
  lemma {:induction false} EqualCorrect(w: Width, a: nat, b: nat, top: seq<int>, mid: seq<int>, x: int, y: int,
                                        r: Stack, alt: Stack)
    requires Valid(w) && Placed(w, a, b, top, mid)
    ensures Exec(EqualNums(w, a, b), Running(Pair(a, b, top, mid, Number(w, x), Number(w, y), r), alt)) ==
            Running(Cell(Bit(x == y), Prepend(top + mid, r)), alt)
  {
    hide Exec;
    hide Zip;
    hide Pair;
    hide Prepend;
    hide Pairs;
    hide NLimbs;
    hide Digits;
    hide Zipped;
    hide Matches;
    hide AllOnes;
    hide Repeat;
    BaseBounds(w);
    var n := NLimbs(w);
    var rest := Prepend(top + mid, r);
    var m := Matches(n - 1, Base(w), x, y);
    ExecAppend4(Zip(w, a, b), Repeat([Equal, ToAlt], n), Repeat([FromAlt], n), Repeat([BoolAnd], n - 1),
                Running(Pair(a, b, top, mid, Number(w, x), Number(w, y), r), alt));
    ZipRun(w, a, b, top, mid, Number(w, x), Number(w, y), r, alt);
    ZippedIsPairs(n - 1, Base(w), x, y, rest);
    MatchLoop(n - 1, Base(w), x, y, rest, alt);
    FromAltAll(m, rest, alt);
    MatchesMeansEqual(n - 1, Base(w), x, y);
    AndAll(m, rest, alt);
  }

  lemma {:induction false} VerifyLoop(k: nat, b: nat, x: int, y: int, r: Stack, alt: Stack)
    requires b > 0
    ensures Exec(Repeat([Equal, Verify], k + 1), Running(Pairs(k, b, x, y, r), alt)) ==
            if x == y then Running(r, alt) else Failed
    decreases k
  {
    hide Exec;
    hide Step;
    hide Lo;
    hide Up;
    MoreStackRules();
    LogicRules();
    var s := Running(Pairs(k, b, x, y, r), alt);
    ExecRepeat([Equal, Verify], k + 1, s);
    Exec2(Equal, Verify, s);
    if k == 0 {
      Exec0(Running(r, alt));
      Exec0(Failed);
    } else {
      CompareStep(x, y, b);
      VerifyLoop(k - 1, b, Up(x, b), Up(y, b), r, alt);
      ExecFailed(Repeat([Equal, Verify], k));
    }
  }

  /** `equalverify` fails exactly on different numbers. */
  lemma {:induction false} EqualVerifyCorrect(w: Width, a: nat, b: nat, top: seq<int>, mid: seq<int>, x: int, y: int,
                                              r: Stack, alt: Stack)
    requires Valid(w) && Placed(w, a, b, top, mid)
    ensures Exec(EqualVerifyNums(w, a, b), Running(Pair(a, b, top, mid, Number(w, x), Number(w, y), r), alt)) ==
            if x == y then Running(Prepend(top + mid, r), alt) else Failed
  {
    hide Exec;
    hide Zip;
    hide Pair;
    hide Prepend;
    hide Pairs;
    hide NLimbs;
    hide Digits;
    hide Zipped;
    hide Repeat;
    BaseBounds(w);
    var n := NLimbs(w);
    var rest := Prepend(top + mid, r);
    ExecAppend(Zip(w, a, b), Repeat([Equal, Verify], n), Running(Pair(a, b, top, mid, Number(w, x), Number(w, y), r), alt));
    ZipRun(w, a, b, top, mid, Number(w, x), Number(w, y), r, alt);
    ZippedIsPairs(n - 1, Base(w), x, y, rest);
    VerifyLoop(n - 1, Base(w), x, y, rest, alt);
  }
}
