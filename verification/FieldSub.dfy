/** Modular subtraction and negation (bitvm/src/bn254/fp254impl.rs). */
module FieldSub {
  import opened Arithmetic
  import opened ScriptMachine
  import opened Limbs
  import opened StackMoves
  import opened NumberMoves
  import opened UnsignedAdd
  import opened UnsignedSub
  import opened FieldAdd

  // ---------- generators ----------

  function SubTurnMod(m: int): Script {
    ([Swap2, Add, Swap2] + [ToAlt, Swap, FromAlt]) + LimbSubBorrow() + [Dup, ToAlt, Swap2, Swap, Num(m), Add, Swap] +
    (LimbAddCarry() + [ToAlt])
  }

  function SubTurnsMod(ms: seq<int>): Script {
    if ms == [] then [] else SubTurnMod(ms[0]) + SubTurnsMod(ms[1..])
  }

  function SubFirstMod(b: nat, m: int): Script {
    [Num(b)] + LimbSubBorrow() + [Dup, ToAlt, Rot, Num(m), Swap] + (LimbAddCarry() + [ToAlt])
  }

  function SubLastMod(m: int): Script {
    ([Swap2, Add, Swap2] + [ToAlt, Swap, FromAlt]) + LimbSubBorrow() + [Dup, ToAlt, Rot, ToAlt, Rot] +
    ([Num(m), Add, Add, FromAlt, Dup2, GreaterThanOrEqual] + [If([Sub], [Drop]), ToAlt])
  }

  /** Keep the corrected result if the plain one borrowed. */
  function SelectCorrected(n: nat): Script
    requires n > 0
  {
    [Dup, NotIf([FromAlt, Drop]), FromAlt] + Repeat([FromAlt, Drop, FromAlt], n - 1) +
    ([Num(n), Roll] + [If([FromAlt, Drop], [])])
  }

  /** `sub`, with the limbs of the modulus p. */
  function SubMod(w: Width, p: nat, a: nat, b: nat): Script
    requires Valid(w) && a != b
  {
    var ms, n := Number(w, p), NLimbs(w);
    Zip(w, a, b) +
    (SubFirstMod(Base(w), ms[0]) + SubTurnsMod(ms[1..n - 1]) + SubLastMod(ms[n - 1]) + SelectCorrected(n))
  }

  // ---------- one limb of both tracks ----------

  lemma {:induction false} AddAndStore(x: int, y: int, b: nat, r: Stack, alt: Stack)
    requires 0 <= x <= b && 0 <= y <= b && x + y < 2 * b && b <= 0x4000_0000
    ensures Exec(LimbAddCarry() + [ToAlt], Running(Cell(b, Cell(y, Cell(x, r))), alt)) ==
            Running(Cell(Up(x + y, b), Cell(b, r)), Cell(Lo(x + y, b), alt))
  {
    hide Exec;
    hide Step;
    hide Lo;
    hide Up;
    hide LimbAddCarry;
    MoreStackRules();
    ExecAppend(LimbAddCarry(), [ToAlt], Running(Cell(b, Cell(y, Cell(x, r))), alt));
    LimbAddCarryRun(x, y, b, r, alt);
    Exec1(ToAlt, Running(Cell(Lo(x + y, b), Cell(Up(x + y, b), Cell(b, r))), alt));
  }

  lemma {:induction false} ArrangeRun(x: int, y: int, cm: int, cp: int, b: nat, r: Stack, alt: Stack)
    requires IsNum(y) && IsNum(cm)
    ensures Exec([Swap2, Add, Swap2] + [ToAlt, Swap, FromAlt], Running(Cell(cp, Cell(b, Cell(cm, Cell(y, Cell(x, r))))), alt)) ==
            Running(Cell(b, Cell(y + cm, Cell(x, Cell(cp, r)))), alt)
  {
    hide Exec;
    hide Step;
    StackRules();
    MoreStackRules();
    NumberRules();
    var st := Running(Cell(cp, Cell(b, Cell(cm, Cell(y, Cell(x, r))))), alt);
    ExecAppend([Swap2, Add, Swap2], [ToAlt, Swap, FromAlt], st);
    Exec3(Swap2, Add, Swap2, st);
    Exec3(ToAlt, Swap, FromAlt, Running(Cell(b, Cell(x, Cell(y + cm, Cell(cp, r)))), alt));
  }

  lemma {:induction false} SubTurnModRun(x: int, y: int, cm: int, m: int, cp: int, b: nat, r: Stack, alt: Stack)
    requires 0 <= x < b && 0 <= y < b && 0 <= cm <= 1 && 0 <= m < b && 0 <= cp <= 1 && b <= 0x4000_0000
    ensures var s := Lo(x - y - cm, b);
            Exec(SubTurnMod(m), Running(Cell(cp, Cell(b, Cell(cm, Cell(y, Cell(x, r))))), alt)) ==
            Running(Cell(Up(s + m + cp, b), Cell(b, Cell(0 - Up(x - y - cm, b), r))), Cell(Lo(s + m + cp, b), Cell(s, alt)))
  {
    hide Exec;
    hide Step;
    hide Lo;
    hide Up;
    hide LimbAddCarry;
    hide LimbSubBorrow;
    StackRules();
    MoreStackRules();
    NumberRules();
    var t := x - y - cm;
    var s, c := Lo(t, b), 0 - Up(t, b);
    var st := Running(Cell(cp, Cell(b, Cell(cm, Cell(y, Cell(x, r))))), alt);
    ExecAppend4([Swap2, Add, Swap2] + [ToAlt, Swap, FromAlt], LimbSubBorrow(), [Dup, ToAlt, Swap2, Swap, Num(m), Add, Swap],
                LimbAddCarry() + [ToAlt], st);
    ArrangeRun(x, y, cm, cp, b, r, alt);
    LimbSubBorrowRun(x, y + cm, b, Cell(cp, r), alt);
    assert x - (y + cm) == t;
    Exec7(Dup, ToAlt, Swap2, Swap, Num(m), Add, Swap, Running(Cell(s, Cell(c, Cell(b, Cell(cp, r)))), alt));
    AddAndStore(s, cp + m, b, Cell(c, r), Cell(s, alt));
    assert s + (cp + m) == s + m + cp;
  }

  /** One limb of difference and corrected difference. */
  lemma {:induction false} DualSubStep(x: int, y: int, p: int, cm: int, cp: int, b: nat)
    requires b > 0 && 0 <= cm <= 1 && 0 <= cp <= 1
    ensures var t := Lo(x, b) - Lo(y, b) - cm;
            var u := x - y - cm;
            var e := Lo(t, b) + Lo(p, b) + cp;
            Lo(u, b) == Lo(t, b) && Up(u, b) == Up(x, b) - Up(y, b) + Up(t, b) && -1 <= Up(t, b) <= 0 &&
            Lo(u + p + cp, b) == Lo(e, b) && Up(u + p + cp, b) == Up(u, b) + Up(p, b) + Up(e, b) && 0 <= Up(e, b) <= 1
  {
    hide Lo;
    hide Up;
    BorrowStep(x, y, cm, b);
    CarryStep(x - y - cm, p, cp, b);
  }

  lemma {:induction false} SubTurnsModRun(j: nat, b: nat, x: int, y: int, p: int, cm: int, cp: int, r: Stack, alt: Stack)
    requires 0 < b <= 0x4000_0000 && 0 <= cm <= 1 && 0 <= cp <= 1
    ensures var u, v := x - y - cm, x - y - cm + p + cp;
            0 <= BorrowOut(j, b, x, y, cm) <= 1 && 0 <= CarryOut(j, b, u, p, cp) <= 1 &&
            Exec(SubTurnsMod(Low(j, b, p)), Running(Cell(cp, Cell(b, Cell(cm, Pairs(j, b, x, y, r)))), alt)) ==
            Running(Cell(CarryOut(j, b, u, p, cp), Cell(b, Cell(BorrowOut(j, b, x, y, cm), Cell(Hi(j, b, y), Cell(Hi(j, b, x), r))))),
                    Dual(j, b, u, v, alt))
    decreases j
  {
    hide Exec;
    hide SubTurnMod;
    hide Lo;
    hide Up;
    var u, v := x - y - cm, x - y - cm + p + cp;
    var st := Running(Cell(cp, Cell(b, Cell(cm, Pairs(j, b, x, y, r)))), alt);
    if j == 0 {
      Exec0(st);
    } else {
      var t := Lo(x, b) - Lo(y, b) - cm;
      var e := Lo(t, b) + Lo(p, b) + cp;
      DualSubStep(x, y, p, cm, cp, b);
      assert Low(j, b, p)[1..] == Low(j - 1, b, Up(p, b));
      ExecAppend(SubTurnMod(Lo(p, b)), SubTurnsMod(Low(j - 1, b, Up(p, b))), st);
      SubTurnModRun(Lo(x, b), Lo(y, b), cm, Lo(p, b), cp, b, Pairs(j - 1, b, Up(x, b), Up(y, b), r), alt);
      SubTurnsModRun(j - 1, b, Up(x, b), Up(y, b), Up(p, b), 0 - Up(t, b), Up(e, b), r, Cell(Lo(v, b), Cell(Lo(u, b), alt)));
    }
  }

  lemma {:induction false} SubFirstModRun(k: nat, b: nat, x: int, y: int, p: int, r: Stack, alt: Stack)
    requires k > 0 && 0 < b <= 0x4000_0000
    ensures var t := Lo(x, b) - Lo(y, b);
            var e := Lo(t, b) + Lo(p, b);
            Exec(SubFirstMod(b, Lo(p, b)), Running(Pairs(k, b, x, y, r), alt)) ==
            Running(Cell(Up(e, b), Cell(b, Cell(0 - Up(t, b), Pairs(k - 1, b, Up(x, b), Up(y, b), r)))),
                    Cell(Lo(e, b), Cell(Lo(t, b), alt)))
  {
    hide Exec;
    hide Step;
    hide Lo;
    hide Up;
    hide LimbAddCarry;
    hide LimbSubBorrow;
    StackRules();
    MoreStackRules();
    var t := Lo(x, b) - Lo(y, b);
    var s, c := Lo(t, b), 0 - Up(t, b);
    var rest := Pairs(k - 1, b, Up(x, b), Up(y, b), r);
    var st := Running(Pairs(k, b, x, y, r), alt);
    ExecAppend4([Num(b)], LimbSubBorrow(), [Dup, ToAlt, Rot, Num(Lo(p, b)), Swap], LimbAddCarry() + [ToAlt], st);
    Exec1(Num(b), st);
    LimbSubBorrowRun(Lo(x, b), Lo(y, b), b, rest, alt);
    Exec5(Dup, ToAlt, Rot, Num(Lo(p, b)), Swap, Running(Cell(s, Cell(c, Cell(b, rest))), alt));
    AddAndStore(s, Lo(p, b), b, Cell(c, rest), Cell(s, alt));
  }

  /** The head limb of the corrected difference is reduced modulo the base. */
  lemma {:induction false} CorrectHead(s: int, m: int, cp: int, c: int, b: nat, r: Stack, alt: Stack)
    requires 0 <= s < b && 0 <= m < b && 0 <= cp <= 1 && s + m + cp < 2 * b && b <= 0x4000_0000
    ensures Exec([Num(m), Add, Add, FromAlt, Dup2, GreaterThanOrEqual] + [If([Sub], [Drop]), ToAlt],
                 Running(Cell(cp, Cell(s, Cell(c, r))), Cell(b, alt))) ==
            Running(Cell(c, r), Cell(Lo(s + m + cp, b), alt))
  {
    hide Exec;
    hide Step;
    hide Lo;
    hide Up;
    StackRules();
    MoreStackRules();
    NumberRules();
    var t := s + m + cp;
    OneBit(t, b);
    var st := Running(Cell(cp, Cell(s, Cell(c, r))), Cell(b, alt));
    ExecAppend([Num(m), Add, Add, FromAlt, Dup2, GreaterThanOrEqual], [If([Sub], [Drop]), ToAlt], st);
    Exec6(Num(m), Add, Add, FromAlt, Dup2, GreaterThanOrEqual, st);
    assert s + (cp + m) == t;
    var st2 := Running(Cell(b, Cell(t, Cell(c, r))), alt);
    Exec2(If([Sub], [Drop]), ToAlt, Running(Cell(Bit(t >= b), Cell(b, Cell(t, Cell(c, r)))), alt));
    Exec1(Sub, st2);
    Exec1(Drop, st2);
  }

  lemma {:induction false} SubLastModRun(x: int, y: int, cm: int, m: int, cp: int, b: nat, r: Stack, alt: Stack)
    requires 0 <= x < b && 0 <= y < b && 0 <= cm <= 1 && 0 <= m && m + 1 < b && 0 <= cp <= 1 && b <= 0x4000_0000
    ensures var s := Lo(x - y - cm, b);
            Exec(SubLastMod(m), Running(Cell(cp, Cell(b, Cell(cm, Cell(y, Cell(x, r))))), alt)) ==
            Running(Cell(0 - Up(x - y - cm, b), r), Cell(Lo(s + m + cp, b), Cell(s, alt)))
  {
    hide Exec;
    hide Step;
    hide Lo;
    hide Up;
    hide LimbSubBorrow;
    StackRules();
    MoreStackRules();
    var t := x - y - cm;
    var s, c := Lo(t, b), 0 - Up(t, b);
    var st := Running(Cell(cp, Cell(b, Cell(cm, Cell(y, Cell(x, r))))), alt);
    var last := [Num(m), Add, Add, FromAlt, Dup2, GreaterThanOrEqual] + [If([Sub], [Drop]), ToAlt];
    ExecAppend4([Swap2, Add, Swap2] + [ToAlt, Swap, FromAlt], LimbSubBorrow(), [Dup, ToAlt, Rot, ToAlt, Rot], last, st);
    ArrangeRun(x, y, cm, cp, b, r, alt);
    LimbSubBorrowRun(x, y + cm, b, Cell(cp, r), alt);
    assert x - (y + cm) == t;
    Exec5(Dup, ToAlt, Rot, ToAlt, Rot, Running(Cell(s, Cell(c, Cell(b, Cell(cp, r)))), alt));
    CorrectHead(s, m, cp, c, b, r, Cell(s, alt));
  }

  // ---------- selection ----------

  lemma {:induction false} RollFlagIf(l: seq<int>, h: int, flag: int, r: Stack, alt: Stack)
    requires |l| < 0x7FFF_FF00 && (flag == 0 || flag == 1) && (flag == 1 ==> alt.Cell?)
    ensures Exec([Num(|l| + 1), Roll] + [If([FromAlt, Drop], [])], Running(Prepend(l, Cell(h, Cell(flag, r))), alt)) ==
            Running(Prepend(l, Cell(h, r)), if flag == 0 then alt else alt.below)
  {
    hide Exec;
    hide Step;
    hide Prepend;
    StackRules();
    MoreStackRules();
    var st := Running(Prepend(l, Cell(h, Cell(flag, r))), alt);
    PrependLast(l, h, Cell(flag, r));
    PrependLast(l, h, r);
    ExecAppend([Num(|l| + 1), Roll], [If([FromAlt, Drop], [])], st);
    RollBelow(l + [h], flag, r, alt);
    var rest := Prepend(l + [h], r);
    Exec1(If([FromAlt, Drop], []), Running(Cell(flag, rest), alt));
    Exec0(Running(rest, alt));
    if flag == 1 {
      Exec2(FromAlt, Drop, Running(rest, Cell(alt.top, alt.below)));
    }
  }

  lemma {:induction false} SelectCorrectedRun(k: nat, b: nat, u: int, v: int, hu: int, hv: int, borrow: int, r: Stack, alt: Stack)
    requires b > 0 && 0 < k < 0x7FFF_FF00 && (borrow == 0 || borrow == 1)
    ensures Exec(SelectCorrected(k + 1), Running(Cell(borrow, r), Cell(hv, Cell(hu, Dual(k, b, u, v, alt))))) ==
            Running(if borrow == 0 then Prepend(Low(k, b, u), Cell(hu, r)) else Prepend(Low(k, b, v), Cell(hv, r)), alt)
  {
    hide Exec;
    hide Step;
    hide Lo;
    hide Up;
    hide Prepend;
    hide Dual;
    hide Low;
    hide Repeat;
    StackRules();
    MoreStackRules();
    var d := Dual(k, b, u, v, alt);
    var st := Running(Cell(borrow, r), Cell(hv, Cell(hu, d)));
    ExecAppend3([Dup, NotIf([FromAlt, Drop]), FromAlt], Repeat([FromAlt, Drop, FromAlt], k),
                [Num(k + 1), Roll] + [If([FromAlt, Drop], [])], st);
    Exec3(Dup, NotIf([FromAlt, Drop]), FromAlt, st);
    Exec2(FromAlt, Drop, st);
    Exec0(st);
    if borrow == 0 {
      TakeLower(k, b, u, v, Cell(hu, Cell(0, r)), alt);
      RollFlagIf(Low(k, b, u), hu, 0, r, alt);
    } else {
      TakeUpper(k, b, u, v, hu, Cell(hv, Cell(1, r)), alt);
      RollFlagIf(Low(k, b, v), hv, 1, r, Cell(Residue(k, b, u, hu), alt));
    }
  }

  // ---------- whole numbers ----------

  lemma {:induction false} DualSubRun(k: nat, b: nat, x: int, y: int, p: int, r: Stack, alt: Stack)
    requires k > 0 && 0 < b <= 0x4000_0000
    requires 0 <= Hi(k, b, x) < b && 0 <= Hi(k, b, y) < b && 0 <= Hi(k, b, p) && Hi(k, b, p) + 1 < b
    ensures var u, v := x - y, x - y + p;
            var hu, hv := Hi(k, b, u), Hi(k, b, v);
            Exec(SubLastMod(Hi(k, b, p)), Exec(SubTurnsMod(Low(k - 1, b, Up(p, b))), Exec(SubFirstMod(b, Lo(p, b)),
              Running(Pairs(k, b, x, y, r), alt)))) ==
            Running(Cell(0 - Up(hu, b), r), Cell(Lo(Lo(hu, b) + (hv - hu), b), Cell(Lo(hu, b), Dual(k, b, u, v, alt))))
  {
    hide Exec;
    hide Lo;
    hide Up;
    hide SubFirstMod;
    hide SubTurnsMod;
    hide SubLastMod;
    hide Pairs;
    hide Low;
    var t := Lo(x, b) - Lo(y, b);
    var e := Lo(t, b) + Lo(p, b);
    var u, v := x - y, x - y + p;
    DualSubStep(x, y, p, 0, 0, b);
    SubFirstModRun(k, b, x, y, p, r, alt);
    var cm, cp := 0 - Up(t, b), Up(e, b);
    SubTurnsModRun(k - 1, b, Up(x, b), Up(y, b), Up(p, b), cm, cp, r, Cell(Lo(v, b), Cell(Lo(u, b), alt)));
    var cm2 := BorrowOut(k - 1, b, Up(x, b), Up(y, b), cm);
    var cp2 := CarryOut(k - 1, b, Up(u, b), Up(p, b), cp);
    SubLastModRun(Hi(k, b, x), Hi(k, b, y), cm2, Hi(k, b, p), cp2, b, r, Dual(k, b, u, v, alt));
    var hu, hv := Hi(k, b, u), Hi(k, b, v);
    assert Hi(k, b, x) - Hi(k, b, y) - cm2 == hu;
    assert Lo(hu, b) + Hi(k, b, p) + cp2 == Lo(hu, b) + (hv - hu);
  }

  lemma {:induction false} HeadsOfDifference(w: Width, x: nat, y: nat, p: nat)
    requires Roomy(w) && x < p && y < p && p < Capacity(w)
    ensures Base(w) > 0
    ensures var k, b := NLimbs(w) - 1, Base(w);
            var u, v := x - y, x - y + p;
            0 <= Hi(k, b, x) < b && 0 <= Hi(k, b, y) < b && 0 <= Hi(k, b, p) && Hi(k, b, p) + 1 < b &&
            (u >= 0 ==> 0 <= Hi(k, b, u) < b) && (u < 0 ==> 0 - b <= Hi(k, b, u) < 0 && 0 <= Hi(k, b, v) < b)
  {
    hide Hi;
    hide NLimbs;
    hide Head;
    hide Capacity;
    hide Scale;
    var k, b, h := NLimbs(w) - 1, Base(w), HeadOffset(w);
    BaseBounds(w);
    HeadBelow(w, x);
    HeadBelow(w, y);
    HeadBelow(w, p);
    CapacityIsScale(w);
    Pow2StrictMono(Head(w), w.limb);
    HiBelow(k, b, h, x - y);
    HiBelow(k, b, h, x - y + p);
    HiNonNeg(k, b, x - y);
    HiNonNeg(k, b, x - y + p);
    HiAbove(k, b, h, x - y);
  }

  lemma {:induction false} SelectedHead(hu: int, hv: int, b: nat)
    requires b > 0 && hu < 0 && 0 - b <= hu && 0 <= hv < b
    ensures Up(hu, b) == -1 && Lo(Lo(hu, b) + (hv - hu), b) == hv
  {
    hide Lo;
    hide Up;
    OneBorrow(hu, b);
    OneBit(b + hv, b);
  }

  lemma {:induction false} SubModValue(w: Width, p: nat, x: nat, y: nat, r: Stack, alt: Stack)
    requires Roomy(w) && p < Capacity(w) && x < p && y < p && NLimbs(w) < 0x7FFF_FF00
    ensures Base(w) > 0
    ensures var k, b := NLimbs(w) - 1, Base(w);
            Exec(SelectCorrected(k + 1), Exec(SubLastMod(Hi(k, b, p)), Exec(SubTurnsMod(Low(k - 1, b, Up(p, b))),
              Exec(SubFirstMod(b, Lo(p, b)), Running(Pairs(k, b, x, y, r), alt))))) ==
            Running(On(w, (x - y) % p, r), alt)
  {
    hide Exec;
    hide SubFirstMod;
    hide SubTurnsMod;
    hide SubLastMod;
    hide SelectCorrected;
    hide On;
    hide Prepend;
    hide Pairs;
    hide Capacity;
    hide NLimbs;
    hide Head;
    hide Hi;
    hide Low;
    hide Lo;
    hide Up;
    hide Dual;
    BaseBounds(w);
    var k, b := NLimbs(w) - 1, Base(w);
    var u, v := x - y, x - y + p;
    HeadsOfDifference(w, x, y, p);
    DualSubRun(k, b, x, y, p, r, alt);
    var hu, hv := Hi(k, b, u), Hi(k, b, v);
    if u >= 0 { OneBorrow(hu, b); } else { SelectedHead(hu, hv, b); }
    SelectCorrectedRun(k, b, u, v, Lo(hu, b), Lo(Lo(hu, b) + (hv - hu), b), 0 - Up(hu, b), r, alt);
    OnByParts(w, u, r);
    OnByParts(w, v, r);
    ReducedDifference(x, y, p);
  }

  lemma {:induction false} ReducedDifference(x: nat, y: nat, p: nat)
    requires x < p && y < p
    ensures (x - y) % p == if x < y then x - y + p else x - y
  {
    DivModUnique(x - y, p, if x < y then -1 else 0, if x < y then x - y + p else x - y);
  }

  /** `sub` leaves the difference modulo p, with nothing left behind on the alt stack. */
  lemma {:induction false} SubModCorrect(w: Width, p: nat, a: nat, b: nat, top: seq<int>, mid: seq<int>, x: nat, y: nat,
                                         r: Stack, alt: Stack)
    requires Roomy(w) && p < Capacity(w) && Placed(w, a, b, top, mid) && x < p && y < p && NLimbs(w) < 0x7FFF_FF00
    ensures Exec(SubMod(w, p, a, b), Running(Pair(a, b, top, mid, Number(w, x), Number(w, y), r), alt)) ==
            Running(On(w, (x - y) % p, Prepend(top + mid, r)), alt)
  {
    hide Exec;
    hide SubFirstMod;
    hide SubTurnsMod;
    hide SubLastMod;
    hide SelectCorrected;
    hide Zip;
    hide Pair;
    hide On;
    hide Prepend;
    hide Pairs;
    hide Capacity;
    hide NLimbs;
    hide Head;
    hide Digits;
    hide Zipped;
    hide Hi;
    hide Low;
    hide Lo;
    hide Up;
    BaseBounds(w);
    var rest := Prepend(top + mid, r);
    var k, bb := NLimbs(w) - 1, Base(w);
    var ms, n := Number(w, p), NLimbs(w);
    var body := SubFirstMod(bb, ms[0]) + SubTurnsMod(ms[1..n - 1]) + SubLastMod(ms[n - 1]) + SelectCorrected(n);
    ExecAppend(Zip(w, a, b), body, Running(Pair(a, b, top, mid, Number(w, x), Number(w, y), r), alt));
    ZipRun(w, a, b, top, mid, Number(w, x), Number(w, y), r, alt);
    ZippedIsPairs(k, bb, x, y, rest);
    ExecAppend4(SubFirstMod(bb, ms[0]), SubTurnsMod(ms[1..n - 1]), SubLastMod(ms[n - 1]), SelectCorrected(n),
                Running(Pairs(k, bb, x, y, rest), alt));
    ModulusLimbs(w, p);
    NextLimb(k, bb, p);
    SubModValue(w, p, x, y, rest, alt);
  }

  // ---------- negation ----------

  /** The tests of `is_zero_keep_element` from limb i on; `above` cells lie above the number. */
  function ZeroTests(above: nat, i: nat, n: nat): Script
    requires i <= n
    decreases n - i
  {
    if i == n then [] else [Num(above + i + 1), Pick] + [Not, BoolAnd] + ZeroTests(above, i + 1, n)
  }

  /** `is_zero_keep_element` for the number at block a. */
  function IsZeroKeepElement(w: Width, a: nat): Script
    requires Valid(w)
  {
    MulNonNeg(NLimbs(w), a);
    [Num(1)] + ZeroTests(NLimbs(w) * a, 0, NLimbs(w))
  }

  /** Turn i of `neg`; the first one pushes the base, the last one drops it. */
  function NegTurn(m: int, base: Instr, keep: Instr): Script {
    [Num(m), Swap, base] + LimbSubBorrow() + [ToAlt, keep, Add]
  }

  function NegTurns(ms: seq<int>): Script {
    if ms == [] then [] else NegTurn(ms[0], Rot, if |ms| == 1 then Nip else Rot) + NegTurns(ms[1..])
  }

  function NegMod(w: Width, p: nat, a: nat): Script
    requires Valid(w)
  {
    var ms, n := Number(w, p), NLimbs(w);
    RollNum(w, a) + IsZeroKeepElement(w, 0) +
    [NotIf(NegTurn(ms[0], Num(Base(w)), if n == 2 then Nip else Rot) + NegTurns(ms[1..n - 1]) +
           [Num(ms[n - 1]), Swap, Sub] + Repeat([FromAlt], n - 1))]
  }

  lemma {:induction false} ZeroTestsRun(i: nat, top: seq<int>, l: seq<int>, f: bool, r: Stack, alt: Stack)
    requires i <= |l| && |top| + |l| < 0x7FFF_FF00 && forall j :: 0 <= j < |l| ==> IsNum(l[j])
    ensures Exec(ZeroTests(|top|, i, |l|), Running(Cell(Bit(f), Prepend(top, Prepend(l, r))), alt)) ==
            Running(Cell(Bit(f && forall j :: i <= j < |l| ==> l[j] == 0), Prepend(top, Prepend(l, r))), alt)
    decreases |l| - i
  {
    hide Exec;
    hide Step;
    hide Prepend;
    NumberRules();
    LogicRules();
    var s := Prepend(top, Prepend(l, r));
    var st := Running(Cell(Bit(f), s), alt);
    if i == |l| {
      Exec0(st);
    } else {
      ExecAppend3([Num(|top| + i + 1), Pick], [Not, BoolAnd], ZeroTests(|top|, i + 1, |l|), st);
      PrependFirst(Bit(f), top, Prepend(l, r));
      PickUnder([Bit(f)] + top, l, i, r, alt);
      Exec2(Not, BoolAnd, Running(Cell(l[i], Cell(Bit(f), s)), alt));
      var g := f && l[i] == 0;
      ZeroTestsRun(i + 1, top, l, g, r, alt);
      assert (g && forall j :: i + 1 <= j < |l| ==> l[j] == 0) == (f && forall j :: i <= j < |l| ==> l[j] == 0);
    }
  }

  lemma {:induction false} ZeroLimbs(k: nat, b: nat, v: nat)
    requires b > 0
    ensures v == 0 <==> forall j :: 0 <= j <= k ==> Digits(k, b, v)[j] == 0
    decreases k
  {
    if k == 0 {
      assert Digits(0, b, v)[0] == v;
    } else {
      hide Lo;
      hide Up;
      hide Digits;
      var d := Digits(k, b, v);
      DigitsStep(k, b, v);
      UpNonNeg(v, b);
      Split(v, b);
      ZeroLimbs(k - 1, b, Up(v, b));
      var t := Digits(k - 1, b, Up(v, b));
      assert d[0] == Lo(v, b) && forall j :: 1 <= j <= k ==> d[j] == t[j - 1];
      if v == 0 {
        SplitUnique(0, b, 0, 0);
      } else if Up(v, b) == 0 {
        assert 0 * b == 0;
        assert d[0] != 0;
      } else {
        var j :| 0 <= j <= k - 1 && t[j] != 0;
        assert d[j + 1] != 0;
      }
    }
  }

  lemma {:induction false} IsZeroRun(w: Width, a: nat, top: seq<int>, v: nat, r: Stack, alt: Stack)
    requires Valid(w) && v < Capacity(w) && |top| == NLimbs(w) * a && |top| + NLimbs(w) < 0x7FFF_FF00
    ensures Exec(IsZeroKeepElement(w, a), Running(Prepend(top, On(w, v, r)), alt)) ==
            Running(Cell(Bit(v == 0), Prepend(top, On(w, v, r))), alt)
  {
    hide Exec;
    hide Step;
    hide Prepend;
    hide NLimbs;
    hide Digits;
    hide ZeroTests;
    hide Scale;
    BaseBounds(w);
    StackRules();
    var l := Number(w, v);
    CapacityIsScale(w);
    DigitsInRange(NLimbs(w) - 1, Base(w), HeadOffset(w), v);
    assert forall j :: 0 <= j < |l| ==> IsNum(l[j]);
    ZeroLimbs(NLimbs(w) - 1, Base(w), v);
    var st := Running(Prepend(top, On(w, v, r)), alt);
    ExecAppend([Num(1)], ZeroTests(|top|, 0, NLimbs(w)), st);
    Exec1(Num(1), st);
    ZeroTestsRun(0, top, l, true, r, alt);
  }

  /** One turn: limb of the modulus minus limb of the number minus borrow. */
  lemma {:induction false} NegTurnRun(a: int, m: int, b: nat, z: int, last: bool, r: Stack, alt: Stack)
    requires 0 <= a <= b && 0 <= m < b && 0 <= z < b && b <= 0x4000_0000
    ensures Exec(NegTurn(m, Rot, if last then Nip else Rot), Running(Cell(a, Cell(b, Cell(z, r))), alt)) ==
            Running(Cell(z - Up(m - a, b), if last then r else Cell(b, r)), Cell(Lo(m - a, b), alt))
    ensures Exec(NegTurn(m, Num(b), if last then Nip else Rot), Running(Cell(a, Cell(z, r)), alt)) ==
            Running(Cell(z - Up(m - a, b), if last then r else Cell(b, r)), Cell(Lo(m - a, b), alt))
  {
    hide Exec;
    hide Step;
    hide Lo;
    hide Up;
    hide LimbSubBorrow;
    StackRules();
    MoreStackRules();
    var keep := if last then Nip else Rot;
    var s1, s2 := Running(Cell(a, Cell(b, Cell(z, r))), alt), Running(Cell(a, Cell(z, r)), alt);
    ExecAppend3([Num(m), Swap, Rot], LimbSubBorrow(), [ToAlt, keep, Add], s1);
    ExecAppend3([Num(m), Swap, Num(b)], LimbSubBorrow(), [ToAlt, keep, Add], s2);
    Exec3(Num(m), Swap, Rot, s1);
    Exec3(Num(m), Swap, Num(b), s2);
    LimbSubBorrowRun(m, a, b, Cell(z, r), alt);
    var t := m - a;
    OneBorrow(t, b);
    NegTail(Lo(t, b), 0 - Up(t, b), b, z, last, r, alt);
  }

  lemma {:induction false} NegTail(s: int, c: int, b: int, z: int, last: bool, r: Stack, alt: Stack)
    requires 0 <= c <= 1 && IsNum(z)
    ensures Exec([ToAlt, if last then Nip else Rot, Add], Running(Cell(s, Cell(c, Cell(b, Cell(z, r)))), alt)) ==
            Running(Cell(z + c, if last then r else Cell(b, r)), Cell(s, alt))
  {
    hide Exec;
    hide Step;
    StackRules();
    MoreStackRules();
    NumberRules();
    var st := Running(Cell(s, Cell(c, Cell(b, Cell(z, r)))), alt);
    Exec3(ToAlt, Nip, Add, st);
    Exec3(ToAlt, Rot, Add, st);
  }

  /** The stack of the negation loop: the current limb plus borrow, the base unless this was the last turn, the other limbs. */
  function NegStack(j: nat, b: nat, v: int, c: int, r: Stack): Stack
    requires b > 0
  {
    if j == 0 then Cell(v + c, r) else Cell(Lo(v, b) + c, Cell(b, Stacked(j - 1, b, Up(v, b), r)))
  }

  lemma {:induction false} NegLoop(j: nat, b: nat, v: int, p: int, c: int, r: Stack, alt: Stack)
    requires 0 < b <= 0x4000_0000 && 0 <= c <= 1 && 0 <= Hi(j, b, v) < b
    ensures 0 <= BorrowOut(j, b, p, v, c) <= 1
    ensures Exec(NegTurns(Low(j, b, p)), Running(NegStack(j, b, v, c, r), alt)) ==
            Running(Cell(Hi(j, b, v) + BorrowOut(j, b, p, v, c), r), PushAll(Low(j, b, p - v - c), alt))
    decreases j
  {
    hide Exec;
    hide NegTurn;
    hide Lo;
    hide Up;
    hide PushAll;
    var st := Running(NegStack(j, b, v, c, r), alt);
    if j == 0 {
      Exec0(st);
      NoCells(alt);
    } else {
      var u, q := Up(v, b), Up(p, b);
      var a, m := Lo(v, b) + c, Lo(p, b);
      BorrowStep(p, v, c, b);
      assert m - a == Lo(p, b) - Lo(v, b) - c;
      var c' := 0 - Up(m - a, b);
      assert Low(j, b, p)[1..] == Low(j - 1, b, q);
      ExecAppend(NegTurn(m, Rot, if j == 1 then Nip else Rot), NegTurns(Low(j - 1, b, q)), st);
      NegStep(j, b, v, c, m, r, alt);
      NegLoop(j - 1, b, u, q, c', r, Cell(Lo(m - a, b), alt));
      PushFirst(Lo(m - a, b), Low(j - 1, b, Up(p - v - c, b)), alt);
    }
  }

  lemma {:induction false} NegStep(j: nat, b: nat, v: int, c: int, m: int, r: Stack, alt: Stack)
    requires j > 0 && 0 < b <= 0x4000_0000 && 0 <= c <= 1 && 0 <= Hi(j, b, v) < b && 0 <= m < b
    ensures var a := Lo(v, b) + c;
            Exec(NegTurn(m, Rot, if j == 1 then Nip else Rot), Running(NegStack(j, b, v, c, r), alt)) ==
            Running(NegStack(j - 1, b, Up(v, b), 0 - Up(m - a, b), r), Cell(Lo(m - a, b), alt)) &&
            Exec(NegTurn(m, Num(b), if j == 1 then Nip else Rot), Running(Cell(a, Stacked(j - 1, b, Up(v, b), r)), alt)) ==
            Running(NegStack(j - 1, b, Up(v, b), 0 - Up(m - a, b), r), Cell(Lo(m - a, b), alt))
  {
    hide Exec;
    hide NegTurn;
    hide Lo;
    hide Up;
    var u := Up(v, b);
    var a := Lo(v, b) + c;
    if j == 1 {
      NegTurnRun(a, m, b, u, true, r, alt);
    } else {
      NegTurnRun(a, m, b, Lo(u, b), false, Stacked(j - 2, b, Up(u, b), r), alt);
    }
  }

  /** Without the test for zero the limbs of p minus the number are left. */
  lemma {:induction false} NegBody(w: Width, p: nat, v: nat, r: Stack, alt: Stack)
    requires Valid(w) && p < Capacity(w) && v <= p
    ensures var ms, n := Number(w, p), NLimbs(w);
            Exec(NegTurn(ms[0], Num(Base(w)), if n == 2 then Nip else Rot) + NegTurns(ms[1..n - 1]) +
                 [Num(ms[n - 1]), Swap, Sub] + Repeat([FromAlt], n - 1), Running(On(w, v, r), alt)) ==
            Running(On(w, p - v, r), alt)
  {
    hide Exec;
    hide Step;
    hide NegTurn;
    hide NegTurns;
    hide Prepend;
    hide PushAll;
    hide Digits;
    hide NLimbs;
    hide Capacity;
    hide Lo;
    hide Up;
    hide Low;
    hide Hi;
    hide Repeat;
    hide NegStack;
    BaseBounds(w);
    StackRules();
    NumberRules();
    var n, b := NLimbs(w), Base(w);
    var k := n - 1;
    var ms := Number(w, p);
    HeadBelow(w, v);
    HeadBelow(w, p);
    ModulusLimbs(w, p);
    DigitsAreStacked(k, b, v, r);
    var u, q := Up(v, b), Up(p, b);
    var t := Lo(p, b) - Lo(v, b);
    BorrowStep(p, v, 0, b);
    NextLimb(k, b, v);
    NextLimb(k, b, p);
    NextLimb(k, b, p - v);
    var first := NegTurn(ms[0], Num(b), if n == 2 then Nip else Rot);
    ExecAppend4(first, NegTurns(ms[1..n - 1]), [Num(ms[n - 1]), Swap, Sub], Repeat([FromAlt], k), Running(Stacked(k, b, v, r), alt));
    NegStep(k, b, v, 0, Lo(p, b), r, alt);
    var c := 0 - Up(t, b);
    NegLoop(k - 1, b, u, q, c, r, Cell(Lo(p - v, b), alt));
    PushFirst(Lo(p - v, b), Low(k - 1, b, Up(p - v, b)), alt);
    var c2 := BorrowOut(k - 1, b, q, u, c);
    var alt2 := PushAll(Low(k, b, p - v), alt);
    Exec3(Num(ms[n - 1]), Swap, Sub, Running(Cell(Hi(k, b, v) + c2, r), alt2));
    assert Hi(k, b, p) - (Hi(k, b, v) + c2) == Hi(k, b, p - v);
    FromAltAll(Low(k, b, p - v), Cell(Hi(k, b, p - v), r), alt);
    OnByParts(w, p - v, r);
  }

  /** `neg` leaves minus the number modulo p. */
  lemma {:induction false} NegModCorrect(w: Width, p: nat, a: nat, top: seq<int>, v: nat, r: Stack, alt: Stack)
    requires Valid(w) && p < Capacity(w) && v < p && |top| == a * NLimbs(w) && |top| + NLimbs(w) < 0x7FFF_FF00
    ensures Exec(NegMod(w, p, a), Running(Prepend(top, On(w, v, r)), alt)) == Running(On(w, (0 - v) % p, Prepend(top, r)), alt)
  {
    hide Exec;
    hide Step;
    hide NegTurn;
    hide NegTurns;
    hide RollNum;
    hide IsZeroKeepElement;
    hide Prepend;
    hide Digits;
    hide NLimbs;
    hide Capacity;
    hide Repeat;
    MoreStackRules();
    var n := NLimbs(w);
    var ms := Number(w, p);
    var rest := Prepend(top, r);
    var xs := Number(w, v);
    var body := NegTurn(ms[0], Num(Base(w)), if n == 2 then Nip else Rot) + NegTurns(ms[1..n - 1]) +
                [Num(ms[n - 1]), Swap, Sub] + Repeat([FromAlt], n - 1);
    ExecAppend3(RollNum(w, a), IsZeroKeepElement(w, 0), [NotIf(body)], Running(Prepend(top, On(w, v, r)), alt));
    PrependAppend(top, xs, r);
    RollRun(w, a, top, xs, r, alt);
    PrependAppend(xs, top, r);
    NoCells(On(w, v, rest));
    IsZeroRun(w, 0, [], v, rest, alt);
    Exec1(NotIf(body), Running(Cell(Bit(v == 0), On(w, v, rest)), alt));
    Exec0(Running(On(w, v, rest), alt));
    NegBody(w, p, v, rest, alt);
    ReducedNegation(v, p);
  }

  lemma {:induction false} ReducedNegation(v: nat, p: nat)
    requires v < p
    ensures (0 - v) % p == if v == 0 then 0 else p - v
  {
    if v == 0 { DivModUnique(0, p, 0, 0); } else { DivModUnique(0 - v, p, -1, p - v); }
  }
}
