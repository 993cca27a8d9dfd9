/** Modular addition, subtraction, doubling and negation (bitvm/src/bn254/fp254impl.rs): the plain and the reduced result
    are computed side by side, and the last borrow selects one of them. */
module FieldAdd {
  import opened Arithmetic
  import opened ScriptMachine
  import opened Limbs
  import opened StackMoves
  import opened NumberMoves
  import opened UnsignedAdd
  import opened UnsignedSub

  /** Widths whose head limb has room for one more bit, as U254 has. */
  predicate Roomy(w: Width) {
    Valid(w) && Head(w) < w.limb
  }

  lemma {:induction false} U254IsRoomy()
    ensures Roomy(Width(254, 29)) && NLimbs(Width(254, 29)) == 9 && Head(Width(254, 29)) == 22
  {
    DivModUnique(254 + 28, 29, 9, 21);
  }

  // ---------- generators ----------

  function AddTurnMod(m: int): Script {
    [Swap2, Add, Swap2] + LimbAddCarry() + [Dup, ToAlt, Swap2, Swap, Num(m), Add, Swap] + (LimbSubBorrow() + [ToAlt])
  }

  function AddTurnsMod(ms: seq<int>): Script {
    if ms == [] then [] else AddTurnMod(ms[0]) + AddTurnsMod(ms[1..])
  }

  /** What addition and doubling do after their head limbs: keep the reduced result if it did not borrow. */
  function SelectReduced(n: nat): Script
    requires n > 0
  {
    [Nip, Dup, If([FromAlt, Drop], []), FromAlt] + Repeat([FromAlt, Drop, FromAlt], n - 1) +
    ([Num(n), Roll] + [NotIf([FromAlt, Drop])])
  }

  function AddFirstMod(b: nat, m: int): Script {
    [Num(b)] + LimbAddCarry() + [Dup, ToAlt, Rot, Num(m), Swap] + (LimbSubBorrow() + [ToAlt])
  }

  function AddLastMod(m: int): Script {
    [Swap2, Add, Swap2, Rot, Rot, Add] + [Dup, ToAlt, Rot, Num(m), Add, Rot] + (LimbSubBorrow() + [ToAlt])
  }

  /** `add`, with the limbs of the modulus p. */
  function AddMod(w: Width, p: nat, a: nat, b: nat): Script
    requires Valid(w) && a != b
  {
    var ms, n := Number(w, p), NLimbs(w);
    Zip(w, a, b) +
    (AddFirstMod(Base(w), ms[0]) + AddTurnsMod(ms[1..n - 1]) + AddLastMod(ms[n - 1]) + SelectReduced(n))
  }

  // ---------- the two tracks on the alt stack ----------

  /** The low limbs of u and v pushed alternately, u below v. */
  function Dual(j: nat, b: nat, u: int, v: int, alt: Stack): Stack
    requires b > 0
  {
    if j == 0 then alt else Dual(j - 1, b, Up(u, b), Up(v, b), Cell(Lo(v, b), Cell(Lo(u, b), alt)))
  }

  /** Dropping every other item fetches the lower track. */
  lemma {:induction false} TakeLower(j: nat, b: nat, u: int, v: int, r: Stack, alt: Stack)
    requires b > 0
    ensures Exec(Repeat([FromAlt, Drop, FromAlt], j), Running(r, Dual(j, b, u, v, alt))) == Running(Prepend(Low(j, b, u), r), alt)
    decreases j
  {
    hide Exec;
    hide Step;
    hide Lo;
    hide Up;
    hide Prepend;
    StackRules();
    MoreStackRules();
    var s := Running(r, Dual(j, b, u, v, alt));
    if j == 0 {
      Exec0(s);
      NoCells(r);
    } else {
      ExecRepeatLast([FromAlt, Drop, FromAlt], j, s);
      TakeLower(j - 1, b, Up(u, b), Up(v, b), r, Cell(Lo(v, b), Cell(Lo(u, b), alt)));
      Exec3(FromAlt, Drop, FromAlt, Running(Prepend(Low(j - 1, b, Up(u, b)), r), Cell(Lo(v, b), Cell(Lo(u, b), alt))));
      PrependFirst(Lo(u, b), Low(j - 1, b, Up(u, b)), r);
    }
  }

  /** What is left of the lower track after fetching the upper one. */
  function Residue(j: nat, b: nat, u: int, x: int): int
    requires b > 0
  {
    if j == 0 then x else Lo(u, b)
  }

  /** With one item more on top, the same loop fetches the upper track and leaves one item. */
  lemma {:induction false} TakeUpper(j: nat, b: nat, u: int, v: int, x: int, r: Stack, alt: Stack)
    requires b > 0
    ensures Exec(Repeat([FromAlt, Drop, FromAlt], j), Running(r, Cell(x, Dual(j, b, u, v, alt)))) ==
            Running(Prepend(Low(j, b, v), r), Cell(Residue(j, b, u, x), alt))
    decreases j
  {
    hide Exec;
    hide Step;
    hide Lo;
    hide Up;
    hide Prepend;
    StackRules();
    MoreStackRules();
    var s := Running(r, Cell(x, Dual(j, b, u, v, alt)));
    if j == 0 {
      Exec0(s);
      NoCells(r);
    } else {
      var alt1 := Cell(Lo(v, b), Cell(Lo(u, b), alt));
      ExecRepeatLast([FromAlt, Drop, FromAlt], j, s);
      TakeUpper(j - 1, b, Up(u, b), Up(v, b), x, r, alt1);
      Exec3(FromAlt, Drop, FromAlt,
            Running(Prepend(Low(j - 1, b, Up(v, b)), r), Cell(Residue(j - 1, b, Up(u, b), x), alt1)));
      PrependFirst(Lo(v, b), Low(j - 1, b, Up(v, b)), r);
    }
  }

  // ---------- one limb of both tracks ----------

  lemma {:induction false} AddTurnModRun(x: int, y: int, cp: int, m: int, cm: int, b: nat, r: Stack, alt: Stack)
    requires 0 <= x < b && 0 <= y < b && 0 <= cp <= 1 && 0 <= m < b && 0 <= cm <= 1 && b <= 0x4000_0000
    ensures var s := Lo(x + y + cp, b);
            Exec(AddTurnMod(m), Running(Cell(cm, Cell(b, Cell(cp, Cell(y, Cell(x, r))))), alt)) ==
            Running(Cell(0 - Up(s - m - cm, b), Cell(b, Cell(Up(x + y + cp, b), r))), Cell(Lo(s - m - cm, b), Cell(s, alt)))
  {
    hide Exec;
    hide Step;
    hide Lo;
    hide Up;
    hide LimbAddCarry;
    hide LimbSubBorrow;
    StackRules();
    MoreStackRules();
    NumberRules();
    var t := x + y + cp;
    var s, c := Lo(t, b), Up(t, b);
    var st := Running(Cell(cm, Cell(b, Cell(cp, Cell(y, Cell(x, r))))), alt);
    ExecAppend4([Swap2, Add, Swap2], LimbAddCarry(), [Dup, ToAlt, Swap2, Swap, Num(m), Add, Swap], LimbSubBorrow() + [ToAlt], st);
    Exec3(Swap2, Add, Swap2, st);
    LimbAddCarryRun(y + cp, x, b, Cell(cm, r), alt);
    assert y + cp + x == t;
    Exec7(Dup, ToAlt, Swap2, Swap, Num(m), Add, Swap, Running(Cell(s, Cell(c, Cell(b, Cell(cm, r)))), alt));
    SubAndStore(s, m + cm, b, Cell(c, r), Cell(s, alt));
    assert cm + m == m + cm && s - (m + cm) == s - m - cm;
  }

  /** A limb subtraction whose difference goes to the alt stack. */
  lemma {:induction false} SubAndStore(x: int, y: int, b: nat, r: Stack, alt: Stack)
    requires 0 <= x < b && 0 <= y <= b && b <= 0x4000_0000
    ensures Exec(LimbSubBorrow() + [ToAlt], Running(Cell(b, Cell(y, Cell(x, r))), alt)) ==
            Running(Cell(0 - Up(x - y, b), Cell(b, r)), Cell(Lo(x - y, b), alt))
  {
    hide Exec;
    hide Step;
    hide Lo;
    hide Up;
    hide LimbSubBorrow;
    MoreStackRules();
    ExecAppend(LimbSubBorrow(), [ToAlt], Running(Cell(b, Cell(y, Cell(x, r))), alt));
    LimbSubBorrowRun(x, y, b, r, alt);
    Exec1(ToAlt, Running(Cell(Lo(x - y, b), Cell(0 - Up(x - y, b), Cell(b, r))), alt));
  }

  /** One limb of sum and reduced sum. */
  lemma {:induction false} DualStep(x: int, y: int, p: int, cp: int, cm: int, b: nat)
    requires b > 0 && 0 <= cp <= 1 && 0 <= cm <= 1
    ensures var t := Lo(x, b) + Lo(y, b) + cp;
            var u := x + y + cp;
            var e := Lo(t, b) - Lo(p, b) - cm;
            Lo(u, b) == Lo(t, b) && Up(u, b) == Up(x, b) + Up(y, b) + Up(t, b) && 0 <= Up(t, b) <= 1 &&
            Lo(u - p - cm, b) == Lo(e, b) && Up(u - p - cm, b) == Up(u, b) - Up(p, b) + Up(e, b) && -1 <= Up(e, b) <= 0
  {
    hide Lo;
    hide Up;
    CarryStep(x, y, cp, b);
    BorrowStep(x + y + cp, p, cm, b);
  }

  lemma {:induction false} AddTurnsModRun(j: nat, b: nat, x: int, y: int, p: int, cp: int, cm: int, r: Stack, alt: Stack)
    requires 0 < b <= 0x4000_0000 && 0 <= cp <= 1 && 0 <= cm <= 1
    ensures var u, v := x + y + cp, x + y + cp - p - cm;
            0 <= CarryOut(j, b, x, y, cp) <= 1 && 0 <= BorrowOut(j, b, u, p, cm) <= 1 &&
            Exec(AddTurnsMod(Low(j, b, p)), Running(Cell(cm, Cell(b, Cell(cp, Pairs(j, b, x, y, r)))), alt)) ==
            Running(Cell(BorrowOut(j, b, u, p, cm), Cell(b, Cell(CarryOut(j, b, x, y, cp), Cell(Hi(j, b, y), Cell(Hi(j, b, x), r))))),
                    Dual(j, b, u, v, alt))
    decreases j
  {
    hide Exec;
    hide AddTurnMod;
    hide Lo;
    hide Up;
    var u, v := x + y + cp, x + y + cp - p - cm;
    var st := Running(Cell(cm, Cell(b, Cell(cp, Pairs(j, b, x, y, r)))), alt);
    if j == 0 {
      Exec0(st);
    } else {
      var t := Lo(x, b) + Lo(y, b) + cp;
      var e := Lo(t, b) - Lo(p, b) - cm;
      DualStep(x, y, p, cp, cm, b);
      assert Low(j, b, p)[1..] == Low(j - 1, b, Up(p, b));
      ExecAppend(AddTurnMod(Lo(p, b)), AddTurnsMod(Low(j - 1, b, Up(p, b))), st);
      AddTurnModRun(Lo(x, b), Lo(y, b), cp, Lo(p, b), cm, b, Pairs(j - 1, b, Up(x, b), Up(y, b), r), alt);
      AddTurnsModRun(j - 1, b, Up(x, b), Up(y, b), Up(p, b), Up(t, b), 0 - Up(e, b), r, Cell(Lo(v, b), Cell(Lo(u, b), alt)));
    }
  }

  lemma {:induction false} AddFirstModRun(k: nat, b: nat, x: int, y: int, p: int, r: Stack, alt: Stack)
    requires k > 0 && 0 < b <= 0x4000_0000
    ensures var t := Lo(x, b) + Lo(y, b);
            var e := Lo(t, b) - Lo(p, b);
            Exec(AddFirstMod(b, Lo(p, b)), Running(Pairs(k, b, x, y, r), alt)) ==
            Running(Cell(0 - Up(e, b), Cell(b, Cell(Up(t, b), Pairs(k - 1, b, Up(x, b), Up(y, b), r)))),
                    Cell(Lo(e, b), Cell(Lo(t, b), alt)))
  {
    hide Exec;
    hide Step;
    hide Lo;
    hide Up;
    hide LimbAddCarry;
    hide LimbSubBorrow;
    StackRules();
    MoreStackRules();
    var t := Lo(x, b) + Lo(y, b);
    var s, c := Lo(t, b), Up(t, b);
    var rest := Pairs(k - 1, b, Up(x, b), Up(y, b), r);
    var st := Running(Pairs(k, b, x, y, r), alt);
    ExecAppend4([Num(b)], LimbAddCarry(), [Dup, ToAlt, Rot, Num(Lo(p, b)), Swap], LimbSubBorrow() + [ToAlt], st);
    Exec1(Num(b), st);
    LimbAddCarryRun(Lo(x, b), Lo(y, b), b, rest, alt);
    Exec5(Dup, ToAlt, Rot, Num(Lo(p, b)), Swap, Running(Cell(s, Cell(c, Cell(b, rest))), alt));
    SubAndStore(s, Lo(p, b), b, Cell(c, rest), Cell(s, alt));
  }

  lemma {:induction false} AddHeadRun(x: int, y: int, cp: int, cm: int, b: nat, r: Stack, alt: Stack)
    requires 0 <= x < b && 0 <= y < b && 0 <= cp <= 1 && b <= 0x4000_0000
    ensures Exec([Swap2, Add, Swap2, Rot, Rot, Add], Running(Cell(cm, Cell(b, Cell(cp, Cell(y, Cell(x, r))))), alt)) ==
            Running(Cell(x + y + cp, Cell(b, Cell(cm, r))), alt)
  {
    hide Exec;
    hide Step;
    StackRules();
    MoreStackRules();
    NumberRules();
    Exec6(Swap2, Add, Swap2, Rot, Rot, Add, Running(Cell(cm, Cell(b, Cell(cp, Cell(y, Cell(x, r))))), alt));
    assert y + cp + x == x + y + cp;
  }

  lemma {:induction false} AddLastModRun(x: int, y: int, cp: int, m: int, cm: int, b: nat, r: Stack, alt: Stack)
    requires 0 <= x && 0 <= y && 0 <= cp <= 1 && x + y + cp < b && 0 <= m < b && 0 <= cm <= 1 && b <= 0x4000_0000
    ensures var s := x + y + cp;
            Exec(AddLastMod(m), Running(Cell(cm, Cell(b, Cell(cp, Cell(y, Cell(x, r))))), alt)) ==
            Running(Cell(0 - Up(s - m - cm, b), Cell(b, r)), Cell(Lo(s - m - cm, b), Cell(s, alt)))
  {
    hide Exec;
    hide Step;
    hide Lo;
    hide Up;
    hide LimbSubBorrow;
    StackRules();
    MoreStackRules();
    NumberRules();
    var s := x + y + cp;
    var st := Running(Cell(cm, Cell(b, Cell(cp, Cell(y, Cell(x, r))))), alt);
    ExecAppend3([Swap2, Add, Swap2, Rot, Rot, Add], [Dup, ToAlt, Rot, Num(m), Add, Rot], LimbSubBorrow() + [ToAlt], st);
    AddHeadRun(x, y, cp, cm, b, r, alt);
    Exec6(Dup, ToAlt, Rot, Num(m), Add, Rot, Running(Cell(s, Cell(b, Cell(cm, r))), alt));
    SubAndStore(s, m + cm, b, r, Cell(s, alt));
    assert s - (m + cm) == s - m - cm;
  }

  // ---------- selection ----------

  /** Fetches the plain result if the reduced one borrowed and the reduced one otherwise; nothing stays behind. */
  lemma {:induction false} SelectReducedRun(k: nat, b: nat, u: int, v: int, hu: int, hv: int, borrow: int, r: Stack, alt: Stack)
    requires b > 0 && 0 < k < 0x7FFF_FF00 && (borrow == 0 || borrow == 1)
    ensures Exec(SelectReduced(k + 1), Running(Cell(borrow, Cell(b, r)), Cell(hv, Cell(hu, Dual(k, b, u, v, alt))))) ==
            Running(if borrow == 1 then Prepend(Low(k, b, u), Cell(hu, r)) else Prepend(Low(k, b, v), Cell(hv, r)), alt)
  {
    hide Exec;
    hide Step;
    hide Lo;
    hide Up;
    hide Prepend;
    hide Dual;
    hide Low;
    hide Repeat;
    StackRules();
    MoreStackRules();
    var d := Dual(k, b, u, v, alt);
    var st := Running(Cell(borrow, Cell(b, r)), Cell(hv, Cell(hu, d)));
    ExecAppend3([Nip, Dup, If([FromAlt, Drop], []), FromAlt], Repeat([FromAlt, Drop, FromAlt], k),
                [Num(k + 1), Roll] + [NotIf([FromAlt, Drop])], st);
    Exec4(Nip, Dup, If([FromAlt, Drop], []), FromAlt, st);
    var s1 := Running(Cell(borrow, r), Cell(hv, Cell(hu, d)));
    Exec2(FromAlt, Drop, s1);
    Exec0(s1);
    if borrow == 1 {
      TakeLower(k, b, u, v, Cell(hu, Cell(1, r)), alt);
      RollFlag(Low(k, b, u), hu, 1, r, alt);
    } else {
      TakeUpper(k, b, u, v, hu, Cell(hv, Cell(0, r)), alt);
      RollFlag(Low(k, b, v), hv, 0, r, Cell(Residue(k, b, u, hu), alt));
    }
  }

  /** The flag under the result decides whether one item of the alt stack is dropped. */
  lemma {:induction false} RollFlag(l: seq<int>, h: int, flag: int, r: Stack, alt: Stack)
    requires |l| < 0x7FFF_FF00 && (flag == 0 || flag == 1) && (flag == 0 ==> alt.Cell?)
    ensures Exec([Num(|l| + 1), Roll] + [NotIf([FromAlt, Drop])], Running(Prepend(l, Cell(h, Cell(flag, r))), alt)) ==
            Running(Prepend(l, Cell(h, r)), if flag == 1 then alt else alt.below)
  {
    hide Exec;
    hide Step;
    hide Prepend;
    StackRules();
    MoreStackRules();
    var st := Running(Prepend(l, Cell(h, Cell(flag, r))), alt);
    PrependLast(l, h, Cell(flag, r));
    PrependLast(l, h, r);
    ExecAppend([Num(|l| + 1), Roll], [NotIf([FromAlt, Drop])], st);
    RollBelow(l + [h], flag, r, alt);
    var rest := Prepend(l + [h], r);
    Exec1(NotIf([FromAlt, Drop]), Running(Cell(flag, rest), alt));
    Exec0(Running(rest, alt));
    if flag == 0 {
      Exec2(FromAlt, Drop, Running(rest, Cell(alt.top, alt.below)));
    }
  }

  // ---------- whole numbers ----------

  /** A result whose low limbs and head limb are those of a number. */
  lemma {:induction false} OnByParts(w: Width, v: int, r: Stack)
    requires Valid(w)
    ensures Base(w) > 0
    ensures Prepend(Low(NLimbs(w) - 1, Base(w), v), Cell(Hi(NLimbs(w) - 1, Base(w), v), r)) == On(w, v, r)
  {
    hide Low;
    hide Hi;
    hide Prepend;
    PrependLast(Low(NLimbs(w) - 1, Base(w), v), Hi(NLimbs(w) - 1, Base(w), v), r);
  }

  /** Heads of a sum below twice the modulus and of the reduced sum. */
  lemma {:induction false} HeadsOfSum(w: Width, x: nat, y: nat, p: nat)
    requires Roomy(w) && x < p && y < p && p < Capacity(w)
    ensures Base(w) > 0
    ensures var k, b := NLimbs(w) - 1, Base(w);
            var u, v := x + y, x + y - p;
            0 <= Hi(k, b, x) && 0 <= Hi(k, b, y) && 0 <= Hi(k, b, p) < b && Hi(k, b, u) < b &&
            (u < p ==> Hi(k, b, v) < 0) && (u >= p ==> 0 <= Hi(k, b, v) < b) && 0 - b <= Hi(k, b, v)
  {
    hide Hi;
    hide NLimbs;
    hide Head;
    hide Capacity;
    hide Scale;
    var k, b, h := NLimbs(w) - 1, Base(w), HeadOffset(w);
    BaseBounds(w);
    HeadBelow(w, x);
    HeadBelow(w, y);
    HeadBelow(w, p);
    CapacityIsScale(w);
    Pow2StrictMono(Head(w), w.limb);
    ScaleLinear(k, b, h);
    HiBelow(k, b, 2 * h, x + y);
    HiBelow(k, b, 2 * h, x + y - p);
    HiNonNeg(k, b, x + y - p);
    HiAbove(k, b, h, x + y - p);
  }

  lemma {:induction false} ScaleLinear(j: nat, b: nat, h: nat)
    ensures Scale(j, b, 2 * h) == 2 * Scale(j, b, h)
    decreases j
  {
    if j > 0 {
      ScaleLinear(j - 1, b, h);
      MulAssoc(b, 2, Scale(j - 1, b, h));
      MulAssoc(2, b, Scale(j - 1, b, h));
    }
  }

  lemma {:induction false} HiAbove(j: nat, b: nat, h: nat, v: int)
    requires b > 0 && 0 - Scale(j, b, h) <= v
    ensures 0 - h <= Hi(j, b, v)
    decreases j
  {
    if j > 0 {
      hide Lo;
      hide Up;
      Split(v, b);
      var c: int := Scale(j - 1, b, h);
      if Up(v, b) < 0 - c { MulMono(Up(v, b) + 1, 0 - c, b); }
      HiAbove(j - 1, b, h, Up(v, b));
    }
  }

  /** The limbs of the modulus, as the scripts list them. */
  lemma {:induction false} ModulusLimbs(w: Width, p: nat)
    requires Valid(w)
    ensures Base(w) > 0
    ensures var ms, n, b := Number(w, p), NLimbs(w), Base(w);
            ms[0] == Lo(p, b) && ms[1..n - 1] == Low(n - 2, b, Up(p, b)) && ms[n - 1] == Hi(n - 2, b, Up(p, b))
  {
    hide Lo;
    hide Up;
    hide NLimbs;
    var n, b := NLimbs(w), Base(w);
    var low := Low(n - 1, b, p);
    assert low == [Lo(p, b)] + Low(n - 2, b, Up(p, b));
    assert Number(w, p)[1..n - 1] == low[1..];
  }

  /** The limbs of a sum of two numbers and, on the other track, of the sum minus p. */
  lemma {:induction false} DualAddRun(k: nat, b: nat, x: int, y: int, p: int, r: Stack, alt: Stack)
    requires k > 0 && 0 < b <= 0x4000_0000
    requires 0 <= Hi(k, b, x) && 0 <= Hi(k, b, y) && 0 <= Hi(k, b, p) < b && Hi(k, b, x + y) < b
    ensures var u, v := x + y, x + y - p;
            Exec(AddLastMod(Hi(k, b, p)), Exec(AddTurnsMod(Low(k - 1, b, Up(p, b))), Exec(AddFirstMod(b, Lo(p, b)),
              Running(Pairs(k, b, x, y, r), alt)))) ==
            Running(Cell(0 - Up(Hi(k, b, v), b), Cell(b, r)), Cell(Lo(Hi(k, b, v), b), Cell(Hi(k, b, u), Dual(k, b, u, v, alt))))
  {
    hide Exec;
    hide Lo;
    hide Up;
    hide AddFirstMod;
    hide AddTurnsMod;
    hide AddLastMod;
    hide Pairs;
    hide Low;
    var t := Lo(x, b) + Lo(y, b);
    var e := Lo(t, b) - Lo(p, b);
    var u, v := x + y, x + y - p;
    DualStep(x, y, p, 0, 0, b);
    AddFirstModRun(k, b, x, y, p, r, alt);
    var cp, cm := Up(t, b), 0 - Up(e, b);
    AddTurnsModRun(k - 1, b, Up(x, b), Up(y, b), Up(p, b), cp, cm, r, Cell(Lo(v, b), Cell(Lo(u, b), alt)));
    var cp2 := CarryOut(k - 1, b, Up(x, b), Up(y, b), cp);
    var cm2 := BorrowOut(k - 1, b, Up(u, b), Up(p, b), cm);
    AddLastModRun(Hi(k, b, x), Hi(k, b, y), cp2, Hi(k, b, p), cm2, b, r, Dual(k, b, u, v, alt));
  }

  /** `add` leaves the sum modulo p, with nothing left behind on the alt stack. */
  lemma {:induction false} AddModCorrect(w: Width, p: nat, a: nat, b: nat, top: seq<int>, mid: seq<int>, x: nat, y: nat,
                                         r: Stack, alt: Stack)
    requires Roomy(w) && p < Capacity(w) && Placed(w, a, b, top, mid) && x < p && y < p && NLimbs(w) < 0x7FFF_FF00
    ensures Exec(AddMod(w, p, a, b), Running(Pair(a, b, top, mid, Number(w, x), Number(w, y), r), alt)) ==
            Running(On(w, (x + y) % p, Prepend(top + mid, r)), alt)
  {
    hide Exec;
    hide AddFirstMod;
    hide AddTurnsMod;
    hide AddLastMod;
    hide SelectReduced;
    hide Zip;
    hide Pair;
    hide On;
    hide Prepend;
    hide Pairs;
    hide Capacity;
    hide NLimbs;
    hide Head;
    hide Digits;
    hide Zipped;
    hide Hi;
    hide Low;
    hide Lo;
    hide Up;
    BaseBounds(w);
    var rest := Prepend(top + mid, r);
    var k, bb := NLimbs(w) - 1, Base(w);
    var ms, n := Number(w, p), NLimbs(w);
    var body := AddFirstMod(bb, ms[0]) + AddTurnsMod(ms[1..n - 1]) + AddLastMod(ms[n - 1]) + SelectReduced(n);
    ExecAppend(Zip(w, a, b), body, Running(Pair(a, b, top, mid, Number(w, x), Number(w, y), r), alt));
    ZipRun(w, a, b, top, mid, Number(w, x), Number(w, y), r, alt);
    ZippedIsPairs(k, bb, x, y, rest);
    ExecAppend4(AddFirstMod(bb, ms[0]), AddTurnsMod(ms[1..n - 1]), AddLastMod(ms[n - 1]), SelectReduced(n),
                Running(Pairs(k, bb, x, y, rest), alt));
    ModulusLimbs(w, p);
    NextLimb(k, bb, p);
    AddModValue(w, p, x, y, rest, alt);
  }

  lemma {:induction false} AddModValue(w: Width, p: nat, x: nat, y: nat, r: Stack, alt: Stack)
    requires Roomy(w) && p < Capacity(w) && x < p && y < p && NLimbs(w) < 0x7FFF_FF00
    ensures Base(w) > 0
    ensures var k, b := NLimbs(w) - 1, Base(w);
            Exec(SelectReduced(k + 1), Exec(AddLastMod(Hi(k, b, p)), Exec(AddTurnsMod(Low(k - 1, b, Up(p, b))),
              Exec(AddFirstMod(b, Lo(p, b)), Running(Pairs(k, b, x, y, r), alt))))) ==
            Running(On(w, (x + y) % p, r), alt)
  {
    hide Exec;
    hide AddFirstMod;
    hide AddTurnsMod;
    hide AddLastMod;
    hide SelectReduced;
    hide On;
    hide Prepend;
    hide Pairs;
    hide Capacity;
    hide NLimbs;
    hide Head;
    hide Hi;
    hide Low;
    hide Lo;
    hide Up;
    hide Dual;
    BaseBounds(w);
    var k, b := NLimbs(w) - 1, Base(w);
    var u, v := x + y, x + y - p;
    HeadsOfSum(w, x, y, p);
    DualAddRun(k, b, x, y, p, r, alt);
    var hv := Hi(k, b, v);
    OneBorrow(hv, b);
    SelectReducedRun(k, b, u, v, Hi(k, b, u), Lo(hv, b), 0 - Up(hv, b), r, alt);
    OnByParts(w, u, r);
    OnByParts(w, v, r);
    ReducedSum(x, y, p);
  }

  lemma {:induction false} ReducedSum(x: nat, y: nat, p: nat)
    requires x < p && y < p
    ensures (x + y) % p == if x + y < p then x + y else x + y - p
  {
    DivModUnique(x + y, p, if x + y < p then 0 else 1, if x + y < p then x + y else x + y - p);
  }

  // ---------- doubling ----------

  function DoubleTurnMod(m: int): Script {
    [Swap, Swap2, Over, Add, Rot] + LimbAddCarry() + [Dup, ToAlt, Rot, ToAlt, Rot, Num(m), Add, FromAlt] +
    (LimbSubBorrow() + [ToAlt])
  }

  function DoubleTurnsMod(ms: seq<int>): Script {
    if ms == [] then [] else DoubleTurnMod(ms[0]) + DoubleTurnsMod(ms[1..])
  }

  function DoubleLastMod(m: int): Script {
    [Swap2, Over, Add, Add, Dup, ToAlt, Swap] + [Num(m), Add, Rot] + (LimbSubBorrow() + [ToAlt])
  }

  /** `double`, with the limbs of the modulus p. */
  function DoubleMod(w: Width, p: nat, a: nat): Script
    requires Valid(w)
  {
    var ms, n := Number(w, p), NLimbs(w);
    RollNum(w, a) +
    (([Dup] + AddFirstMod(Base(w), ms[0])) + DoubleTurnsMod(ms[1..n - 1]) + DoubleLastMod(ms[n - 1]) + SelectReduced(n))
  }

  lemma {:induction false} DoubleTurnModRun(x: int, cp: int, m: int, cm: int, b: nat, r: Stack, alt: Stack)
    requires 0 <= x < b && 0 <= cp <= 1 && 0 <= m < b && 0 <= cm <= 1 && b <= 0x4000_0000
    ensures var s := Lo(x + x + cp, b);
            Exec(DoubleTurnMod(m), Running(Cell(cm, Cell(b, Cell(cp, Cell(x, r)))), alt)) ==
            Running(Cell(0 - Up(s - m - cm, b), Cell(b, Cell(Up(x + x + cp, b), r))), Cell(Lo(s - m - cm, b), Cell(s, alt)))
  {
    hide Exec;
    hide Step;
    hide Lo;
    hide Up;
    hide LimbAddCarry;
    hide LimbSubBorrow;
    StackRules();
    MoreStackRules();
    NumberRules();
    var t := x + x + cp;
    var s, c := Lo(t, b), Up(t, b);
    var st := Running(Cell(cm, Cell(b, Cell(cp, Cell(x, r)))), alt);
    ExecAppend4([Swap, Swap2, Over, Add, Rot], LimbAddCarry(), [Dup, ToAlt, Rot, ToAlt, Rot, Num(m), Add, FromAlt],
                LimbSubBorrow() + [ToAlt], st);
    Exec5(Swap, Swap2, Over, Add, Rot, st);
    LimbAddCarryRun(x, cp + x, b, Cell(cm, r), alt);
    assert x + (cp + x) == t;
    Exec8(Dup, ToAlt, Rot, ToAlt, Rot, Num(m), Add, FromAlt, Running(Cell(s, Cell(c, Cell(b, Cell(cm, r)))), alt));
    SubAndStore(s, m + cm, b, Cell(c, r), Cell(s, alt));
    assert cm + m == m + cm && s - (m + cm) == s - m - cm;
  }

  lemma {:induction false} DoubleTurnsModRun(j: nat, b: nat, x: int, p: int, cp: int, cm: int, r: Stack, alt: Stack)
    requires 0 < b <= 0x4000_0000 && 0 <= cp <= 1 && 0 <= cm <= 1
    ensures var u, v := x + x + cp, x + x + cp - p - cm;
            0 <= CarryOut(j, b, x, x, cp) <= 1 && 0 <= BorrowOut(j, b, u, p, cm) <= 1 &&
            Exec(DoubleTurnsMod(Low(j, b, p)), Running(Cell(cm, Cell(b, Cell(cp, Stacked(j, b, x, r)))), alt)) ==
            Running(Cell(BorrowOut(j, b, u, p, cm), Cell(b, Cell(CarryOut(j, b, x, x, cp), Cell(Hi(j, b, x), r)))),
                    Dual(j, b, u, v, alt))
    decreases j
  {
    hide Exec;
    hide DoubleTurnMod;
    hide Lo;
    hide Up;
    var u, v := x + x + cp, x + x + cp - p - cm;
    var st := Running(Cell(cm, Cell(b, Cell(cp, Stacked(j, b, x, r)))), alt);
    if j == 0 {
      Exec0(st);
    } else {
      var t := Lo(x, b) + Lo(x, b) + cp;
      var e := Lo(t, b) - Lo(p, b) - cm;
      DualStep(x, x, p, cp, cm, b);
      assert Low(j, b, p)[1..] == Low(j - 1, b, Up(p, b));
      ExecAppend(DoubleTurnMod(Lo(p, b)), DoubleTurnsMod(Low(j - 1, b, Up(p, b))), st);
      DoubleTurnModRun(Lo(x, b), cp, Lo(p, b), cm, b, Stacked(j - 1, b, Up(x, b), r), alt);
      DoubleTurnsModRun(j - 1, b, Up(x, b), Up(p, b), Up(t, b), 0 - Up(e, b), r, Cell(Lo(v, b), Cell(Lo(u, b), alt)));
    }
  }

  lemma {:induction false} DoubleFirstModRun(k: nat, b: nat, x: int, p: int, r: Stack, alt: Stack)
    requires k > 0 && 0 < b <= 0x4000_0000
    ensures var t := Lo(x, b) + Lo(x, b);
            var e := Lo(t, b) - Lo(p, b);
            Exec([Dup] + AddFirstMod(b, Lo(p, b)), Running(Stacked(k, b, x, r), alt)) ==
            Running(Cell(0 - Up(e, b), Cell(b, Cell(Up(t, b), Stacked(k - 1, b, Up(x, b), r)))),
                    Cell(Lo(e, b), Cell(Lo(t, b), alt)))
  {
    hide Exec;
    hide Step;
    hide Lo;
    hide Up;
    hide LimbAddCarry;
    hide LimbSubBorrow;
    StackRules();
    MoreStackRules();
    var t := Lo(x, b) + Lo(x, b);
    var s, c := Lo(t, b), Up(t, b);
    var rest := Stacked(k - 1, b, Up(x, b), r);
    var st := Running(Stacked(k, b, x, r), alt);
    ExecAppend([Dup], AddFirstMod(b, Lo(p, b)), st);
    Exec1(Dup, st);
    var st2 := Running(Cell(Lo(x, b), Cell(Lo(x, b), rest)), alt);
    ExecAppend4([Num(b)], LimbAddCarry(), [Dup, ToAlt, Rot, Num(Lo(p, b)), Swap], LimbSubBorrow() + [ToAlt], st2);
    Exec1(Num(b), st2);
    LimbAddCarryRun(Lo(x, b), Lo(x, b), b, rest, alt);
    Exec5(Dup, ToAlt, Rot, Num(Lo(p, b)), Swap, Running(Cell(s, Cell(c, Cell(b, rest))), alt));
    SubAndStore(s, Lo(p, b), b, Cell(c, rest), Cell(s, alt));
  }

  lemma {:induction false} DoubleHeadRun(x: int, cp: int, cm: int, b: nat, r: Stack, alt: Stack)
    requires 0 <= x < b && 0 <= cp <= 1 && b <= 0x4000_0000
    ensures Exec([Swap2, Over, Add, Add, Dup, ToAlt, Swap], Running(Cell(cm, Cell(b, Cell(cp, Cell(x, r)))), alt)) ==
            Running(Cell(cm, Cell(x + x + cp, Cell(b, r))), Cell(x + x + cp, alt))
  {
    hide Exec;
    hide Step;
    StackRules();
    MoreStackRules();
    NumberRules();
    Exec7(Swap2, Over, Add, Add, Dup, ToAlt, Swap, Running(Cell(cm, Cell(b, Cell(cp, Cell(x, r)))), alt));
    assert x + (cp + x) == x + x + cp;
  }

  lemma {:induction false} DoubleLastModRun(x: int, cp: int, m: int, cm: int, b: nat, r: Stack, alt: Stack)
    requires 0 <= x && 0 <= cp <= 1 && x + x + cp < b && 0 <= m < b && 0 <= cm <= 1 && b <= 0x4000_0000
    ensures var s := x + x + cp;
            Exec(DoubleLastMod(m), Running(Cell(cm, Cell(b, Cell(cp, Cell(x, r)))), alt)) ==
            Running(Cell(0 - Up(s - m - cm, b), Cell(b, r)), Cell(Lo(s - m - cm, b), Cell(s, alt)))
  {
    hide Exec;
    hide Step;
    hide Lo;
    hide Up;
    hide LimbSubBorrow;
    StackRules();
    MoreStackRules();
    NumberRules();
    var s := x + x + cp;
    var st := Running(Cell(cm, Cell(b, Cell(cp, Cell(x, r)))), alt);
    ExecAppend3([Swap2, Over, Add, Add, Dup, ToAlt, Swap], [Num(m), Add, Rot], LimbSubBorrow() + [ToAlt], st);
    DoubleHeadRun(x, cp, cm, b, r, alt);
    Exec3(Num(m), Add, Rot, Running(Cell(cm, Cell(s, Cell(b, r))), Cell(s, alt)));
    SubAndStore(s, m + cm, b, r, Cell(s, alt));
    assert s - (m + cm) == s - m - cm;
  }

  lemma {:induction false} DualDoubleRun(k: nat, b: nat, x: int, p: int, r: Stack, alt: Stack)
    requires k > 0 && 0 < b <= 0x4000_0000
    requires 0 <= Hi(k, b, x) && 0 <= Hi(k, b, p) < b && Hi(k, b, x + x) < b
    ensures var u, v := x + x, x + x - p;
            Exec(DoubleLastMod(Hi(k, b, p)), Exec(DoubleTurnsMod(Low(k - 1, b, Up(p, b))), Exec([Dup] + AddFirstMod(b, Lo(p, b)),
              Running(Stacked(k, b, x, r), alt)))) ==
            Running(Cell(0 - Up(Hi(k, b, v), b), Cell(b, r)), Cell(Lo(Hi(k, b, v), b), Cell(Hi(k, b, u), Dual(k, b, u, v, alt))))
  {
    hide Exec;
    hide Lo;
    hide Up;
    hide AddFirstMod;
    hide DoubleTurnsMod;
    hide DoubleLastMod;
    hide Stacked;
    hide Low;
    var t := Lo(x, b) + Lo(x, b);
    var e := Lo(t, b) - Lo(p, b);
    var u, v := x + x, x + x - p;
    DualStep(x, x, p, 0, 0, b);
    DoubleFirstModRun(k, b, x, p, r, alt);
    var cp, cm := Up(t, b), 0 - Up(e, b);
    DoubleTurnsModRun(k - 1, b, Up(x, b), Up(p, b), cp, cm, r, Cell(Lo(v, b), Cell(Lo(u, b), alt)));
    var cp2 := CarryOut(k - 1, b, Up(x, b), Up(x, b), cp);
    var cm2 := BorrowOut(k - 1, b, Up(u, b), Up(p, b), cm);
    DoubleLastModRun(Hi(k, b, x), cp2, Hi(k, b, p), cm2, b, r, Dual(k, b, u, v, alt));
  }

  lemma {:induction false} DoubleModValue(w: Width, p: nat, x: nat, r: Stack, alt: Stack)
    requires Roomy(w) && p < Capacity(w) && x < p && NLimbs(w) < 0x7FFF_FF00
    ensures Base(w) > 0
    ensures var k, b := NLimbs(w) - 1, Base(w);
            Exec(SelectReduced(k + 1), Exec(DoubleLastMod(Hi(k, b, p)), Exec(DoubleTurnsMod(Low(k - 1, b, Up(p, b))),
              Exec([Dup] + AddFirstMod(b, Lo(p, b)), Running(Stacked(k, b, x, r), alt))))) ==
            Running(On(w, (x + x) % p, r), alt)
  {
    hide Exec;
    hide AddFirstMod;
    hide DoubleTurnsMod;
    hide DoubleLastMod;
    hide SelectReduced;
    hide On;
    hide Prepend;
    hide Stacked;
    hide Capacity;
    hide NLimbs;
    hide Head;
    hide Hi;
    hide Low;
    hide Lo;
    hide Up;
    hide Dual;
    BaseBounds(w);
    var k, b := NLimbs(w) - 1, Base(w);
    var u, v := x + x, x + x - p;
    HeadsOfSum(w, x, x, p);
    DualDoubleRun(k, b, x, p, r, alt);
    var hv := Hi(k, b, v);
    OneBorrow(hv, b);
    SelectReducedRun(k, b, u, v, Hi(k, b, u), Lo(hv, b), 0 - Up(hv, b), r, alt);
    OnByParts(w, u, r);
    OnByParts(w, v, r);
    ReducedSum(x, x, p);
  }

  /** `double` leaves the double modulo p. */
  lemma {:induction false} DoubleModCorrect(w: Width, p: nat, a: nat, top: seq<int>, x: nat, r: Stack, alt: Stack)
    requires Roomy(w) && p < Capacity(w) && x < p && |top| == a * NLimbs(w) && |top| + NLimbs(w) < 0x7FFF_FF00
    ensures Exec(DoubleMod(w, p, a), Running(Prepend(top, On(w, x, r)), alt)) == Running(On(w, (x + x) % p, Prepend(top, r)), alt)
  {
    hide Exec;
    hide AddFirstMod;
    hide DoubleTurnsMod;
    hide DoubleLastMod;
    hide SelectReduced;
    hide RollNum;
    hide Prepend;
    hide Stacked;
    hide Capacity;
    hide NLimbs;
    hide Head;
    hide Digits;
    hide Hi;
    hide Low;
    hide Lo;
    hide Up;
    BaseBounds(w);
    var rest := Prepend(top, r);
    var xs := Number(w, x);
    var k, bb := NLimbs(w) - 1, Base(w);
    var ms, n := Number(w, p), NLimbs(w);
    var first := [Dup] + AddFirstMod(bb, ms[0]);
    var body := first + DoubleTurnsMod(ms[1..n - 1]) + DoubleLastMod(ms[n - 1]) + SelectReduced(n);
    ExecAppend(RollNum(w, a), body, Running(Prepend(top, On(w, x, r)), alt));
    PrependAppend(top, xs, r);
    RollRun(w, a, top, xs, r, alt);
    PrependAppend(xs, top, r);
    DigitsAreStacked(k, bb, x, rest);
    ExecAppend4(first, DoubleTurnsMod(ms[1..n - 1]), DoubleLastMod(ms[n - 1]), SelectReduced(n),
                Running(Stacked(k, bb, x, rest), alt));
    ModulusLimbs(w, p);
    NextLimb(k, bb, p);
    DoubleModValue(w, p, x, rest, alt);
  }
}
