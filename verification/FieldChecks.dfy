/** Membership tests for field elements on untrusted cells (bitvm/src/bn254/fp254impl.rs). */
module FieldChecks {
  import opened Arithmetic
  import opened ScriptMachine
  import opened Limbs

  // ---------- generators ----------

  function Compare(c: int): Script {
    [Num(c), Dup2, GreaterThan, ToAlt, GreaterThanOrEqual] + [BoolAnd, FromAlt, BoolOr]
  }

  function CheckLimb(b: nat): Script {
    [Dup, Dup, ToAlt, Num(0), Num(b), Within, Verify]
  }

  function CheckTurns(b: nat, cs: seq<int>): Script {
    if cs == [] then []
    else CheckLimb(b) + Compare(cs[0]) + (if |cs| == 1 then [Not, Verify] else [Swap]) + CheckTurns(b, cs[1..])
  }

  /** `check_validity`: fails unless the cells spell a number below p; moves them to the alt stack. */
  function CheckElement(w: Width, p: nat): Script
    requires Valid(w)
  {
    var cs := Number(w, p);
    CheckLimb(Base(w)) + [Num(cs[0]), GreaterThanOrEqual, Swap] + CheckTurns(Base(w), cs[1..])
  }

  function TestTurns(b: nat, cs: seq<int>): Script {
    if cs == [] then []
    else
      ([Dup, Num(0), Num(b), Within] + [FromAlt, BoolAnd, ToAlt]) + Compare(cs[0]) +
      (if |cs| == 1 then [Not, FromAlt, BoolAnd] else [Swap]) + TestTurns(b, cs[1..])
  }

  /** `is_valid`: leaves whether the cells spell a number below p. */
  function IsElement(w: Width, p: nat): Script
    requires Valid(w)
  {
    var cs := Number(w, p);
    ([Dup, Num(0), Num(Base(w)), Within] + [ToAlt, Num(cs[0]), GreaterThanOrEqual, Swap]) + TestTurns(Base(w), cs[1..])
  }

  // ---------- comparing lists of limbs ----------

  /** The running verdict on the i lowest limbs. */
  predicate AtLeast(l: seq<int>, c: seq<int>, i: nat)
    requires 0 < i <= |l| && |l| == |c|
  {
    if i == 1 then l[0] >= c[0]
    else l[i - 1] > c[i - 1] || (l[i - 1] >= c[i - 1] && AtLeast(l, c, i - 1))
  }

  predicate Small(b: nat, l: seq<int>, i: nat)
    requires i <= |l|
  {
    forall j :: 0 <= j < i ==> 0 <= l[j] < b
  }

  lemma {:induction false} ValueAppend(b: nat, l: seq<int>, x: int)
    ensures Value(b, l + [x]) == Value(b, l) + Scale(|l|, b, 1) * x
    decreases |l|
  {
    if l == [] {
      assert [x][1..] == [];
      assert [] + [x] == [x];
      assert b * 0 == 0;
    } else {
      assert (l + [x])[1..] == l[1..] + [x];
      ValueAppend(b, l[1..], x);
      var s := Scale(|l| - 1, b, 1);
      MulAssoc(b, s, x);
      Spread(b, Value(b, l[1..]), s * x);
    }
  }

  lemma {:induction false} Spread(b: int, x: int, y: int)
    ensures b * (x + y) == b * x + b * y
  {
  }

  lemma {:induction false} ValueBound(b: nat, l: seq<int>)
    requires Small(b, l, |l|)
    ensures 0 <= Value(b, l) < Scale(|l|, b, 1)
    decreases |l|
  {
    if l != [] {
      var t := l[1..];
      assert forall j :: 0 <= j < |t| ==> t[j] == l[j + 1];
      ValueBound(b, t);
      MulMono(Value(b, t) + 1, Scale(|t|, b, 1), b);
      Spread(b, Value(b, t), 1);
      MulNonNeg(b, Value(b, t));
    }
  }

  lemma {:induction false} TopDecides(x: nat, y: nat, s: nat, l: int, c: int)
    requires x < s && y < s
    ensures x + s * l >= y + s * c <==> l > c || (l >= c && x >= y)
  {
    if l > c { MulMono(c + 1, l, s); Spread(s, c, 1); }
    if l < c { MulMono(l + 1, c, s); Spread(s, l, 1); }
  }

  lemma {:induction false} NoValue(b: nat)
    ensures Value(b, []) == 0
  {
  }

  lemma {:induction false} FirstCell(l: seq<int>, r: Stack)
    requires l != []
    ensures Prepend(l, r) == Cell(l[0], Prepend(l[1..], r))
  {
  }

  lemma {:induction false} NothingSmall(b: nat, l: seq<int>)
    ensures Small(b, l, 0)
  {
  }

  /** On limbs in range the running verdict compares the values. */
  lemma {:induction false} AtLeastIsComparison(b: nat, l: seq<int>, c: seq<int>, i: nat)
    requires 0 < i <= |l| && |l| == |c| && Small(b, l, i) && Small(b, c, i)
    ensures AtLeast(l, c, i) <==> Value(b, l[..i]) >= Value(b, c[..i])
    decreases i
  {
    hide Value;
    var m := i - 1;
    assert l[..i] == l[..m] + [l[m]] && c[..i] == c[..m] + [c[m]];
    ValueAppend(b, l[..m], l[m]);
    ValueAppend(b, c[..m], c[m]);
    if m == 0 {
      assert l[..0] == [] && c[..0] == [];
      NoValue(b);
    } else {
      assert Small(b, l, m) && Small(b, c, m);
      AtLeastIsComparison(b, l, c, m);
      ValueBound(b, l[..m]);
      ValueBound(b, c[..m]);
      TopDecides(Value(b, l[..m]), Value(b, c[..m]), Scale(m, b, 1), l[m], c[m]);
    }
  }

  /** Cells that spell a field element. */
  ghost predicate Spells(w: Width, p: nat, l: seq<int>)
    requires Valid(w)
  {
    exists v: nat :: v < p && l == Number(w, v)
  }

  lemma {:induction false} SpellsBySize(w: Width, p: nat, l: seq<int>)
    requires Valid(w) && p < Capacity(w) && |l| == NLimbs(w)
    ensures Spells(w, p, l) <==> Small(Base(w), l, |l|) && !AtLeast(l, Number(w, p), |l|)
  {
    hide Value;
    hide Digits;
    hide AtLeast;
    hide NLimbs;
    hide Scale;
    var k, b, h := NLimbs(w) - 1, Base(w), HeadOffset(w);
    var c := Number(w, p);
    BaseBounds(w);
    CapacityIsScale(w);
    DigitsInRange(k, b, h, p);
    ValueOfDigits(k, b, p);
    assert l[..|l|] == l && c[..|l|] == c;
    if Small(b, l, |l|) {
      AtLeastIsComparison(b, l, c, |l|);
      InRangeIsDigits(b, b, l);
      if !AtLeast(l, c, |l|) { assert l == Number(w, Value(b, l)); }
    }
    if v: nat :| v < p && l == Number(w, v) {
      DigitsInRange(k, b, h, v);
      ValueOfDigits(k, b, v);
      AtLeastIsComparison(b, l, c, |l|);
    }
  }

  // ---------- one limb ----------

  lemma {:induction false} CheckLimbRun(b: nat, x: int, r: Stack, alt: Stack)
    requires b <= 0x4000_0000
    ensures Exec(CheckLimb(b), Running(Cell(x, r), alt)) ==
            if 0 <= x < b then Running(Cell(x, r), Cell(x, alt)) else Failed
  {
    hide Exec;
    hide Step;
    StackRules();
    MoreStackRules();
    LogicRules();
    Exec7(Dup, Dup, ToAlt, Num(0), Num(b), Within, Verify, Running(Cell(x, r), alt));
  }

  lemma {:induction false} CompareRun(x: int, c: int, f: bool, r: Stack, alt: Stack)
    requires IsNum(x) && IsNum(c)
    ensures Exec(Compare(c), Running(Cell(x, Cell(Bit(f), r)), alt)) == Running(Cell(Bit(x > c || (x >= c && f)), r), alt)
  {
    hide Exec;
    hide Step;
    StackRules();
    MoreStackRules();
    NumberRules();
    LogicRules();
    var st := Running(Cell(x, Cell(Bit(f), r)), alt);
    ExecAppend([Num(c), Dup2, GreaterThan, ToAlt, GreaterThanOrEqual], [BoolAnd, FromAlt, BoolOr], st);
    Exec5(Num(c), Dup2, GreaterThan, ToAlt, GreaterThanOrEqual, st);
    Exec3(BoolAnd, FromAlt, BoolOr, Running(Cell(Bit(x >= c), Cell(Bit(f), r)), Cell(Bit(x > c), alt)));
  }

  lemma {:induction false} CompareFirst(x: int, c: int, z: int, r: Stack, alt: Stack)
    requires IsNum(x) && IsNum(c)
    ensures Exec([Num(c), GreaterThanOrEqual, Swap], Running(Cell(x, Cell(z, r)), alt)) ==
            Running(Cell(z, Cell(Bit(x >= c), r)), alt)
    ensures Exec([Dup, Num(0), Num(c), Within], Running(Cell(x, r), alt)) == Running(Cell(Bit(0 <= x < c), Cell(x, r)), alt)
  {
    hide Exec;
    hide Step;
    StackRules();
    NumberRules();
    LogicRules();
    Exec3(Num(c), GreaterThanOrEqual, Swap, Running(Cell(x, Cell(z, r)), alt));
    Exec4(Dup, Num(0), Num(c), Within, Running(Cell(x, r), alt));
  }

  lemma {:induction false} Closing(f: bool, v: bool, z: int, r: Stack, alt: Stack)
    ensures Exec([Not, Verify], Running(Cell(Bit(f), r), alt)) == if f then Failed else Running(r, alt)
    ensures Exec([Not, FromAlt, BoolAnd], Running(Cell(Bit(f), r), Cell(Bit(v), alt))) == Running(Cell(Bit(v && !f), r), alt)
    ensures Exec([Swap], Running(Cell(Bit(f), Cell(z, r)), alt)) == Running(Cell(z, Cell(Bit(f), r)), alt)
    ensures Exec([FromAlt, BoolAnd, ToAlt], Running(Cell(Bit(f), r), Cell(Bit(v), alt))) == Running(r, Cell(Bit(v && f), alt))
  {
    hide Exec;
    hide Step;
    StackRules();
    MoreStackRules();
    NumberRules();
    LogicRules();
    Exec2(Not, Verify, Running(Cell(Bit(f), r), alt));
    Exec3(Not, FromAlt, BoolAnd, Running(Cell(Bit(f), r), Cell(Bit(v), alt)));
    Exec1(Swap, Running(Cell(Bit(f), Cell(z, r)), alt));
    Exec3(FromAlt, BoolAnd, ToAlt, Running(Cell(Bit(f), r), Cell(Bit(v), alt)));
  }

  // ---------- check_validity ----------

  /** Before limb i: the limb, the verdict on the limbs below it, the limbs above; the limbs below are on the alt stack. */
  function CheckState(l: seq<int>, c: seq<int>, i: nat, r: Stack, alt: Stack): State
    requires 0 < i < |l| && |l| == |c|
  {
    Running(Cell(l[i], Cell(Bit(AtLeast(l, c, i)), Prepend(l[i + 1..], r))), PushAll(l[..i], alt))
  }

  lemma {:induction false} CheckTurnsRun(b: nat, l: seq<int>, c: seq<int>, i: nat, r: Stack, alt: Stack)
    requires 0 < i < |l| && |l| == |c| && b <= 0x4000_0000 && forall j :: 0 <= j < |c| ==> IsNum(c[j])
    ensures Exec(CheckTurns(b, c[i..]), CheckState(l, c, i, r, alt)) ==
            if (forall j :: i <= j < |l| ==> 0 <= l[j] < b) && !AtLeast(l, c, |l|) then Running(r, PushAll(l, alt)) else Failed
    decreases |l| - i
  {
    hide Exec;
    hide Prepend;
    hide PushAll;
    hide CheckLimb;
    hide Compare;
    var x, n := l[i], |l|;
    var f, g := AtLeast(l, c, i), AtLeast(l, c, i + 1);
    var rest := Prepend(l[i + 1..], r);
    var close := if |c[i..]| == 1 then [Not, Verify] else [Swap];
    assert c[i..][1..] == c[i + 1..];
    var st := CheckState(l, c, i, r, alt);
    ExecAppend4(CheckLimb(b), Compare(c[i]), close, CheckTurns(b, c[i + 1..]), st);
    CheckLimbRun(b, x, Cell(Bit(f), rest), PushAll(l[..i], alt));
    assert l[..i + 1] == l[..i] + [x];
    PushLast(l[..i], x, alt);
    var alt1 := PushAll(l[..i + 1], alt);
    if 0 <= x < b {
      CompareRun(x, c[i], f, rest, alt1);
      if i + 1 == n {
        assert l[..i + 1] == l && l[i + 1..] == [] && c[i + 1..] == [];
        NoCells(r);
        Closing(g, true, 0, r, alt1);
        ExecEmpty(if g then Failed else Running(r, alt1));
      } else {
        assert l[i + 1..][1..] == l[i + 2..] && l[i + 1..][0] == l[i + 1];
        FirstCell(l[i + 1..], r);
        Closing(g, true, l[i + 1], Prepend(l[i + 2..], r), alt1);
        CheckTurnsRun(b, l, c, i + 1, r, alt);
      }
    } else {
      ExecFailed(Compare(c[i]));
      ExecFailed(close);
      ExecFailed(CheckTurns(b, c[i + 1..]));
    }
  }

  lemma {:induction false} ExecEmpty(st: State)
    ensures Exec([], st) == st
  {
  }

  /** `check_validity` accepts exactly the field elements, whatever cells are on the stack. */
  lemma {:induction false} CheckElementExact(w: Width, p: nat, l: seq<int>, r: Stack, alt: Stack)
    requires Valid(w) && p < Capacity(w) && |l| == NLimbs(w)
    ensures Exec(CheckElement(w, p), Running(Prepend(l, r), alt)) ==
            if Spells(w, p, l) then Running(r, PushAll(l, alt)) else Failed
  {
    hide Exec;
    hide Prepend;
    hide PushAll;
    hide CheckLimb;
    hide CheckTurns;
    hide NLimbs;
    hide Digits;
    hide Spells;
    var b := Base(w);
    BaseBounds(w);
    var c := Number(w, p);
    ModulusIsSmall(w, p);
    SpellsBySize(w, p, l);
    var x, rest := l[0], Prepend(l[1..], r);
    FirstCell(l, r);
    assert l[1..][1..] == l[2..];
    FirstCell(l[1..], r);
    ExecAppend3(CheckLimb(b), [Num(c[0]), GreaterThanOrEqual, Swap], CheckTurns(b, c[1..]), Running(Prepend(l, r), alt));
    CheckLimbRun(b, x, rest, alt);
    if 0 <= x < b {
      CompareFirst(x, c[0], l[1], Prepend(l[2..], r), Cell(x, alt));
      assert l[..1] == [x];
      PushOne(x, alt);
      CheckTurnsRun(b, l, c, 1, r, alt);
    } else {
      ExecFailed([Num(c[0]), GreaterThanOrEqual, Swap]);
      ExecFailed(CheckTurns(b, c[1..]));
    }
  }

  lemma {:induction false} ModulusIsSmall(w: Width, p: nat)
    requires Valid(w) && p < Capacity(w)
    ensures forall j :: 0 <= j < NLimbs(w) ==> IsNum(Number(w, p)[j])
  {
    hide Digits;
    hide Scale;
    BaseBounds(w);
    CapacityIsScale(w);
    DigitsInRange(NLimbs(w) - 1, Base(w), HeadOffset(w), p);
  }

  // ---------- is_valid ----------

  function TestState(b: nat, l: seq<int>, c: seq<int>, i: nat, r: Stack, alt: Stack): State
    requires 0 < i < |l| && |l| == |c|
  {
    Running(Cell(l[i], Cell(Bit(AtLeast(l, c, i)), Prepend(l[i + 1..], r))), Cell(Bit(Small(b, l, i)), alt))
  }

  lemma {:induction false} SmallStep(b: nat, l: seq<int>, i: nat)
    requires i < |l|
    ensures Small(b, l, i + 1) <==> Small(b, l, i) && 0 <= l[i] < b
  {
  }

  lemma {:induction false} TestTurnsRun(b: nat, l: seq<int>, c: seq<int>, i: nat, r: Stack, alt: Stack)
    requires 0 < i < |l| && |l| == |c| && b <= 0x4000_0000
    requires forall j :: 0 <= j < |c| ==> IsNum(c[j])
    requires forall j :: 0 <= j < |l| ==> IsNum(l[j])
    ensures Exec(TestTurns(b, c[i..]), TestState(b, l, c, i, r, alt)) ==
            Running(Cell(Bit(Small(b, l, |l|) && !AtLeast(l, c, |l|)), r), alt)
    decreases |l| - i
  {
    hide Exec;
    hide Prepend;
    hide Compare;
    hide Small;
    var x, n := l[i], |l|;
    var f, g := AtLeast(l, c, i), AtLeast(l, c, i + 1);
    var rest := Prepend(l[i + 1..], r);
    var close := if |c[i..]| == 1 then [Not, FromAlt, BoolAnd] else [Swap];
    assert c[i..][1..] == c[i + 1..];
    var st := TestState(b, l, c, i, r, alt);
    var range := [Dup, Num(0), Num(b), Within] + [FromAlt, BoolAnd, ToAlt];
    ExecAppend4(range, Compare(c[i]), close, TestTurns(b, c[i + 1..]), st);
    ExecAppend([Dup, Num(0), Num(b), Within], [FromAlt, BoolAnd, ToAlt], st);
    CompareFirst(x, b, 0, Cell(Bit(f), rest), st.alt);
    Closing(0 <= x < b, Small(b, l, i), 0, Cell(x, Cell(Bit(f), rest)), alt);
    SmallStep(b, l, i);
    var alt1 := Cell(Bit(Small(b, l, i + 1)), alt);
    CompareRun(x, c[i], f, rest, alt1);
    if i + 1 == n {
      assert l[i + 1..] == [] && c[i + 1..] == [];
      NoCells(r);
      Closing(g, Small(b, l, n), 0, r, alt);
      ExecEmpty(Running(Cell(Bit(Small(b, l, n) && !g), r), alt));
    } else {
      assert l[i + 1..][1..] == l[i + 2..] && l[i + 1..][0] == l[i + 1];
      FirstCell(l[i + 1..], r);
      Closing(g, true, l[i + 1], Prepend(l[i + 2..], r), alt1);
      TestTurnsRun(b, l, c, i + 1, r, alt);
    }
  }

  /** `is_valid` consumes the cells and leaves whether they spell a field element. */
  lemma {:induction false} IsElementExact(w: Width, p: nat, l: seq<int>, r: Stack, alt: Stack)
    requires Valid(w) && p < Capacity(w) && |l| == NLimbs(w) && forall j :: 0 <= j < |l| ==> IsNum(l[j])
    ensures Exec(IsElement(w, p), Running(Prepend(l, r), alt)) == Running(Cell(Bit(Spells(w, p, l)), r), alt)
  {
    hide Exec;
    hide Prepend;
    hide TestTurns;
    hide NLimbs;
    hide Digits;
    hide Spells;
    hide Small;
    var b := Base(w);
    BaseBounds(w);
    var c := Number(w, p);
    ModulusIsSmall(w, p);
    SpellsBySize(w, p, l);
    var x, rest := l[0], Prepend(l[1..], r);
    FirstCell(l, r);
    assert l[1..][1..] == l[2..];
    FirstCell(l[1..], r);
    var first := [Dup, Num(0), Num(b), Within] + [ToAlt, Num(c[0]), GreaterThanOrEqual, Swap];
    ExecAppend(first, TestTurns(b, c[1..]), Running(Prepend(l, r), alt));
    ExecAppend([Dup, Num(0), Num(b), Within], [ToAlt, Num(c[0]), GreaterThanOrEqual, Swap], Running(Prepend(l, r), alt));
    CompareFirst(x, b, 0, rest, alt);
    TestFirst(0 <= x < b, x, c[0], l[1], Prepend(l[2..], r), alt);
    SmallStep(b, l, 0);
    NothingSmall(b, l);
    TestTurnsRun(b, l, c, 1, r, alt);
  }

  lemma {:induction false} TestFirst(v: bool, x: int, c: int, z: int, r: Stack, alt: Stack)
    requires IsNum(x) && IsNum(c)
    ensures Exec([ToAlt, Num(c), GreaterThanOrEqual, Swap], Running(Cell(Bit(v), Cell(x, Cell(z, r))), alt)) ==
            Running(Cell(z, Cell(Bit(x >= c), r)), Cell(Bit(v), alt))
  {
    hide Exec;
    hide Step;
    StackRules();
    MoreStackRules();
    NumberRules();
    Exec4(ToAlt, Num(c), GreaterThanOrEqual, Swap, Running(Cell(Bit(v), Cell(x, Cell(z, r))), alt));
  }
}
