/** `var_windows_script` of `tmul` (bitvm/src/bn254/fq.rs): the next window of every second operand, cut off the limb under
    work, which waits on the alt stack between rounds. */
module TmulWindows {
  import opened Arithmetic
  import opened ScriptMachine
  import opened Limbs
  import opened BitConversion
  import opened SignedLimbs
  import opened TmulScript
  import T = TransformLimbs
  import M = Tmul

  // ---------- one bit ----------

  /** The first bit of a window: its double is the partial window. */
  function FirstTurn(p: nat): Script {
    [Num(p), Dup2, GreaterThanOrEqual, If([Sub, Num(2)], [Drop, Num(0)]), Swap]
  }

  /** Every other bit; `more` says whether another one follows. High bits and low bits are tested in different ways. */
  function BitTurn(at: nat, more: bool): Script {
    var twice := if more then Nmul(2) else [];
    if at > 7 then
      [Num(Pow2(at)), Dup2, GreaterThanOrEqual, If([Sub, Swap, Add1], [Drop, Swap])] + twice + [Swap]
    else
      [Tuck, Num(Pow2(at) - 1), GreaterThan, Tuck, Add] + twice + [Rot, Rot, If([Num(Pow2(at)), Sub], [])]
  }

  lemma {:induction false} FirstTurnRun(v: nat, p: nat, r: Stack, alt: Stack)
    requires v < 2 * p && p <= 0x4000_0000
    ensures Exec(FirstTurn(p), Running(Cell(v, r), alt)) == Running(Cell(Lo(v, p), Cell(2 * Up(v, p), r)), alt)
  {
    hide Exec;
    hide Step;
    hide Lo;
    hide Up;
    StackRules();
    MoreStackRules();
    NumberRules();
    OneDigit(v, p);
    var st := Running(Cell(v, r), alt);
    Exec5(Num(p), Dup2, GreaterThanOrEqual, If([Sub, Num(2)], [Drop, Num(0)]), Swap, st);
    var st2 := Running(Cell(p, Cell(v, r)), alt);
    Exec2(Sub, Num(2), st2);
    Exec2(Drop, Num(0), st2);
  }

  lemma {:induction false} HighTurnRun(v: nat, acc: nat, p: nat, twice: Script, r: Stack, alt: Stack)
    requires v < 2 * p && p <= 0x4000_0000 && acc < 0x4000_0000 && (twice == [] || twice == [Dup, Add])
    ensures Exec([Num(p), Dup2, GreaterThanOrEqual, If([Sub, Swap, Add1], [Drop, Swap])] + twice + [Swap],
                 Running(Cell(v, Cell(acc, r)), alt)) ==
            Running(Cell(Lo(v, p), Cell((if twice == [] then 1 else 2) * (acc + Up(v, p)), r)), alt)
  {
    hide Exec;
    hide Step;
    hide Lo;
    hide Up;
    StackRules();
    MoreStackRules();
    NumberRules();
    OneDigit(v, p);
    var st := Running(Cell(v, Cell(acc, r)), alt);
    ExecAppend3([Num(p), Dup2, GreaterThanOrEqual, If([Sub, Swap, Add1], [Drop, Swap])], twice, [Swap], st);
    Exec4(Num(p), Dup2, GreaterThanOrEqual, If([Sub, Swap, Add1], [Drop, Swap]), st);
    var st2 := Running(Cell(p, Cell(v, Cell(acc, r))), alt);
    Exec3(Sub, Swap, Add1, st2);
    Exec2(Drop, Swap, st2);
    var a := acc + Up(v, p);
    var st3 := Running(Cell(a, Cell(Lo(v, p), r)), alt);
    Exec0(st3);
    Exec2(Dup, Add, st3);
    Exec1(Swap, Running(Cell((if twice == [] then 1 else 2) * a, Cell(Lo(v, p), r)), alt));
  }

  lemma {:induction false} LowTurnRun(v: nat, acc: nat, p: nat, twice: Script, r: Stack, alt: Stack)
    requires v < 2 * p && 0 < p <= 0x4000_0000 && acc < 0x4000_0000 && (twice == [] || twice == [Dup, Add])
    ensures Exec([Tuck, Num(p - 1), GreaterThan, Tuck, Add] + twice + [Rot, Rot, If([Num(p), Sub], [])],
                 Running(Cell(v, Cell(acc, r)), alt)) ==
            Running(Cell(Lo(v, p), Cell((if twice == [] then 1 else 2) * (acc + Up(v, p)), r)), alt)
  {
    hide Exec;
    hide Step;
    hide Lo;
    hide Up;
    StackRules();
    MoreStackRules();
    NumberRules();
    OneDigit(v, p);
    var f := Up(v, p);
    var a := acc + f;
    var st := Running(Cell(v, Cell(acc, r)), alt);
    ExecAppend3([Tuck, Num(p - 1), GreaterThan, Tuck, Add], twice, [Rot, Rot, If([Num(p), Sub], [])], st);
    Exec5(Tuck, Num(p - 1), GreaterThan, Tuck, Add, st);
    var st2 := Running(Cell(a, Cell(f, Cell(v, r))), alt);
    assert f + acc == a;
    Exec0(st2);
    Exec2(Dup, Add, st2);
    T.RestoreRun(v, f, (if twice == [] then 1 else 2) * a, p, r, alt);
  }

  lemma {:induction false} BitTurnRun(v: nat, acc: nat, at: nat, more: bool, r: Stack, alt: Stack)
    requires at <= 29 && v < 2 * Pow2(at) && acc < 0x4000_0000
    ensures Exec(BitTurn(at, more), Running(Cell(v, Cell(acc, r)), alt)) ==
            Running(Cell(Lo(v, Pow2(at)), Cell((if more then 2 else 1) * (acc + Up(v, Pow2(at))), r)), alt)
  {
    hide Exec;
    hide Lo;
    hide Up;
    hide Nmul;
    hide Pow2;
    NmulTwo();
    PowerBound(at);
    var twice := if more then [Dup, Add] else [];
    if at > 7 { HighTurnRun(v, acc, Pow2(at), twice, r, alt); } else { LowTurnRun(v, acc, Pow2(at), twice, r, alt); }
  }

  // ---------- one window ----------

  /** The bits of a window from bit i on, the highest one at position `top`; `reach` is the depth of the lowest limb of the
      operand, which is needed where the window crosses into the limb below. */
  function Turns(width: nat, reach: nat, top: nat, i: nat): Script
    requires i <= width <= top + 1
    decreases width - i
  {
    if i == width then []
    else
      var high, low := top / LIMB_SIZE, (top + 1 - width) / LIMB_SIZE;
      (if high > low && i % LIMB_SIZE == top % LIMB_SIZE + 1 then [Num(reach + low + 1), Pick] else []) +
      (if i == 0 then FirstTurn(Pow2(top % LIMB_SIZE)) else BitTurn((top - i) % LIMB_SIZE, i + 1 < width)) +
      Turns(width, reach, top, i + 1)
  }

  /** The window with its highest bit at `top`, from the limb under work. When it ends at or crosses a limb boundary, all bits
      left of the limb under work belong to it. */
  function Cut(width: nat, reach: nat, top: nat): Script
    requires width <= top + 1
  {
    var high, low := top / LIMB_SIZE, (top + 1 - width) / LIMB_SIZE;
    if (top + 1 - width) % LIMB_SIZE == 0 || high > low then
      (if high > low then Nmul(2) else [Num(0)]) +
      (if top % LIMB_SIZE + 1 <= width then Turns(width, reach, top, top % LIMB_SIZE + 1) else [])
    else Turns(width, reach, top, 0)
  }

  /** The bits of limb l of y below position p. */
  function Rest(y: nat, l: nat, p: nat): nat
    requires l * LIMB_SIZE <= p
  {
    T.Field(y, l * LIMB_SIZE, p - l * LIMB_SIZE)
  }

  lemma {:induction false} SmallField(y: nat, lo: nat, len: nat)
    requires len <= 29
    ensures T.Field(y, lo, len) < 0x2000_0000
  {
    assert Pow2(10) == 1024;
    Pow2Add(10, 10);
    Pow2Add(20, 9);
    Pow2Mono(len, 29);
  }

  /** The remaining bits of a window once the limb that holds them is on top. */
  lemma {:induction false} TurnsRun(y: nat, l: nat, width: nat, reach: nat, top: nat, i: nat, r: Stack, alt: Stack)
    requires 0 < i < width <= 6 && width <= top + 1
    requires l == (top + 1 - width) / LIMB_SIZE && top - i < (l + 1) * LIMB_SIZE
    requires top / LIMB_SIZE > l ==> top % LIMB_SIZE + 1 <= i
    ensures Exec(BitTurn((top - i) % LIMB_SIZE, i + 1 < width) + Turns(width, reach, top, i + 1),
                 Running(Cell(Rest(y, l, top + 1 - i), Cell(2 * T.Field(y, top + 1 - i, i), r)), alt)) ==
            Running(Cell(Rest(y, l, top + 1 - width), Cell(T.Field(y, top + 1 - width, width), r)), alt)
    decreases width - i
  {
    hide Exec;
    hide Lo;
    hide Up;
    hide Pow2;
    hide BitTurn;
    hide FirstTurn;
    hide Turns;
    hide T.Field;
    var at := top - i - l * LIMB_SIZE;
    var v, acc := Rest(y, l, top + 1 - i), 2 * T.Field(y, top + 1 - i, i);
    var st := Running(Cell(v, Cell(acc, r)), alt);
    ExecAppend(BitTurn((top - i) % LIMB_SIZE, i + 1 < width), Turns(width, reach, top, i + 1), st);
    assert (top - i) % LIMB_SIZE == at;
    TurnValues(y, l, top, i);
    BitTurnRun(v, acc, at, i + 1 < width, r, alt);
    if i + 1 == width {
      NoTurnsLeft(width, reach, top);
      Exec0(Running(Cell(Rest(y, l, top + 1 - width), Cell(T.Field(y, top + 1 - width, width), r)), alt));
    } else {
      NextTurns(width, reach, top, i + 1);
      assert top + 1 - (i + 1) == top - i;
      TurnsRun(y, l, width, reach, top, i + 1, r, alt);
    }
  }

  lemma {:induction false} NoTurnsLeft(width: nat, reach: nat, top: nat)
    requires width <= top + 1
    ensures Turns(width, reach, top, width) == []
  {
  }

  /** No limb is fetched where the window does not cross into it. */
  lemma {:induction false} NextTurns(width: nat, reach: nat, top: nat, i: nat)
    requires 0 < i < width <= 6 && width <= top + 1
    requires top / LIMB_SIZE > (top + 1 - width) / LIMB_SIZE ==> top % LIMB_SIZE + 1 < i
    ensures Turns(width, reach, top, i) == BitTurn((top - i) % LIMB_SIZE, i + 1 < width) + Turns(width, reach, top, i + 1)
  {
    hide BitTurn;
    hide FirstTurn;
    hide Pow2;
    assert i % LIMB_SIZE == i;
    var turn, rest := BitTurn((top - i) % LIMB_SIZE, i + 1 < width), Turns(width, reach, top, i + 1);
    assert [] + turn + rest == turn + rest;
  }

  lemma {:induction false} TurnValues(y: nat, l: nat, top: nat, i: nat)
    requires 0 < i < 6 && i <= top && l * LIMB_SIZE <= top - i < (l + 1) * LIMB_SIZE
    ensures var at := top - i - l * LIMB_SIZE;
            var v, acc := Rest(y, l, top + 1 - i), 2 * T.Field(y, top + 1 - i, i);
            at <= 28 && v < 2 * Pow2(at) && acc < 0x4000_0000 &&
            Lo(v, Pow2(at)) == Rest(y, l, top - i) &&
            acc + Up(v, Pow2(at)) == T.Field(y, top - i, i + 1)
  {
    hide Lo;
    hide Up;
    var lo := l * LIMB_SIZE;
    var at := top - i - lo;
    assert Pow2(at + 1) == 2 * Pow2(at);
    T.FieldSplit(y, lo, at, 1);
    T.FieldSplit(y, top - i, 1, i);
    SmallField(y, top + 1 - i, i);
    assert Pow2(1) == 2;
  }

  // ---------- a window from the limb under work ----------

  /** The window lies in one limb and leaves bits of it. */
  lemma {:induction false} CutInside(y: nat, width: nat, reach: nat, top: nat, r: Stack, alt: Stack)
    requires 2 <= width <= 6 && width <= top + 1 && (top + 1 - width) % LIMB_SIZE != 0
    requires top / LIMB_SIZE == (top + 1 - width) / LIMB_SIZE
    ensures Exec(Cut(width, reach, top), Running(Cell(Rest(y, top / LIMB_SIZE, top + 1), r), alt)) ==
            Running(Cell(Rest(y, (top + 1 - width) / LIMB_SIZE, top + 1 - width), Cell(T.Field(y, top + 1 - width, width), r)), alt)
  {
    hide Exec;
    hide Lo;
    hide Up;
    hide BitTurn;
    hide FirstTurn;
    hide T.Field;
    var l := top / LIMB_SIZE;
    var at := top % LIMB_SIZE;
    var v := Rest(y, l, top + 1);
    var st := Running(Cell(v, r), alt);
    var rest := Turns(width, reach, top, 1);
    assert Pow2(at + 1) == 2 * Pow2(at);
    hide Pow2;
    assert Turns(width, reach, top, 0) == FirstTurn(Pow2(at)) + rest by {
      assert [] + FirstTurn(Pow2(at)) + rest == FirstTurn(Pow2(at)) + rest;
    }
    ExecAppend(FirstTurn(Pow2(at)), rest, st);
    FirstBit(y, l, top);
    FirstTurnRun(v, Pow2(at), r, alt);
    NextTurns(width, reach, top, 1);
    TurnsRun(y, l, width, reach, top, 1, r, alt);
  }

  lemma {:induction false} FirstBit(y: nat, l: nat, top: nat)
    requires l == top / LIMB_SIZE
    ensures var p, v := Pow2(top % LIMB_SIZE), Rest(y, l, top + 1);
            v < 2 * p && p <= 0x4000_0000 && Lo(v, p) == Rest(y, l, top) && Up(v, p) == T.Field(y, top, 1)
  {
    hide Lo;
    hide Up;
    var at := top % LIMB_SIZE;
    assert Pow2(at + 1) == 2 * Pow2(at);
    assert top == l * LIMB_SIZE + at;
    T.FieldSplit(y, l * LIMB_SIZE, at, 1);
    PowerBound(at);
  }

  /** The window is what is left of the limb. */
  lemma {:induction false} CutWhole(y: nat, width: nat, reach: nat, top: nat, r: Stack, alt: Stack)
    requires 2 <= width <= 6 && width <= top + 1 && (top + 1 - width) % LIMB_SIZE == 0
    ensures top / LIMB_SIZE == (top + 1 - width) / LIMB_SIZE
    ensures Exec(Cut(width, reach, top), Running(Cell(Rest(y, top / LIMB_SIZE, top + 1), r), alt)) ==
            Running(Cell(Rest(y, (top + 1 - width) / LIMB_SIZE, top + 1 - width), Cell(T.Field(y, top + 1 - width, width), r)), alt)
  {
    hide Exec;
    hide Step;
    hide T.Field;
    hide BitTurn;
    hide FirstTurn;
    StackRules();
    var low := top + 1 - width;
    var l := low / LIMB_SIZE;
    assert top == l * LIMB_SIZE + (width - 1);
    assert top / LIMB_SIZE == l && top % LIMB_SIZE == width - 1;
    var v := Rest(y, l, top + 1);
    NoBitsLeft(y, low);
    assert [Num(0)] + [] == [Num(0)];
    assert Cut(width, reach, top) == [Num(0)];
    Exec1(Num(0), Running(Cell(v, r), alt));
  }

  lemma {:induction false} NoBitsLeft(y: nat, lo: nat)
    ensures T.Field(y, lo, 0) == 0
  {
    assert Pow2(0) == 1;
  }

  /** The limb in which the window ends lies at that depth. */
  predicate Reaches(s: Stack, depth: nat, v: int) {
    depth < Depth(s) && depth < 0x7FFF_FFF0 && Item(s, depth) == v
  }

  lemma {:induction false} PickReached(s: Stack, x: int, depth: nat, v: int, alt: Stack)
    requires Reaches(s, depth, v)
    ensures Exec([Num(depth), Pick], Running(s, alt)) == Running(Cell(v, s), alt)
    ensures Exec([Num(depth + 1), Pick], Running(Cell(x, s), alt)) == Running(Cell(v, Cell(x, s)), alt)
  {
    hide Exec;
    Exec2(Num(depth), Pick, Running(s, alt));
    Exec2(Num(depth + 1), Pick, Running(Cell(x, s), alt));
  }

  /** The window takes what is left of the limb and goes on in the limb below. */
  lemma {:induction false} CutAcross(y: nat, width: nat, reach: nat, top: nat, s: Stack, alt: Stack)
    requires 2 <= width <= 6 && width <= top + 1
    requires top / LIMB_SIZE > (top + 1 - width) / LIMB_SIZE
    requires var low := (top + 1 - width) / LIMB_SIZE; Reaches(s, reach + low, T.Field(y, low * LIMB_SIZE, LIMB_SIZE))
    ensures Exec(Cut(width, reach, top), Running(Cell(Rest(y, top / LIMB_SIZE, top + 1), s), alt)) ==
            Running(Cell(Rest(y, (top + 1 - width) / LIMB_SIZE, top + 1 - width), Cell(T.Field(y, top + 1 - width, width), s)), alt)
  {
    hide Exec;
    hide Step;
    hide Depth;
    hide Item;
    hide Reaches;
    hide T.Field;
    hide BitTurn;
    hide FirstTurn;
    hide Nmul;
    hide Pow2;
    StackRules();
    NumberRules();
    NmulTwo();
    var l, t := (top + 1 - width) / LIMB_SIZE, top % LIMB_SIZE + 1;
    Crossing(width, top);
    var v := Rest(y, l + 1, top + 1);
    var st := Running(Cell(v, s), alt);
    var turns := BitTurn((top - t) % LIMB_SIZE, t + 1 < width) + Turns(width, reach, top, t + 1);
    assert t % LIMB_SIZE == t;
    assert Turns(width, reach, top, t) == [Num(reach + l + 1), Pick] + turns by {
      assert ([Num(reach + l + 1), Pick] + BitTurn((top - t) % LIMB_SIZE, t + 1 < width)) + Turns(width, reach, top, t + 1) ==
             [Num(reach + l + 1), Pick] + turns;
    }
    assert Cut(width, reach, top) == [Dup, Add] + ([Num(reach + l + 1), Pick] + turns);
    ExecAppend([Dup, Add], [Num(reach + l + 1), Pick] + turns, st);
    SmallField(y, (l + 1) * LIMB_SIZE, t);
    Exec2(Dup, Add, st);
    var st2 := Running(Cell(2 * v, s), alt);
    ExecAppend([Num(reach + l + 1), Pick], turns, st2);
    PickReached(s, 2 * v, reach + l, T.Field(y, l * LIMB_SIZE, LIMB_SIZE), alt);
    assert top + 1 - t == (l + 1) * LIMB_SIZE;
    TurnsRun(y, l, width, reach, top, t, s, alt);
  }

  lemma {:induction false} Crossing(width: nat, top: nat)
    requires 2 <= width <= 6 && width <= top + 1
    requires top / LIMB_SIZE > (top + 1 - width) / LIMB_SIZE
    ensures top / LIMB_SIZE == (top + 1 - width) / LIMB_SIZE + 1 && top % LIMB_SIZE + 1 < width
    ensures (top + 1 - width) % LIMB_SIZE != 0
  {
  }

  lemma {:induction false} CutRun(y: nat, width: nat, reach: nat, top: nat, s: Stack, alt: Stack)
    requires 2 <= width <= 6 && width <= top + 1
    requires var low := (top + 1 - width) / LIMB_SIZE; Reaches(s, reach + low, T.Field(y, low * LIMB_SIZE, LIMB_SIZE))
    ensures Exec(Cut(width, reach, top), Running(Cell(Rest(y, top / LIMB_SIZE, top + 1), s), alt)) ==
            Running(Cell(Rest(y, (top + 1 - width) / LIMB_SIZE, top + 1 - width), Cell(T.Field(y, top + 1 - width, width), s)), alt)
  {
    hide Exec;
    hide Cut;
    hide Reaches;
    hide T.Field;
    if (top + 1 - width) % LIMB_SIZE == 0 {
      CutWhole(y, width, reach, top, s, alt);
    } else if top / LIMB_SIZE > (top + 1 - width) / LIMB_SIZE {
      CutAcross(y, width, reach, top, s, alt);
    } else {
      CutInside(y, width, reach, top, s, alt);
    }
  }
}
