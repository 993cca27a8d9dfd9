/** The whole `tmul` script (bitvm/src/bn254/fq.rs): range checks, tables, main loop, final check. */
module TmulProgram {
  import opened Arithmetic
  import opened Wrappers
  import opened ScriptMachine
  import opened Limbs
  import opened NumberMoves
  import opened NumberChecks
  import opened LimbIo
  import opened UnsignedSub
  import opened Compare
  import opened TwosComplement
  import opened SignedAdd
  import opened FieldDiv
  import opened TmulTables
  import opened TmulScript
  import M = Tmul

  // ---------- operands on the two stacks ----------

  /** Numbers on the stack, vs[0] on top. */
  function Pile(w: Width, vs: seq<int>, r: Stack): Stack
    requires Valid(w)
  {
    if vs == [] then r else On(w, vs[0], Pile(w, vs[1..], r))
  }

  /** Numbers moved to the alt stack one after the other, vs[0] first. */
  function MoveAll(w: Width, vs: seq<int>, alt: Stack): Stack
    requires Valid(w)
  {
    if vs == [] then alt else MoveAll(w, vs[1..], PushAll(Number(w, vs[0]), alt))
  }

  /** Numbers on the alt stack, vs[0] the next to come back. */
  function AltPile(w: Width, vs: seq<int>, alt: Stack): Stack
    requires Valid(w)
  {
    if vs == [] then alt else PushAll(Number(w, vs[0]), AltPile(w, vs[1..], alt))
  }

  lemma {:induction false} MoveAllLast(w: Width, vs: seq<int>, v: int, alt: Stack)
    requires Valid(w)
    ensures MoveAll(w, vs + [v], alt) == PushAll(Number(w, v), MoveAll(w, vs, alt))
    decreases |vs|
  {
    hide PushAll;
    hide Number;
    if vs == [] {
      assert [] + [v] == [v] && [v][1..] == [];
      assert MoveAll(w, [v][1..], PushAll(Number(w, v), alt)) == PushAll(Number(w, v), alt);
    } else {
      assert (vs + [v])[1..] == vs[1..] + [v];
      MoveAllLast(w, vs[1..], v, PushAll(Number(w, vs[0]), alt));
    }
  }

  lemma {:induction false} MoveReversed(w: Width, vs: seq<int>, alt: Stack)
    requires Valid(w)
    ensures MoveAll(w, Reverse(vs), alt) == AltPile(w, vs, alt)
    decreases |vs|
  {
    if vs == [] {
      assert Reverse(vs) == [];
    } else {
      MoveReversed(w, vs[1..], alt);
      MoveAllLast(w, Reverse(vs[1..]), vs[0], alt);
    }
  }

  lemma {:induction false} AltPileAppend(w: Width, a: seq<int>, b: seq<int>, alt: Stack)
    requires Valid(w)
    ensures AltPile(w, a + b, alt) == AltPile(w, a, AltPile(w, b, alt))
    decreases |a|
  {
    if a == [] {
      assert a + b == b;
    } else {
      assert (a + b)[1..] == a[1..] + b;
      AltPileAppend(w, a[1..], b, alt);
    }
  }

  // ---------- range checks ----------

  /** `U < MODULUS`, then out of the way. */
  function RangeCheck(w: Width, p: nat): Script
    requires Valid(w)
  {
    CopyNum(w, 0) + PushNumber(w, p) + (LessThanNums(w, 1, 0) + [Verify]) + Repeat([ToAlt], NLimbs(w))
  }

  lemma {:induction false} BelowRun(w: Width, p: nat, v: nat, r: Stack, alt: Stack)
    requires Valid(w) && v < Capacity(w) && p < Capacity(w) && NLimbs(w) < 0x4000
    ensures Exec(LessThanNums(w, 1, 0) + [Verify], Running(On(w, p, On(w, v, r)), alt)) ==
            if v < p then Running(r, alt) else Failed
  {
    hide Exec;
    hide Step;
    hide LessThanNums;
    hide Prepend;
    hide NLimbs;
    hide Number;
    hide Capacity;
    LogicRules();
    var st := Running(On(w, p, On(w, v, r)), alt);
    PrependAppend(Number(w, p), Number(w, v), r);
    assert [] + Number(w, p) + [] + Number(w, v) == Number(w, p) + Number(w, v);
    var none: seq<int> := [];
    assert none + none == none;
    NoCells(r);
    LessThanCorrect(w, 1, 0, none, none, v, p, r, alt);
    ExecAppend(LessThanNums(w, 1, 0), [Verify], st);
    Exec1(Verify, Running(Cell(Bit(v < p), r), alt));
  }

  lemma {:induction false} RangeCheckRun(w: Width, p: nat, v: nat, r: Stack, alt: Stack)
    requires Valid(w) && v < Capacity(w) && p < Capacity(w) && NLimbs(w) < 0x4000
    ensures Exec(RangeCheck(w, p), Running(On(w, v, r), alt)) ==
            if v < p then Running(r, PushAll(Number(w, v), alt)) else Failed
  {
    hide Exec;
    hide LessThanNums;
    hide Prepend;
    hide PushAll;
    hide NLimbs;
    hide Number;
    hide Capacity;
    hide CopyNum;
    hide PushNumber;
    hide Repeat;
    var st := Running(On(w, v, r), alt);
    ExecAppend4(CopyNum(w, 0), PushNumber(w, p), LessThanNums(w, 1, 0) + [Verify], Repeat([ToAlt], NLimbs(w)), st);
    assert [] + Number(w, v) == Number(w, v) && Number(w, v) + [] + Number(w, v) == Number(w, v) + Number(w, v);
    CopyRun(w, 0, [], Number(w, v), r, alt);
    PrependAppend(Number(w, v), Number(w, v), r);
    PushNumberRun(w, p, On(w, v, On(w, v, r)), alt);
    BelowRun(w, p, v, On(w, v, r), alt);
    if v < p { ToAltAll(Number(w, v), r, alt); } else { ExecFailed(Repeat([ToAlt], NLimbs(w))); }
  }

  /** Proper numbers of that width. */
  ghost predicate AllNumbers(w: Width, vs: seq<int>) {
    forall i :: 0 <= i < |vs| ==> 0 <= vs[i] < Capacity(w)
  }

  ghost predicate AllBelow(p: nat, vs: seq<int>) {
    forall i :: 0 <= i < |vs| ==> vs[i] < p
  }

  lemma {:induction false} RangeChecksRun(w: Width, p: nat, vs: seq<int>, r: Stack, alt: Stack)
    requires Valid(w) && AllNumbers(w, vs) && p < Capacity(w) && NLimbs(w) < 0x4000
    ensures Exec(Repeat(RangeCheck(w, p), |vs|), Running(Pile(w, vs, r), alt)) ==
            if AllBelow(p, vs) then Running(r, MoveAll(w, vs, alt)) else Failed
    decreases |vs|
  {
    hide Exec;
    hide RangeCheck;
    hide On;
    hide PushAll;
    hide NLimbs;
    hide Number;
    hide Capacity;
    var st := Running(Pile(w, vs, r), alt);
    if vs == [] {
      Exec0(st);
    } else {
      var v, rest := vs[0], vs[1..];
      assert vs == [v] + rest;
      ExecRepeat(RangeCheck(w, p), |vs|, st);
      RangeCheckRun(w, p, v, Pile(w, rest, r), alt);
      if v < p {
        assert AllBelow(p, vs) <==> AllBelow(p, rest);
        RangeChecksRun(w, p, rest, r, PushAll(Number(w, v), alt));
      } else {
        ExecFailed(Repeat(RangeCheck(w, p), |vs| - 1));
      }
    }
  }

  // ---------- the quotient ----------

  /** Validity of the hint, its negation, and the table of that. */
  function QuotientTable(w: Width, width: nat): Script
    requires Valid(w)
  {
    (CopyNum(w, 0) + CheckValidity(w)) + Neg(w) + InitTable(w, width)
  }

  ghost predicate Spells(w: Width, l: seq<int>)
    requires Valid(w)
  {
    exists v: nat :: v < Capacity(w) && l == Number(w, v)
  }

  lemma {:induction false} HintCheckRun(w: Width, l: seq<int>, r: Stack, alt: Stack)
    requires Valid(w) && |l| == NLimbs(w) && NLimbs(w) < 0x4000
    ensures Exec(CopyNum(w, 0) + CheckValidity(w), Running(Prepend(l, r), alt)) ==
            if Spells(w, l) then Running(Prepend(l, r), alt) else Failed
  {
    hide Exec;
    hide Prepend;
    hide NLimbs;
    hide Number;
    hide Capacity;
    hide CopyNum;
    hide CheckValidity;
    ExecAppend(CopyNum(w, 0), CheckValidity(w), Running(Prepend(l, r), alt));
    assert [] + l == l && l + [] + l == l + l;
    CopyRun(w, 0, [], l, r, alt);
    PrependAppend(l, l, r);
    CheckValidityExact(w, l, Prepend(l, r), alt);
  }

  lemma {:induction false} NegationRun(w: Width, q: nat, r: Stack, alt: Stack)
    requires Valid(w) && q < Capacity(w)
    ensures Exec(Neg(w), Running(On(w, q, r), alt)) == Running(SignedOn(w, Signed(w.nBits, Negation(w.nBits, q)), r), alt)
    ensures Fits(w.nBits, Signed(w.nBits, Negation(w.nBits, q)))
  {
    hide Exec;
    hide On;
    hide Neg;
    var n := Negation(w.nBits, q);
    NegCorrect(w, q, r, alt);
    ReadingsInverse(w.nBits, n, 0);
    NegationMod(q, Pow2(w.nBits));
  }

  lemma {:induction false} NegationMod(q: nat, c: nat)
    requires q < c
    ensures (0 - q) % c == if q == 0 then 0 else c - q
  {
    if q > 0 { DivModUnique(0 - q, c, -1, c - q); } else { DivModUnique(0, c, 0, 0); }
  }

  /** A hint that spells no number is refused; otherwise the table of the negated hint is built, if it can be. */
  lemma {:induction false} QuotientTableRun(w: Width, width: nat, q: nat, r: Stack, alt: Stack)
    requires Valid(w) && q < Capacity(w) && width > 0 && NLimbs(w) < 0x4000 && Pow2(width) * NLimbs(w) < 0x7FFF_0000
    ensures Pow2(width) - 1 > 0
    ensures Exec(QuotientTable(w, width), Running(On(w, q, r), alt)) ==
            TableState(w, M.Table(w.nBits, Signed(w.nBits, Negation(w.nBits, q)), Pow2(width) - 1), r, alt)
  {
    hide Exec;
    hide Prepend;
    hide NLimbs;
    hide Number;
    hide Neg;
    hide InitTable;
    hide CopyNum;
    hide CheckValidity;
    hide Fits;
    hide Signed;
    hide Negation;
    ExecAppend3(CopyNum(w, 0) + CheckValidity(w), Neg(w), InitTable(w, width), Running(On(w, q, r), alt));
    HintCheckRun(w, Number(w, q), r, alt);
    assert Spells(w, Number(w, q));
    NegationRun(w, q, r, alt);
    InitTableRun(w, Signed(w.nBits, Negation(w.nBits, q)), width, r, alt);
  }

  lemma {:induction false} BadHintRun(w: Width, width: nat, l: seq<int>, r: Stack, alt: Stack)
    requires Valid(w) && |l| == NLimbs(w) && NLimbs(w) < 0x4000 && !Spells(w, l)
    ensures Exec(QuotientTable(w, width), Running(Prepend(l, r), alt)) == Failed
  {
    hide Exec;
    hide Prepend;
    hide NLimbs;
    hide Spells;
    hide Neg;
    hide InitTable;
    hide CopyNum;
    hide CheckValidity;
    ExecAppend3(CopyNum(w, 0) + CheckValidity(w), Neg(w), InitTable(w, width), Running(Prepend(l, r), alt));
    HintCheckRun(w, l, r, alt);
    ExecFailed(Neg(w));
    ExecFailed(InitTable(w, width));
  }

  // ---------- the operands ----------

  /** The next number from the alt stack, widened. */
  function Fetch(u: Width, w: Width): Script
    requires Valid(u) && Valid(w) && u.limb == w.limb
  {
    Repeat([FromAlt], NLimbs(u)) + Resize(u, w)
  }

  lemma {:induction false} FetchRun(u: Width, w: Width, v: nat, r: Stack, alt: Stack)
    requires Valid(u) && Valid(w) && u.limb == w.limb && v < Capacity(u) && u.nBits < w.nBits
    requires NLimbs(u) < 0x7FFF_FFFF && NLimbs(w) < 0x7FFF_FFFF
    ensures Exec(Fetch(u, w), Running(r, PushAll(Number(u, v), alt))) == Running(SignedOn(w, v, r), alt)
    ensures Fits(w.nBits, v)
  {
    hide Exec;
    hide PushAll;
    hide NLimbs;
    hide Number;
    hide Prepend;
    hide Repeat;
    hide Resize;
    Pow2Mono(u.nBits, w.nBits - 1);
    ExecAppend(Repeat([FromAlt], NLimbs(u)), Resize(u, w), Running(r, PushAll(Number(u, v), alt)));
    FromAltAll(Number(u, v), r, alt);
    ResizeCorrect(u, w, v, r, alt);
  }

  /** Fetches the first operands and builds their tables. */
  function OperandTables(u: Width, w: Width, width: nat, n: nat): Script
    requires Valid(u) && Valid(w) && u.limb == w.limb
  {
    Repeat(Fetch(u, w) + InitTable(w, width), n)
  }

  /** All tables, the first one deepest, or failure. */
  function TablesState(w: Width, t: Option<seq<seq<int>>>, r: Stack, alt: Stack): State
    requires Valid(w)
  {
    match t
    case None => Failed
    case Some(tables) => Running(Prepend(Blocks(w, TableBlocks(tables)), r), alt)
  }

  lemma {:induction false} OneMoreTable(w: Width, t: seq<int>, ts: seq<seq<int>>, r: Stack)
    requires Valid(w)
    ensures Prepend(Blocks(w, TableBlocks([t] + ts)), r) == Prepend(Blocks(w, TableBlocks(ts)), Prepend(Blocks(w, Reverse(t)), r))
  {
    hide Blocks;
    hide Prepend;
    hide Reverse;
    assert ([t] + ts)[1..] == ts;
    BlocksAppend(w, TableBlocks(ts), Reverse(t));
    PrependAppend(Blocks(w, TableBlocks(ts)), Blocks(w, Reverse(t)), r);
  }

  lemma {:induction false} OperandTablesRun(u: Width, w: Width, width: nat, xs: seq<nat>, r: Stack, alt: Stack)
    requires Valid(u) && Valid(w) && u.limb == w.limb && u.nBits < w.nBits && AllNumbers(u, xs)
    requires NLimbs(u) < 0x4000 && NLimbs(w) < 0x4000 && width > 0 && Pow2(width) * NLimbs(w) < 0x7FFF_0000
    ensures Pow2(width) - 1 > 0
    ensures Exec(OperandTables(u, w, width, |xs|), Running(r, AltPile(u, xs, alt))) ==
            TablesState(w, M.Tables(w.nBits, xs, Pow2(width) - 1), r, alt)
    decreases |xs|
  {
    hide Exec;
    hide PushAll;
    hide NLimbs;
    hide Number;
    hide Prepend;
    hide Blocks;
    hide Fetch;
    hide InitTable;
    hide Reverse;
    hide M.Table;
    Pow2Mono(1, width);
    assert Pow2(1) == 2;
    hide Pow2;
    var body := Fetch(u, w) + InitTable(w, width);
    var n := Pow2(width) - 1;
    var st := Running(r, AltPile(u, xs, alt));
    if xs == [] {
      Exec0(st);
      NoTables(w, r);
    } else {
      var x, rest := xs[0], xs[1..];
      assert AllNumbers(u, rest) by { forall i | 0 <= i < |rest| ensures 0 <= rest[i] < Capacity(u) { assert rest[i] == xs[i + 1]; } }
      var alt1 := AltPile(u, rest, alt);
      ExecRepeat(body, |xs|, st);
      ExecAppend(Fetch(u, w), InitTable(w, width), st);
      FetchRun(u, w, x, r, alt1);
      InitTableRun(w, x, width, r, alt1);
      match M.Table(w.nBits, x, n)
      case None => ExecFailed(OperandTables(u, w, width, |rest|));
      case Some(t) =>
        OperandTablesRun(u, w, width, rest, Prepend(Blocks(w, Reverse(t)), r), alt);
        match M.Tables(w.nBits, rest, n)
        case None =>
        case Some(ts) => OneMoreTable(w, t, ts, r);
    }
  }

  lemma {:induction false} NoTables(w: Width, r: Stack)
    requires Valid(w)
    ensures Prepend(Blocks(w, TableBlocks([])), r) == r && Prepend(Blocks(w, Reverse([])), r) == r
  {
  }

  lemma {:induction false} OperandsRun(u: Width, w: Width, ys: seq<nat>, r: Stack, alt: Stack)
    requires Valid(u) && Valid(w) && u.limb == w.limb && u.nBits < w.nBits && AllNumbers(u, ys)
    requires NLimbs(u) < 0x4000 && NLimbs(w) < 0x4000
    ensures Exec(Repeat(Fetch(u, w), |ys|), Running(r, AltPile(u, ys, alt))) == Running(Prepend(Blocks(w, Reverse(ys)), r), alt)
    decreases |ys|
  {
    hide Exec;
    hide PushAll;
    hide NLimbs;
    hide Number;
    hide Prepend;
    hide Blocks;
    hide Fetch;
    var st := Running(r, AltPile(u, ys, alt));
    if ys == [] {
      Exec0(st);
      NoTables(w, r);
    } else {
      var y, rest := ys[0], ys[1..];
      assert AllNumbers(u, rest) by { forall i | 0 <= i < |rest| ensures 0 <= rest[i] < Capacity(u) { assert rest[i] == ys[i + 1]; } }
      ExecRepeat(Fetch(u, w), |ys|, st);
      FetchRun(u, w, y, r, AltPile(u, rest, alt));
      OperandsRun(u, w, rest, SignedOn(w, y, r), alt);
      OneMoreNumber(w, y, Reverse(rest), r);
    }
  }

  lemma {:induction false} OneMoreNumber(w: Width, y: int, vs: seq<int>, r: Stack)
    requires Valid(w)
    ensures Prepend(Blocks(w, vs + [y]), r) == Prepend(Blocks(w, vs), SignedOn(w, y, r))
  {
    hide Prepend;
    hide Number;
    BlocksAppend(w, vs, [y]);
    assert [y][1..] == [] && Blocks(w, [y]) == SignedNumber(w, y) + Blocks(w, []);
    assert Blocks(w, [y]) == SignedNumber(w, y);
    PrependAppend(Blocks(w, vs), SignedNumber(w, y), r);
  }
}
