/** The `tmul` script (bitvm/src/bn254/fq.rs) from start to end, and what it accepts. */
module TmulExact {
  import opened Arithmetic
  import opened Wrappers
  import opened ScriptMachine
  import opened Limbs
  import opened NumberMoves
  import opened NumberChecks
  import opened LimbIo
  import opened Compare
  import opened TwosComplement
  import opened SignedAdd
  import opened FieldDiv
  import opened TmulTables
  import opened TmulScript
  import opened TmulRounds
  import opened TmulProgram
  import opened TmulExtract
  import M = Tmul

  // ---------- cleaning up ----------

  lemma {:induction false} RepeatAdd(p: Script, a: nat, b: nat)
    ensures Repeat(p, a) + Repeat(p, b) == Repeat(p, a + b)
    decreases a
  {
    if a == 0 {
      assert Repeat(p, 0) + Repeat(p, b) == Repeat(p, b);
    } else {
      RepeatAdd(p, a - 1, b);
      assert Repeat(p, a) + Repeat(p, b) == p + (Repeat(p, a - 1) + Repeat(p, b));
    }
  }

  lemma {:induction false} RepeatRepeat(p: Script, a: nat, n: nat)
    ensures n * a >= 0 && Repeat(Repeat(p, a), n) == Repeat(p, n * a)
    decreases n
  {
    MulNonNeg(n, a);
    if n > 0 {
      RepeatRepeat(p, a, n - 1);
      SplitProduct(n, a);
      RepeatAdd(p, a, (n - 1) * a);
    }
  }

  /** `drop_table`. */
  function DropTable(w: Width, size: nat): Script
    requires Valid(w)
  {
    Repeat(DropNum(w), size)
  }

  function CleanUp(w: Width, nLc: nat, size: nat): Script
    requires Valid(w)
  {
    Repeat(DropNum(w), nLc) + Repeat(DropTable(w, size), nLc) + DropTable(w, size)
  }

  lemma {:induction false} DropBlocks(w: Width, vs: seq<int>, r: Stack, alt: Stack)
    requires Valid(w)
    ensures Exec(Repeat(DropNum(w), |vs|), Running(Prepend(Blocks(w, vs), r), alt)) == Running(r, alt)
    decreases |vs|
  {
    hide Exec;
    hide DropNum;
    hide SignedNumber;
    hide NLimbs;
    var st := Running(Prepend(Blocks(w, vs), r), alt);
    if vs == [] {
      Exec0(st);
    } else {
      ExecRepeat(DropNum(w), |vs|, st);
      var x, rest := SignedNumber(w, vs[0]), Blocks(w, vs[1..]);
      PrependAppend(x, rest, r);
      DropRun(w, x, Prepend(rest, r), alt);
      DropBlocks(w, vs[1..], r, alt);
    }
  }

  lemma {:induction false} CleanUpRun(w: Width, nLc: nat, size: nat, vs: seq<int>, r: Stack, alt: Stack)
    requires Valid(w) && |vs| == nLc + (nLc + 1) * size
    ensures Exec(CleanUp(w, nLc, size), Running(Prepend(Blocks(w, vs), r), alt)) == Running(r, alt)
  {
    hide Exec;
    hide DropNum;
    hide Blocks;
    hide Repeat;
    RepeatRepeat(DropNum(w), size, nLc);
    RepeatAdd(DropNum(w), nLc, nLc * size);
    RepeatAdd(DropNum(w), nLc + nLc * size, size);
    SplitProduct(nLc + 1, size);
    DropBlocks(w, vs, r, alt);
  }

  // ---------- the final check ----------

  /** `assert(r < p)`, then the result in the width of the operands. */
  function FinalCheck(u: Width, w: Width, p: nat): Script
    requires Valid(u) && Valid(w) && u.limb == w.limb
  {
    PushNumber(w, p) + Repeat([FromAlt], NLimbs(w)) + (CopyNum(w, 0) + LessThanNums(w, 0, 2) + [Verify]) + Resize(w, u)
  }

  lemma {:induction false} ReducedRun(w: Width, p: nat, v: nat, r: Stack, alt: Stack)
    requires Valid(w) && v < Capacity(w) && p < Capacity(w) && NLimbs(w) < 0x4000
    ensures Exec(CopyNum(w, 0) + LessThanNums(w, 0, 2) + [Verify], Running(On(w, v, On(w, p, r)), alt)) ==
            if v < p then Running(On(w, v, r), alt) else Failed
  {
    hide Exec;
    hide Step;
    hide LessThanNums;
    hide CopyNum;
    hide Prepend;
    hide NLimbs;
    hide Number;
    hide Capacity;
    LogicRules();
    var x, y := Number(w, v), Number(w, p);
    var none: seq<int> := [];
    var st := Running(On(w, v, On(w, p, r)), alt);
    ExecAppend3(CopyNum(w, 0), LessThanNums(w, 0, 2), [Verify], st);
    assert none + x == x && x + none + x == x + x;
    CopyRun(w, 0, none, x, On(w, p, r), alt);
    PrependAppend(x, x, On(w, p, r));
    PrependAppend(x + x, y, r);
    PrependAppend(x, x, Prepend(y, r));
    assert none + x + x + y == x + x + y;
    LessThanCorrect(w, 0, 2, none, x, v, p, r, alt);
    Exec1(Verify, Running(Cell(Bit(v < p), Prepend(x, r)), alt));
  }

  lemma {:induction false} FinalCheckRun(u: Width, w: Width, p: nat, v: nat, r: Stack, alt: Stack)
    requires Valid(u) && Valid(w) && u.limb == w.limb && v < Capacity(w) && p < Capacity(w) && p <= Capacity(u)
    requires NLimbs(u) < 0x4000 && NLimbs(w) < 0x4000
    ensures Exec(FinalCheck(u, w, p), Running(r, PushAll(Number(w, v), alt))) ==
            if v < p then Running(On(u, v, r), alt) else Failed
  {
    hide Exec;
    hide LessThanNums;
    hide CopyNum;
    hide PushNumber;
    hide Prepend;
    hide PushAll;
    hide NLimbs;
    hide Number;
    hide Capacity;
    hide Repeat;
    hide Resize;
    var alt1 := PushAll(Number(w, v), alt);
    ExecAppend4(PushNumber(w, p), Repeat([FromAlt], NLimbs(w)), CopyNum(w, 0) + LessThanNums(w, 0, 2) + [Verify], Resize(w, u),
                Running(r, alt1));
    PushNumberRun(w, p, r, alt1);
    FromAltAll(Number(w, v), On(w, p, r), alt);
    ReducedRun(w, p, v, r, alt);
    if v < p { ResizeCorrect(w, u, v, r, alt); } else { ExecFailed(Resize(w, u)); }
  }

  // ---------- the program ----------

  /** Range checks and all tables, with the second operands and a zero on top. */
  function Prologue(c: M.Config): Script
    requires Setup(c)
  {
    var u, w := OperandWidth(c), AccWidth(c);
    Repeat(RangeCheck(u, c.p), 2 * c.nLc) + QuotientTable(w, c.width) + OperandTables(u, w, c.width, c.nLc) +
    Repeat(Fetch(u, w), c.nLc) + PushCopies(0, NLimbs(w))
  }

  function Epilogue(c: M.Config): Script
    requires Setup(c)
  {
    var u, w := OperandWidth(c), AccWidth(c);
    Repeat([ToAlt], NLimbs(w)) + CleanUp(w, c.nLc, TableSize(c)) + FinalCheck(u, w, c.p)
  }

  /** `tmul`. */
  function TMulScript(c: M.Config, windows: nat -> Script): Script
    requires Setup(c)
  {
    Prologue(c) + LoopScript(c, 0, windows) + Epilogue(c)
  }

  /** The hint deepest, then the first and the second operands. */
  function Operands(c: M.Config, xs: seq<nat>, ys: seq<nat>, hint: seq<int>, r: Stack): Stack
    requires Setup(c)
  {
    Pile(OperandWidth(c), Reverse(xs + ys), Prepend(hint, r))
  }

  /** The sizes the program needs. */
  ghost predicate Fitting(c: M.Config, xs: seq<nat>, ys: seq<nat>)
    requires Setup(c)
  {
    |xs| == |ys| == c.nLc && AllNumbers(OperandWidth(c), xs) && AllNumbers(OperandWidth(c), ys) && c.width < 0x7FFF_FF00
  }

  lemma {:induction false} Sizes(c: M.Config)
    requires Setup(c)
    ensures Valid(OperandWidth(c)) && Valid(AccWidth(c)) && OperandWidth(c).limb == AccWidth(c).limb
    ensures OperandWidth(c).nBits < AccWidth(c).nBits && NLimbs(AccWidth(c)) < 0x4000 && NLimbs(OperandWidth(c)) < 0x4000
    ensures Pow2(c.width) * NLimbs(AccWidth(c)) < 0x7FFF_0000 && Pow2(c.width) - 1 > 0
    ensures c.p < Capacity(OperandWidth(c)) && c.p < Capacity(AccWidth(c)) && c.p <= Pow2(AccWidth(c).nBits - 1)
  {
    var u, w := OperandWidth(c), AccWidth(c);
    FewerLimbs(u, w);
    Pow2Mono(c.nBits, w.nBits - 1);
    Pow2Mono(1, c.width);
    assert Pow2(1) == 2;
    var size := TableSize(c);
    hide Pow2;
    hide NLimbs;
    assert BlockCount(c) + 4 >= Pow2(c.width) by { MulMono(1, c.nLc + 1, size); }
    MulMono(Pow2(c.width), BlockCount(c) + 4, NLimbs(w));
  }

  lemma {:induction false} CapacityIsPow2(w: Width)
    ensures Capacity(w) == Pow2(w.nBits)
  {
  }

  lemma {:induction false} FewerLimbs(u: Width, w: Width)
    requires Shaped(u) && Shaped(w) && u.limb == w.limb && u.nBits <= w.nBits
    ensures NLimbs(u) <= NLimbs(w)
  {
    if NLimbs(w) < NLimbs(u) { MulMono(NLimbs(w), NLimbs(u) - 1, u.limb); }
  }

  lemma {:induction false} RangeReversed(u: Width, p: nat, l: seq<int>)
    ensures AllBelow(p, Reverse(l)) <==> AllBelow(p, l)
    ensures AllNumbers(u, l) ==> AllNumbers(u, Reverse(l))
  {
    hide Reverse;
    var n, rev := |l|, Reverse(l);
    forall i | 0 <= i < n ensures rev[i] == l[n - 1 - i] && l[i] == rev[n - 1 - i] {
      ReverseAt(l, i);
      ReverseAt(l, n - 1 - i);
    }
    if AllBelow(p, rev) { forall i | 0 <= i < n ensures l[i] < p { assert rev[n - 1 - i] < p; } }
    if AllBelow(p, l) { forall i | 0 <= i < n ensures rev[i] < p { assert l[n - 1 - i] < p; } }
    if AllNumbers(u, l) {
      forall i | 0 <= i < n ensures 0 <= rev[i] < Capacity(u) { assert 0 <= l[n - 1 - i] < Capacity(u); }
    }
  }

  lemma {:induction false} OperandsInRange(c: M.Config, xs: seq<nat>, ys: seq<nat>)
    requires Setup(c) && Fitting(c, xs, ys)
    ensures AllNumbers(OperandWidth(c), Reverse(xs + ys))
    ensures AllBelow(c.p, Reverse(xs + ys)) <==> M.InRange(c, xs, ys)
  {
    hide Capacity;
    RangeReversed(OperandWidth(c), c.p, xs + ys);
    if AllBelow(c.p, xs + ys) {
      forall j | 0 <= j < |xs| ensures xs[j] < c.p && ys[j] < c.p {
        assert (xs + ys)[j] == xs[j] && (xs + ys)[|xs| + j] == ys[j];
      }
    }
  }

  // ---------- the prologue ----------

  /** All numbers in place below a zero accumulator, or failure. */
  function StartState(c: M.Config, ys: seq<nat>, qTable: Option<seq<int>>, tables: Option<seq<seq<int>>>, r: Stack, alt: Stack): State
    requires Setup(c)
  {
    match (qTable, tables)
    case (Some(q), Some(ts)) => Running(SignedOn(AccWidth(c), 0, Prepend(Blocks(AccWidth(c), Layout(ys, ts, q)), r)), alt)
    case _ => Failed
  }

  lemma {:induction false} ChecksRun(c: M.Config, xs: seq<nat>, ys: seq<nat>, hint: seq<int>, r: Stack, alt: Stack)
    requires Setup(c) && Fitting(c, xs, ys)
    ensures Exec(Repeat(RangeCheck(OperandWidth(c), c.p), 2 * c.nLc), Running(Operands(c, xs, ys, hint, r), alt)) ==
            if M.InRange(c, xs, ys)
            then Running(Prepend(hint, r), AltPile(OperandWidth(c), xs, AltPile(OperandWidth(c), ys, alt)))
            else Failed
  {
    hide Exec;
    hide Repeat;
    hide NLimbs;
    hide Capacity;
    hide RangeCheck;
    hide Prepend;
    hide Pile;
    hide MoveAll;
    hide AltPile;
    Sizes(c);
    var u := OperandWidth(c);
    OperandsInRange(c, xs, ys);
    RangeChecksRun(u, c.p, Reverse(xs + ys), Prepend(hint, r), alt);
    MoveReversed(u, xs + ys, alt);
    AltPileAppend(u, xs, ys, alt);
  }

  lemma {:induction false} LayoutOn(w: Width, ys: seq<int>, ts: seq<seq<int>>, q: seq<int>, r: Stack)
    requires Valid(w)
    ensures Prepend(Blocks(w, Layout(ys, ts, q)), r) ==
            Prepend(Blocks(w, Reverse(ys)), Prepend(Blocks(w, TableBlocks(ts)), Prepend(Blocks(w, Reverse(q)), r)))
  {
    hide Prepend;
    hide Blocks;
    hide Reverse;
    hide TableBlocks;
    BlocksAppend(w, Reverse(ys) + TableBlocks(ts), Reverse(q));
    BlocksAppend(w, Reverse(ys), TableBlocks(ts));
    PrependAppend(Blocks(w, Reverse(ys)) + Blocks(w, TableBlocks(ts)), Blocks(w, Reverse(q)), r);
    PrependAppend(Blocks(w, Reverse(ys)), Blocks(w, TableBlocks(ts)), Prepend(Blocks(w, Reverse(q)), r));
  }

  lemma {:induction false} PrologueRun(c: M.Config, xs: seq<nat>, ys: seq<nat>, q: nat, r: Stack, alt: Stack)
    requires Setup(c) && Fitting(c, xs, ys) && q < Capacity(AccWidth(c))
    ensures Pow2(c.width) - 1 > 0
    ensures var w, n := AccWidth(c), Pow2(c.width) - 1;
            Exec(Prologue(c), Running(Operands(c, xs, ys, Number(w, q), r), alt)) ==
            if M.InRange(c, xs, ys)
            then StartState(c, ys, M.Table(w.nBits, Signed(w.nBits, Negation(w.nBits, q)), n), M.Tables(w.nBits, xs, n), r, alt)
            else Failed
  {
    hide Exec;
    hide Repeat;
    hide NLimbs;
    hide Capacity;
    hide Number;
    hide RangeCheck;
    hide QuotientTable;
    hide OperandTables;
    hide Fetch;
    hide PushCopies;
    hide Prepend;
    hide Pile;
    hide AltPile;
    hide Blocks;
    hide Layout;
    hide TableBlocks;
    hide Reverse;
    hide Signed;
    hide Negation;
    hide M.InRange;
    hide M.Table;
    hide M.Tables;
    Sizes(c);
    var u, w, n := OperandWidth(c), AccWidth(c), Pow2(c.width) - 1;
    CapacityIsPow2(w);
    hide Pow2;
    var alt1 := AltPile(u, ys, alt);
    ExecAppend5(Repeat(RangeCheck(u, c.p), 2 * c.nLc), QuotientTable(w, c.width), OperandTables(u, w, c.width, c.nLc),
                Repeat(Fetch(u, w), c.nLc), PushCopies(0, NLimbs(w)), Running(Operands(c, xs, ys, Number(w, q), r), alt));
    ChecksRun(c, xs, ys, Number(w, q), r, alt);
    ExecFailed(QuotientTable(w, c.width));
    ExecFailed(OperandTables(u, w, c.width, c.nLc));
    ExecFailed(Repeat(Fetch(u, w), c.nLc));
    ExecFailed(PushCopies(0, NLimbs(w)));
    if M.InRange(c, xs, ys) {
      QuotientTableRun(w, c.width, q, r, AltPile(u, xs, alt1));
      match M.Table(w.nBits, Signed(w.nBits, Negation(w.nBits, q)), n)
      case None =>
      case Some(qTable) =>
        var r1 := Prepend(Blocks(w, Reverse(qTable)), r);
        OperandTablesRun(u, w, c.width, xs, r1, alt1);
        match M.Tables(w.nBits, xs, n)
        case None =>
        case Some(ts) =>
          var r2 := Prepend(Blocks(w, TableBlocks(ts)), r1);
          OperandsRun(u, w, ys, r2, alt);
          LayoutOn(w, ys, ts, qTable, r);
          PushZeroRun(w, Prepend(Blocks(w, Reverse(ys)), r2), alt);
    }
  }

  // ---------- what the loop needs ----------

  lemma {:induction false} NothingFits(bits: nat)
    requires bits > 0
    ensures AllFit(bits, [])
  {
  }

  lemma {:induction false} ZeroFits(bits: nat)
    requires bits > 0
    ensures Fits(bits, 0)
  {
  }

  lemma {:induction false} FitsAppend(bits: nat, a: seq<int>, b: seq<int>)
    requires bits > 0 && AllFit(bits, a) && AllFit(bits, b)
    ensures AllFit(bits, a + b)
  {
  }

  lemma {:induction false} TableBlocksFit(bits: nat, ts: seq<seq<int>>)
    requires bits > 0 && forall j :: 0 <= j < |ts| ==> AllFit(bits, ts[j])
    ensures AllFit(bits, TableBlocks(ts))
    decreases |ts|
  {
    hide AllFit;
    if ts == [] {
      NothingFits(bits);
    } else {
      forall j | 0 <= j < |ts[1..]| ensures AllFit(bits, ts[1..][j]) { assert ts[1..][j] == ts[j + 1]; }
      TableBlocksFit(bits, ts[1..]);
      ReverseFits(bits, ts[0]);
      FitsAppend(bits, TableBlocks(ts[1..]), Reverse(ts[0]));
    }
  }

  lemma {:induction false} AllTablesFit(bits: nat, xs: seq<nat>, n: nat)
    requires bits > 0 && n > 0 && (forall j :: 0 <= j < |xs| ==> Fits(bits, xs[j])) && M.Tables(bits, xs, n).Some?
    ensures forall j :: 0 <= j < |xs| ==> AllFit(bits, M.Tables(bits, xs, n).value[j])
    decreases |xs|
  {
    hide AllFit;
    hide Fits;
    hide M.Table;
    if xs != [] {
      EntriesFit(bits, xs[0], n);
      forall j | 0 <= j < |xs[1..]| ensures Fits(bits, xs[1..][j]) { assert xs[1..][j] == xs[j + 1]; }
      AllTablesFit(bits, xs[1..], n);
    }
  }

  lemma {:induction false} InputsReady(c: M.Config, xs: seq<nat>, ys: seq<nat>, s: int, i: Inputs)
    requires Setup(c) && Fitting(c, xs, ys) && M.InRange(c, xs, ys) && Fits(M.TBits(c), s) && Pow2(c.width) - 1 > 0
    requires i.ys == ys && M.Tables(M.TBits(c), xs, Pow2(c.width) - 1) == Some(i.tables)
    requires M.Table(M.TBits(c), s, Pow2(c.width) - 1) == Some(i.qTable)
    ensures Ready(c, i)
  {
    var bits, n := M.TBits(c), Pow2(c.width) - 1;
    forall j | 0 <= j < |xs| ensures Fits(bits, xs[j]) && Fits(bits, ys[j]) {
      M.OperandFits(c, xs[j]);
      M.OperandFits(c, ys[j]);
    }
    hide Fits;
    hide M.TBits;
    hide M.Table;
    hide M.Tables;
    hide Pow2;
    hide Reverse;
    EntriesFit(bits, s, n);
    AllTablesFit(bits, xs, n);
    TableBlocksFit(bits, i.tables);
    ReverseFits(bits, i.qTable);
    ReverseFits(bits, ys);
    FitsAppend(bits, Reverse(ys), TableBlocks(i.tables));
    FitsAppend(bits, Reverse(ys) + TableBlocks(i.tables), Reverse(i.qTable));
  }

  // ---------- the epilogue ----------

  lemma {:induction false} EpilogueRun(c: M.Config, z: int, i: Inputs, r: Stack, alt: Stack)
    requires Setup(c) && Ready(c, i) && Fits(M.TBits(c), z)
    ensures var u, w := OperandWidth(c), AccWidth(c);
            Exec(Epilogue(c), Running(SignedOn(w, z, Prepend(Blocks(w, Below(i)), r)), alt)) ==
            if Unsigned(w.nBits, z) < c.p then Running(On(u, z, r), alt) else Failed
  {
    hide Exec;
    hide Repeat;
    hide Capacity;
    hide Number;
    hide Prepend;
    hide PushAll;
    hide Blocks;
    hide CleanUp;
    hide FinalCheck;
    hide Reverse;
    hide TableBlocks;
    Sizes(c);
    var u, w := OperandWidth(c), AccWidth(c);
    ReadingsInverse(w.nBits, 0, z);
    BelowLength(c, i);
    CapacityIsPow2(w);
    hide NLimbs;
    hide Pow2;
    var v := Unsigned(w.nBits, z);
    var s := Prepend(Blocks(w, Below(i)), r);
    ExecAppend3(Repeat([ToAlt], NLimbs(w)), CleanUp(w, c.nLc, TableSize(c)), FinalCheck(u, w, c.p), Running(SignedOn(w, z, s), alt));
    ToAltAll(Number(w, v), s, alt);
    CleanUpRun(w, c.nLc, TableSize(c), Below(i), r, PushAll(Number(w, v), alt));
    FinalCheckRun(u, w, c.p, v, r, alt);
  }

  lemma {:induction false} BelowLength(c: M.Config, i: Inputs)
    requires Setup(c) && Ready(c, i)
    ensures |Below(i)| == c.nLc + (c.nLc + 1) * TableSize(c)
  {
    TableBlocksLength(i.tables, TableSize(c));
    SplitProduct(c.nLc + 1, TableSize(c));
  }

  // ---------- the whole script ----------

  /** The result in the width of the operands, or failure. */
  function Outcome(c: M.Config, v: Option<int>, r: Stack, alt: Stack): State
    requires Setup(c)
  {
    match v
    case None => Failed
    case Some(z) => Running(On(OperandWidth(c), z, r), alt)
  }

  /** The script computes the integer-level multiplication, and fails exactly when that does. */
  lemma {:induction false} ScriptRefines(c: M.Config, windows: nat -> Script, held: nat -> seq<int>, xs: seq<nat>, ys: seq<nat>,
                                         q: nat, r: Stack, alt: Stack)
    requires Setup(c) && Fitting(c, xs, ys) && Extracts(c, windows, held, ys) && q < Capacity(AccWidth(c))
    ensures Exec(TMulScript(c, windows), Running(Operands(c, xs, ys, Number(AccWidth(c), q), r), alt)) ==
            Outcome(c, M.TMul(c, xs, ys, q), r, alt)
  {
    hide Exec;
    hide NLimbs;
    hide Number;
    hide Prologue;
    hide LoopScript;
    hide Epilogue;
    hide Operands;
    hide M.Table;
    hide M.Tables;
    hide M.MainLoop;
    hide M.TBits;
    hide Fits;
    hide Layout;
    hide Blocks;
    hide SignedOn;
    hide AllFit;
    AccWidthIsValid(c);
    var w, n := AccWidth(c), Pow2(c.width) - 1;
    var s := Signed(w.nBits, Negation(w.nBits, q));
    SignedFits(w.nBits, Negation(w.nBits, q));
    ExecAppend3(Prologue(c), LoopScript(c, 0, windows), Epilogue(c), Running(Operands(c, xs, ys, Number(w, q), r), alt));
    PrologueRun(c, xs, ys, q, r, alt);
    hide Pow2;
    ExecFailed(LoopScript(c, 0, windows));
    ExecFailed(Epilogue(c));
    if M.InRange(c, xs, ys) {
      match (M.Table(w.nBits, s, n), M.Tables(w.nBits, xs, n))
      case (Some(qTable), Some(tables)) =>
        var i := Inputs(ys, tables, qTable);
        InputsReady(c, xs, ys, s, i);
        ZeroFits(M.TBits(c));
        LoopRun(c, 0, windows, held, 0, i, r, alt);
        var z := M.MainLoop(c, 0, 0, tables, qTable, ys);
        if z.Some? { EpilogueRun(c, z.value, i, r, alt); }
      case _ =>
    }
  }

  /** A hint that spells no number of the accumulator's width is refused. */
  lemma {:induction false} BadHintFails(c: M.Config, windows: nat -> Script, xs: seq<nat>, ys: seq<nat>, hint: seq<int>,
                                        r: Stack, alt: Stack)
    requires Setup(c) && Fitting(c, xs, ys) && |hint| == NLimbs(AccWidth(c)) && !Spells(AccWidth(c), hint)
    ensures Exec(TMulScript(c, windows), Running(Operands(c, xs, ys, hint, r), alt)) == Failed
  {
    hide Exec;
    hide NLimbs;
    hide Number;
    hide Repeat;
    hide RangeCheck;
    hide QuotientTable;
    hide OperandTables;
    hide Fetch;
    hide PushCopies;
    hide LoopScript;
    hide Epilogue;
    hide Operands;
    hide Spells;
    hide M.InRange;
    Sizes(c);
    var u, w := OperandWidth(c), AccWidth(c);
    var st := Running(Operands(c, xs, ys, hint, r), alt);
    ExecAppend3(Prologue(c), LoopScript(c, 0, windows), Epilogue(c), st);
    ExecAppend5(Repeat(RangeCheck(u, c.p), 2 * c.nLc), QuotientTable(w, c.width), OperandTables(u, w, c.width, c.nLc),
                Repeat(Fetch(u, w), c.nLc), PushCopies(0, NLimbs(w)), st);
    ChecksRun(c, xs, ys, hint, r, alt);
    if M.InRange(c, xs, ys) { BadHintRun(w, c.width, hint, r, AltPile(u, xs, AltPile(u, ys, alt))); }
    ExecFailed(QuotientTable(w, c.width));
    ExecFailed(OperandTables(u, w, c.width, c.nLc));
    ExecFailed(Repeat(Fetch(u, w), c.nLc));
    ExecFailed(PushCopies(0, NLimbs(w)));
    ExecFailed(LoopScript(c, 0, windows));
    ExecFailed(Epilogue(c));
  }

  lemma {:induction false} NumbersDiffer(w: Width, a: nat, b: nat)
    requires Shaped(w) && Number(w, a) == Number(w, b)
    ensures a == b
  {
    hide Value;
    hide Digits;
    ValueOfDigits(NLimbs(w) - 1, Base(w), a);
    ValueOfDigits(NLimbs(w) - 1, Base(w), b);
  }

  /** On any operands and any cells as hint, the script succeeds exactly when the operands are reduced and the hint spells
      the true quotient, and then leaves the reduced sum of products on an otherwise unchanged stack. */
  lemma {:induction false} ScriptExact(c: M.Config, windows: nat -> Script, held: nat -> seq<int>, xs: seq<nat>, ys: seq<nat>,
                                       hint: seq<int>, r: Stack, alt: Stack)
    requires Setup(c) && M.Roomy(c) && Fitting(c, xs, ys) && Extracts(c, windows, held, ys) && |hint| == NLimbs(AccWidth(c))
    ensures Exec(TMulScript(c, windows), Running(Operands(c, xs, ys, hint, r), alt)) ==
            if M.InRange(c, xs, ys) && hint == Number(AccWidth(c), M.HonestHint(c, xs, ys))
            then Running(On(OperandWidth(c), M.Dot(xs, ys) % c.p, r), alt)
            else Failed
  {
    hide Exec;
    hide NLimbs;
    hide Number;
    hide TMulScript;
    hide Operands;
    hide Extracts;
    hide Fitting;
    hide M.InRange;
    hide M.HonestHint;
    hide M.TBits;
    hide M.TMul;
    hide M.Dot;
    hide Pow2;
    AccWidthIsValid(c);
    LengthsFit(c, xs, ys);
    var w, honest := AccWidth(c), M.HonestHint(c, xs, ys);
    if Spells(w, hint) {
      var q: nat :| q < Capacity(w) && hint == Number(w, q);
      ScriptRefines(c, windows, held, xs, ys, q, r, alt);
      M.TMulExact(c, xs, ys, q);
      if hint == Number(w, honest) { NumbersDiffer(w, q, honest); }
    } else {
      BadHintFails(c, windows, xs, ys, hint, r, alt);
      if M.InRange(c, xs, ys) { M.HonestTables(c, xs, ys); }
    }
  }

  lemma {:induction false} LengthsFit(c: M.Config, xs: seq<nat>, ys: seq<nat>)
    requires Setup(c) && Fitting(c, xs, ys)
    ensures |xs| == |ys| == c.nLc && M.Valid(c) && c.p < Pow2(c.nBits)
  {
  }

  /** `var_windows_script` for every round. */
  function WindowScripts(c: M.Config): nat -> Script
    requires Setup(c)
  {
    (k: nat) => if k < M.NWindows(c) then VarWindows(c, k) else []
  }

  function HeldCells(c: M.Config, ys: seq<nat>): nat -> seq<int>
    requires c.width > 0
  {
    (k: nat) => Held(c, ys, k)
  }

  /** `var_windows_script` is such a window script, for all window widths for which tables can be generated. */
  lemma {:induction false} VarWindowsExtract(c: M.Config, ys: seq<nat>)
    requires Setup(c) && 2 <= c.width <= 6 && |ys| == c.nLc && AllNumbers(OperandWidth(c), ys)
    ensures Extracts(c, WindowScripts(c), HeldCells(c, ys), ys)
  {
    hide Exec;
    hide VarWindows;
    hide NLimbs;
    hide M.TBits;
    hide M.Windows;
    hide M.NWindows;
    hide AllNumbers;
    hide SignedOn;
    hide Blocks;
    hide Prepend;
    hide Reverse;
    hide Fits;
    AccWidthIsValid(c);
    forall k: nat, z: int, r: Stack, alt: Stack | k < M.NWindows(c) && Fits(M.TBits(c), z)
      ensures ExtractsAt(c, WindowScripts(c), HeldCells(c, ys), ys, k, z, r, alt)
    {
      VarWindowsRun(c, k, z, ys, r, alt);
    }
  }

  lemma {:induction false} InstantiationsSetUp(c: M.Config)
    requires M.Instantiated(c)
    ensures Setup(c) && M.Roomy(c) && 2 <= c.width <= 6 && NLimbs(AccWidth(c)) == 9 && c.p == M.MODULUS
  {
    hide M.TBits;
    hide M.Roomy;
    hide NLimbs;
    hide Pow2;
    M.InstantiationsFit(c);
    InstantiatedWidth(c);
    SmallTables();
  }

  lemma {:induction false} InstantiatedWidth(c: M.Config)
    requires M.Instantiated(c)
    ensures Valid(AccWidth(c)) && NLimbs(AccWidth(c)) == 9
  {
    assert BitLength(0) == 0 && BitLength(1) == 1 && BitLength(3) == 2;
    assert M.TBits(c) == 259 || M.TBits(c) == 260;
  }

  lemma {:induction false} SmallTables()
    ensures Pow2(3) == 8 && Pow2(4) == 16
  {
  }

  /** The library's scripts, for any modulus and width the macro can instantiate: success exactly on reduced operands with
      the true quotient as hint, and then the residue of the sum of products. */
  lemma {:induction false} TMulScriptExact(c: M.Config, xs: seq<nat>, ys: seq<nat>, hint: seq<int>, r: Stack, alt: Stack)
    requires Setup(c) && M.Roomy(c) && 2 <= c.width <= 6 && |xs| == |ys| == c.nLc && |hint| == NLimbs(AccWidth(c))
    requires AllNumbers(OperandWidth(c), xs) && AllNumbers(OperandWidth(c), ys)
    ensures Exec(TMulScript(c, WindowScripts(c)), Running(Operands(c, xs, ys, hint, r), alt)) ==
            if M.InRange(c, xs, ys) && hint == Number(AccWidth(c), M.HonestHint(c, xs, ys))
            then Running(On(OperandWidth(c), M.Dot(xs, ys) % c.p, r), alt)
            else Failed
  {
    hide *;
    FittingSizes(c, xs, ys);
    VarWindowsExtract(c, ys);
    ScriptExact(c, WindowScripts(c), HeldCells(c, ys), xs, ys, hint, r, alt);
  }

  lemma {:induction false} FittingSizes(c: M.Config, xs: seq<nat>, ys: seq<nat>)
    requires Setup(c) && 2 <= c.width <= 6 && |xs| == |ys| == c.nLc
    requires AllNumbers(OperandWidth(c), xs) && AllNumbers(OperandWidth(c), ys)
    ensures Fitting(c, xs, ys)
  {
  }

  /** All four multiplications of the library. */
  lemma {:induction false} FqScriptExact(c: M.Config, xs: seq<nat>, ys: seq<nat>, hint: seq<int>, r: Stack, alt: Stack)
    requires M.Instantiated(c) && |xs| == |ys| == c.nLc && |hint| == 9
    requires AllNumbers(OperandWidth(c), xs) && AllNumbers(OperandWidth(c), ys)
    ensures Setup(c) && NLimbs(AccWidth(c)) == 9
    ensures Exec(TMulScript(c, WindowScripts(c)), Running(Operands(c, xs, ys, hint, r), alt)) ==
            if M.InRange(c, xs, ys) && hint == Number(AccWidth(c), M.HonestHint(c, xs, ys))
            then Running(On(OperandWidth(c), M.Dot(xs, ys) % M.MODULUS, r), alt)
            else Failed
  {
    InstantiationsSetUp(c);
    hide *;
    TMulScriptExact(c, xs, ys, hint, r, alt);
  }
}
