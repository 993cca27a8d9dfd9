/** The main loop of `tmul` (bitvm/src/bn254/fq.rs) as a script, round by round. */
module TmulRounds {
  import opened Arithmetic
  import opened Wrappers
  import opened ScriptMachine
  import opened Limbs
  import opened StackMoves
  import opened LimbIo
  import opened TwosComplement
  import opened SignedLimbs
  import opened SignedAdd
  import opened SignedShift
  import opened TmulTables
  import opened TmulScript
  import M = Tmul

  /** The numbers a round works on: second operands and the two kinds of tables. */
  datatype Inputs = Inputs(ys: seq<nat>, tables: seq<seq<int>>, qTable: seq<int>)

  function Below(i: Inputs): seq<int> {
    Layout(i.ys, i.tables, i.qTable)
  }

  ghost predicate Ready(c: M.Config, i: Inputs)
    requires Setup(c)
  {
    TablesStacked(c, i.ys, i.tables, i.qTable)
  }

  /** What the window script has to do in round k: put the windows of round k on top, that of the first operand deepest,
      and leave everything else alone. Between rounds it may hold cells on the alt stack. */
  ghost predicate Extracts(c: M.Config, windows: nat -> Script, held: nat -> seq<int>, ys: seq<nat>)
    requires Setup(c)
  {
    held(0) == [] && held(M.NWindows(c)) == [] &&
    forall k: nat, z: int, r: Stack, alt: Stack :: k < M.NWindows(c) && Fits(M.TBits(c), z) ==>
      ExtractsAt(c, windows, held, ys, k, z, r, alt)
  }

  ghost predicate ExtractsAt(c: M.Config, windows: nat -> Script, held: nat -> seq<int>, ys: seq<nat>, k: nat, z: int,
                             r: Stack, alt: Stack)
    requires Setup(c) && k < M.NWindows(c)
  {
    var s := SignedOn(AccWidth(c), z, Prepend(Blocks(AccWidth(c), Reverse(ys)), r));
    Exec(windows(k), Running(s, Prepend(held(k), alt))) ==
    Running(Prepend(Reverse(M.Windows(c, ys, k)), s), Prepend(held(k + 1), alt))
  }

  /** `z += x*y[i]`. */
  function AddProducts(c: M.Config, k: nat, windows: nat -> Script): Script
    requires Setup(c)
  {
    windows(k) + Repeat([ToAlt], c.nLc - 1) + TermBody(c, 0, k == 0) + Terms(c, 1)
  }

  /** `z -= q*p[i]`: the window of the modulus is known to the generator. */
  function AddModulus(c: M.Config, k: nat): Script
    requires Setup(c) && k < M.NWindows(c)
  {
    var m := M.Window(c, c.p, k);
    if m == 0 then []
    else
      MulNonNeg(c.nLc, TableSize(c));
      AddRef(AccWidth(c), 1 + c.nLc + TableSize(c) + c.nLc * TableSize(c) - m)
  }

  /** No shift after the last round. */
  function ShiftRound(c: M.Config, k: nat): Script
    requires Setup(c)
  {
    if k + 1 < M.NWindows(c) then ShiftPreventOverflow(AccWidth(c), c.width) else []
  }

  function RoundScript(c: M.Config, k: nat, windows: nat -> Script): Script
    requires Setup(c) && k < M.NWindows(c)
  {
    AddProducts(c, k, windows) + AddModulus(c, k) + ShiftRound(c, k)
  }

  function LoopScript(c: M.Config, k: nat, windows: nat -> Script): Script
    requires Setup(c) && k <= M.NWindows(c)
    decreases M.NWindows(c) - k
  {
    if k == M.NWindows(c) then [] else RoundScript(c, k, windows) + LoopScript(c, k + 1, windows)
  }

  // ---------- products ----------

  lemma {:induction false} PushReverse(l: seq<int>, alt: Stack)
    ensures PushAll(Reverse(l), alt) == Prepend(l, alt)
    decreases |l|
  {
    if l == [] {
      assert Reverse(l) == [];
    } else {
      PushReverse(l[1..], alt);
      PushLast(Reverse(l[1..]), l[0], alt);
    }
  }

  /** The first window on top, the others on the alt stack, in order. */
  lemma {:induction false} SetAside(ws: seq<int>, s: Stack, alt: Stack)
    requires ws != []
    ensures Exec(Repeat([ToAlt], |ws| - 1), Running(Prepend(Reverse(ws), s), alt)) ==
            Running(Cell(ws[0], s), Prepend(ws[1..], alt))
  {
    hide Exec;
    hide Prepend;
    hide PushAll;
    var others := Reverse(ws[1..]);
    assert Reverse(ws) == others + [ws[0]];
    PrependLast(others, ws[0], s);
    ToAltAll(others, Cell(ws[0], s), alt);
    PushReverse(ws[1..], alt);
  }

  lemma {:induction false} WindowsRun(c: M.Config, k: nat, windows: nat -> Script, held: nat -> seq<int>, z: int, i: Inputs,
                                      r: Stack, alt: Stack)
    requires Setup(c) && Ready(c, i) && k < M.NWindows(c) && Extracts(c, windows, held, i.ys) && Fits(M.TBits(c), z)
    ensures var w, ws := AccWidth(c), M.Windows(c, i.ys, k);
            var s := SignedOn(w, z, Prepend(Blocks(w, Below(i)), r));
            Exec(windows(k) + Repeat([ToAlt], c.nLc - 1), Running(s, Prepend(held(k), alt))) ==
            Running(Cell(ws[0], s), Prepend(ws[1..], Prepend(held(k + 1), alt)))
  {
    hide Exec;
    hide Prepend;
    hide Blocks;
    hide SignedOn;
    hide NLimbs;
    hide Fits;
    hide M.TBits;
    hide M.Windows;
    hide M.NWindows;
    AccWidthIsValid(c);
    var w, ws := AccWidth(c), M.Windows(c, i.ys, k);
    var a, b := Reverse(i.ys), TableBlocks(i.tables) + Reverse(i.qTable);
    assert Below(i) == a + b;
    BlocksAppend(w, a, b);
    PrependAppend(Blocks(w, a), Blocks(w, b), r);
    var s := SignedOn(w, z, Prepend(Blocks(w, Below(i)), r));
    assert ExtractsAt(c, windows, held, i.ys, k, z, Prepend(Blocks(w, b), r), alt);
    ExecAppend(windows(k), Repeat([ToAlt], c.nLc - 1), Running(s, Prepend(held(k), alt)));
    SetAside(ws, s, Prepend(held(k + 1), alt));
  }

  lemma {:induction false} AddProductsRun(c: M.Config, k: nat, windows: nat -> Script, held: nat -> seq<int>, z: int, i: Inputs,
                                          r: Stack, alt: Stack)
    requires Setup(c) && Ready(c, i) && k < M.NWindows(c) && Extracts(c, windows, held, i.ys) && Fits(M.TBits(c), z)
    ensures var w := AccWidth(c);
            var v := M.AddVars(M.TBits(c), z, k == 0, i.tables, M.Windows(c, i.ys, k));
            Exec(AddProducts(c, k, windows), Running(SignedOn(w, z, Prepend(Blocks(w, Below(i)), r)), Prepend(held(k), alt))) ==
            AccState(w, v, Below(i), r, Prepend(held(k + 1), alt)) &&
            (v.Some? ==> Fits(M.TBits(c), v.value))
  {
    hide Exec;
    hide Prepend;
    hide Blocks;
    hide SignedOn;
    hide NLimbs;
    hide Fits;
    hide M.TBits;
    hide M.Windows;
    hide M.NWindows;
    hide Layout;
    hide TermBody;
    hide Terms;
    hide Repeat;
    hide Extracts;
    hide Pow2;
    AccWidthIsValid(c);
    var w, ws, bits := AccWidth(c), M.Windows(c, i.ys, k), M.TBits(c);
    var s := SignedOn(w, z, Prepend(Blocks(w, Below(i)), r));
    var alt1 := Prepend(held(k + 1), alt);
    var st := Running(s, Prepend(held(k), alt));
    ExecAppend3(windows(k) + Repeat([ToAlt], c.nLc - 1), TermBody(c, 0, k == 0), Terms(c, 1), st);
    WindowsRun(c, k, windows, held, z, i, r, alt);
    TermRun(c, 0, k == 0, z, ws[0], i.ys, i.tables, i.qTable, r, Prepend(ws[1..], alt1));
    match TermValue(bits, z, k == 0, i.tables[0], ws[0])
    case None => ExecFailed(Terms(c, 1));
    case Some(v) => TermsRun(c, 1, v, ws, i.ys, i.tables, i.qTable, r, alt1);
  }

  // ---------- modulus and shift ----------

  lemma {:induction false} AddModulusRun(c: M.Config, k: nat, z: int, i: Inputs, r: Stack, alt: Stack)
    requires Setup(c) && Ready(c, i) && k < M.NWindows(c) && Fits(M.TBits(c), z)
    ensures var w, m := AccWidth(c), M.Window(c, c.p, k);
            var v := if m == 0 then Some(z) else M.Checked(M.TBits(c), z + i.qTable[m - 1]);
            Exec(AddModulus(c, k), Running(SignedOn(w, z, Prepend(Blocks(w, Below(i)), r)), alt)) ==
            AccState(w, v, Below(i), r, alt) &&
            (v.Some? ==> Fits(M.TBits(c), v.value))
  {
    hide Exec;
    hide Prepend;
    hide Blocks;
    hide SignedOn;
    hide NLimbs;
    hide Fits;
    hide M.TBits;
    hide M.NWindows;
    hide M.Window;
    hide Layout;
    hide AddRef;
    hide Pow2;
    AccWidthIsValid(c);
    var w, m, n, size := AccWidth(c), M.Window(c, c.p, k), c.nLc, TableSize(c);
    var st := Running(SignedOn(w, z, Prepend(Blocks(w, Below(i)), r)), alt);
    if m == 0 {
      Exec0(st);
    } else {
      QuotientEntryAt(i.ys, i.tables, i.qTable, size, m);
      MulNonNeg(n, size);
      var d := 1 + n + size + n * size - m;
      assert Below(i)[d - 1] == i.qTable[m - 1];
      DepthBounds(c, 0, 0);
      AddBlock(w, d, Below(i), z, r, alt);
    }
  }

  lemma {:induction false} ShiftRoundRun(c: M.Config, k: nat, z: int, vs: seq<int>, r: Stack, alt: Stack)
    requires Setup(c) && k < M.NWindows(c) && Fits(M.TBits(c), z) && c.width < 0x7FFF_FF00
    ensures var w := AccWidth(c);
            var v := if k + 1 < M.NWindows(c) then M.Checked(M.TBits(c), z * Pow2(c.width)) else Some(z);
            Exec(ShiftRound(c, k), Running(SignedOn(w, z, Prepend(Blocks(w, vs), r)), alt)) == AccState(w, v, vs, r, alt) &&
            (v.Some? ==> Fits(M.TBits(c), v.value))
  {
    hide Exec;
    hide Prepend;
    hide Blocks;
    hide SignedOn;
    hide NLimbs;
    hide Fits;
    hide M.TBits;
    hide M.NWindows;
    hide ShiftPreventOverflow;
    hide Pow2;
    AccWidthIsValid(c);
    var w, s := AccWidth(c), Prepend(Blocks(AccWidth(c), vs), r);
    if k + 1 < M.NWindows(c) {
      ShiftExact(w, c.width, z, s, alt);
    } else {
      Exec0(Running(SignedOn(w, z, s), alt));
    }
  }

  // ---------- rounds ----------

  /** One round of the script is one round of the integer-level loop. */
  lemma {:induction false} RoundRun(c: M.Config, k: nat, windows: nat -> Script, held: nat -> seq<int>, z: int, i: Inputs,
                                    r: Stack, alt: Stack)
    requires Setup(c) && Ready(c, i) && k < M.NWindows(c) && Extracts(c, windows, held, i.ys) && Fits(M.TBits(c), z)
    requires c.width < 0x7FFF_FF00
    ensures var w := AccWidth(c);
            var v := M.Round(c, k, z, i.tables, i.qTable, i.ys);
            Exec(RoundScript(c, k, windows), Running(SignedOn(w, z, Prepend(Blocks(w, Below(i)), r)), Prepend(held(k), alt))) ==
            AccState(w, v, Below(i), r, Prepend(held(k + 1), alt)) &&
            (v.Some? ==> Fits(M.TBits(c), v.value))
  {
    hide Exec;
    hide Prepend;
    hide Blocks;
    hide SignedOn;
    hide NLimbs;
    hide Fits;
    hide M.TBits;
    hide M.NWindows;
    hide M.Window;
    hide M.Windows;
    hide M.AddVars;
    hide Layout;
    hide AddProducts;
    hide AddModulus;
    hide ShiftRound;
    hide Extracts;
    hide Pow2;
    AccWidthIsValid(c);
    var w, bits := AccWidth(c), M.TBits(c);
    var st := Running(SignedOn(w, z, Prepend(Blocks(w, Below(i)), r)), Prepend(held(k), alt));
    var alt1 := Prepend(held(k + 1), alt);
    ExecAppend3(AddProducts(c, k, windows), AddModulus(c, k), ShiftRound(c, k), st);
    AddProductsRun(c, k, windows, held, z, i, r, alt);
    match M.AddVars(bits, z, k == 0, i.tables, M.Windows(c, i.ys, k))
    case None =>
      ExecFailed(AddModulus(c, k));
      ExecFailed(ShiftRound(c, k));
    case Some(z1) =>
      AddModulusRun(c, k, z1, i, r, alt1);
      var m := M.Window(c, c.p, k);
      match if m == 0 then Some(z1) else M.Checked(bits, z1 + i.qTable[m - 1])
      case None => ExecFailed(ShiftRound(c, k));
      case Some(z2) => ShiftRoundRun(c, k, z2, Below(i), r, alt1);
  }

  /** The script of the main loop computes the integer-level loop, and fails exactly when that does. */
  lemma {:induction false} LoopRun(c: M.Config, k: nat, windows: nat -> Script, held: nat -> seq<int>, z: int, i: Inputs,
                                   r: Stack, alt: Stack)
    requires Setup(c) && Ready(c, i) && k <= M.NWindows(c) && Extracts(c, windows, held, i.ys) && Fits(M.TBits(c), z)
    requires c.width < 0x7FFF_FF00
    ensures var w := AccWidth(c);
            var v := M.MainLoop(c, k, z, i.tables, i.qTable, i.ys);
            Exec(LoopScript(c, k, windows), Running(SignedOn(w, z, Prepend(Blocks(w, Below(i)), r)), Prepend(held(k), alt))) ==
            AccState(w, v, Below(i), r, alt) &&
            (v.Some? ==> Fits(M.TBits(c), v.value))
    decreases M.NWindows(c) - k
  {
    hide Exec;
    hide Blocks;
    hide SignedOn;
    hide NLimbs;
    hide Fits;
    hide M.TBits;
    hide M.NWindows;
    hide M.Round;
    hide Layout;
    hide RoundScript;
    hide Pow2;
    AccWidthIsValid(c);
    var w := AccWidth(c);
    var st := Running(SignedOn(w, z, Prepend(Blocks(w, Below(i)), r)), Prepend(held(k), alt));
    if k == M.NWindows(c) {
      Exec0(st);
    } else {
      ExecAppend(RoundScript(c, k, windows), LoopScript(c, k + 1, windows), st);
      RoundRun(c, k, windows, held, z, i, r, alt);
      match M.Round(c, k, z, i.tables, i.qTable, i.ys)
      case None => ExecFailed(LoopScript(c, k + 1, windows));
      case Some(v) => LoopRun(c, k + 1, windows, held, v, i, r, alt);
    }
  }
}
