/** The building blocks of the `tmul` script (bitvm/src/bn254/fq.rs): where table entries lie, and how the window of one
    product selects the entry to add. */
module TmulScript {
  import opened Arithmetic
  import opened Wrappers
  import opened ScriptMachine
  import opened Limbs
  import opened NumberMoves
  import opened LimbIo
  import opened TwosComplement
  import opened SignedLimbs
  import opened SignedAdd
  import opened TmulTables
  import M = Tmul

  const LIMB_SIZE: nat := 29

  /** The type U of the operands. */
  function OperandWidth(c: M.Config): Width {
    Width(c.nBits, LIMB_SIZE)
  }

  /** The type T of the accumulator. */
  function AccWidth(c: M.Config): Width
    requires c.nLc > 0
  {
    Width(M.TBits(c), LIMB_SIZE)
  }

  /** `size_table`. */
  function TableSize(c: M.Config): nat {
    Pow2(c.width) - 1
  }

  /** Blocks on the stack below the accumulator. */
  function BlockCount(c: M.Config): nat {
    MulNonNeg(c.nLc + 1, TableSize(c));
    c.nLc + (c.nLc + 1) * TableSize(c)
  }

  /** The configuration is one the macro can instantiate: operands of more than one limb, a stack below 2^31 cells. */
  ghost predicate Setup(c: M.Config) {
    M.Valid(c) && c.p < Pow2(c.nBits) && LIMB_SIZE < c.nBits &&
    NLimbs(AccWidth(c)) < 0x4000 && (BlockCount(c) + 4) * NLimbs(AccWidth(c)) < 0x7FFF_0000
  }

  lemma {:induction false} AccWidthIsValid(c: M.Config)
    requires Setup(c)
    ensures Valid(AccWidth(c)) && AccWidth(c).nBits == M.TBits(c) && AccWidth(c).limb == OperandWidth(c).limb
    ensures Valid(OperandWidth(c)) && NLimbs(AccWidth(c)) < 0x4000
  {
  }

  // ---------- where the table entries are ----------

  /** Tables stacked one after the other, entry 1 of each deepest. */
  function TableBlocks(tables: seq<seq<int>>): seq<int> {
    if tables == [] then [] else TableBlocks(tables[1..]) + Reverse(tables[0])
  }

  /** All numbers below the accumulator. */
  function Layout(ys: seq<int>, tables: seq<seq<int>>, qTable: seq<int>): seq<int> {
    Reverse(ys) + TableBlocks(tables) + Reverse(qTable)
  }

  lemma {:induction false} TableBlockAt(tables: seq<seq<int>>, size: nat, j: nat, m: nat)
    requires forall i :: 0 <= i < |tables| ==> |tables[i]| == size
    requires j < |tables| && 0 < m <= size
    ensures |TableBlocks(tables)| == |tables| * size && 0 <= (|tables| - j) * size - m < |tables| * size
    ensures TableBlocks(tables)[(|tables| - j) * size - m] == tables[j][m - 1]
    decreases |tables|
  {
    hide Reverse;
    var n := |tables|;
    var t := tables[1..];
    var rest := TableBlocks(t);
    TableBlocksLength(t, size);
    SplitProduct(n, size);
    MulMono(1, n - j, size);
    MulMono(n - j, n, size);
    if j == 0 {
      ReverseAt(tables[0], size - m);
      assert TableBlocks(tables)[n * size - m] == Reverse(tables[0])[size - m];
    } else {
      TableBlockAt(t, size, j - 1, m);
      assert t[j - 1] == tables[j];
    }
  }

  lemma {:induction false} TableBlocksLength(tables: seq<seq<int>>, size: nat)
    requires forall i :: 0 <= i < |tables| ==> |tables[i]| == size
    ensures |tables| * size >= 0 && |TableBlocks(tables)| == |tables| * size
    decreases |tables|
  {
    if tables != [] {
      TableBlocksLength(tables[1..], size);
      SplitProduct(|tables|, size);
    }
  }

  /** Entry m of table j, as a block below the accumulator. */
  lemma {:induction false} EntryAt(ys: seq<int>, tables: seq<seq<int>>, qTable: seq<int>, size: nat, j: nat, m: nat)
    requires |ys| == |tables| && |qTable| == size && forall i :: 0 <= i < |tables| ==> |tables[i]| == size
    requires j < |tables| && 0 < m <= size
    ensures var n, l := |ys|, Layout(ys, tables, qTable);
            |l| == n + (n + 1) * size && 0 <= n + (n - j) * size - m < |l| && l[n + (n - j) * size - m] == tables[j][m - 1]
  {
    var n := |ys|;
    TableBlockAt(tables, size, j, m);
    SplitProduct(n + 1, size);
    hide TableBlocks;
    InMiddle(Reverse(ys), TableBlocks(tables), Reverse(qTable), (n - j) * size - m);
  }

  /** Entry m of the quotient table. */
  lemma {:induction false} QuotientEntryAt(ys: seq<int>, tables: seq<seq<int>>, qTable: seq<int>, size: nat, m: nat)
    requires |ys| == |tables| && |qTable| == size && forall i :: 0 <= i < |tables| ==> |tables[i]| == size
    requires 0 < m <= size
    ensures var n, l := |ys|, Layout(ys, tables, qTable);
            |l| == n + (n + 1) * size && 0 <= n + n * size + size - m < |l| && l[n + n * size + size - m] == qTable[m - 1]
  {
    var n := |ys|;
    TableBlocksLength(tables, size);
    SplitProduct(n + 1, size);
    hide TableBlocks;
    ReverseAt(qTable, size - m);
    InMiddle(Reverse(ys) + TableBlocks(tables), Reverse(qTable), [], size - m);
    assert Reverse(ys) + TableBlocks(tables) + Reverse(qTable) + [] == Layout(ys, tables, qTable);
  }

  lemma {:induction false} InMiddle(a: seq<int>, b: seq<int>, c: seq<int>, i: nat)
    requires i < |b|
    ensures (a + b + c)[|a| + i] == b[i]
  {
  }

  // ---------- replacing the zero accumulator by an entry ----------

  /** The very first entry is copied over the accumulator instead of being added. */
  function CopyEntry(w: Width): Script
    requires Valid(w)
  {
    Repeat([Nip], NLimbs(w)) + (Nmul(NLimbs(w)) + [Dup, Pick]) + Repeat([Swap, Dup, Pick], NLimbs(w) - 1) + [Nip]
  }

  lemma {:induction false} NipAll(d: int, l: seq<int>, r: Stack, alt: Stack)
    ensures Exec(Repeat([Nip], |l|), Running(Cell(d, Prepend(l, r)), alt)) == Running(Cell(d, r), alt)
    decreases |l|
  {
    hide Exec;
    hide Step;
    StackRules();
    var st := Running(Cell(d, Prepend(l, r)), alt);
    if l == [] {
      Exec0(st);
    } else {
      ExecRepeat([Nip], |l|, st);
      Exec1(Nip, st);
      NipAll(d, l[1..], r, alt);
    }
  }

  /** Picks the cell i positions before the depth on top, which stays in place below it. */
  lemma {:induction false} PickRepeated(p: seq<int>, x: int, q: seq<int>, r: Stack, alt: Stack)
    requires |p| < 0x7FFF_FFF0
    ensures Exec([Dup, Pick], Running(Cell(|p| + 1, Prepend(p + [x] + q, r)), alt)) ==
            Running(Cell(x, Cell(|p| + 1, Prepend(p + [x] + q, r))), alt)
  {
    hide Exec;
    hide Step;
    hide Prepend;
    StackRules();
    PickStep(p, x, q, r, alt);
    Exec2(Dup, Pick, Running(Cell(|p| + 1, Prepend(p + [x] + q, r)), alt));
  }

  /** i cells of the entry e already copied, the last of them above the depth. */
  lemma {:induction false} CopyCells(a: seq<int>, e: seq<int>, b: seq<int>, i: nat, r: Stack, alt: Stack)
    requires 0 < i <= |e| && |a| + 2 * |e| + |b| < 0x7FFF_FFF0
    ensures var n := |e|;
            var d := |a| + n;
            Exec([Nip], Exec(Repeat([Swap, Dup, Pick], n - i),
              Running(Cell(e[n - i], Cell(d, Prepend(e[n - i + 1..] + (a + e + b), r))), alt))) ==
            Running(Prepend(e + (a + e + b), r), alt)
    decreases |e| - i
  {
    hide Exec;
    hide Step;
    hide Prepend;
    StackRules();
    var n := |e|;
    var d, l := |a| + n, a + e + b;
    var x := e[n - i];
    var st := Running(Cell(x, Cell(d, Prepend(e[n - i + 1..] + l, r))), alt);
    if i == n {
      Exec0(st);
      Exec1(Nip, st);
      PrependFirst(x, e[1..] + l, r);
      assert [x] + (e[1..] + l) == e + l;
    } else {
      ExecRepeat([Swap, Dup, Pick], n - i, st);
      assert [Swap, Dup, Pick] == [Swap] + [Dup, Pick];
      ExecAppend([Swap], [Dup, Pick], st);
      Exec1(Swap, st);
      var m := n - i - 1;
      PrependFirst(x, e[n - i + 1..] + l, r);
      assert [x] + (e[n - i + 1..] + l) == e[n - i..] + l;
      var p, y, q := e[n - i..] + a + e[..m], e[m], e[m + 1..] + b;
      assert e[n - i..] + l == p + [y] + q;
      PickRepeated(p, y, q, r, alt);
      CopyCells(a, e, b, i + 1, r, alt);
    }
  }

  lemma {:induction false} CopyEntryRun(w: Width, d: nat, vs: seq<int>, x: int, r: Stack, alt: Stack)
    requires Valid(w) && 0 < d <= |vs| && |vs| * NLimbs(w) < 0x7FFF_0000 && NLimbs(w) < 0x4000
    ensures var all := Prepend(Blocks(w, vs), r);
            Exec(CopyEntry(w), Running(Cell(d, SignedOn(w, x, all)), alt)) == Running(SignedOn(w, vs[d - 1], all), alt)
  {
    hide Exec;
    hide Prepend;
    hide NLimbs;
    hide Nmul;
    hide Repeat;
    hide Number;
    var n := NLimbs(w);
    var v := vs[d - 1];
    var all := Prepend(Blocks(w, vs), r);
    var a, e, b := Blocks(w, vs[..d - 1]), SignedNumber(w, v), Blocks(w, vs[d..]);
    EntryCells(w, d, vs);
    BlockSizes(|vs|, d - 1, n);
    SplitProduct(d, n);
    var st := Running(Cell(d, SignedOn(w, x, all)), alt);
    ExecAppend4(Repeat([Nip], n), Nmul(n) + [Dup, Pick], Repeat([Swap, Dup, Pick], n - 1), [Nip], st);
    NipAll(d, SignedNumber(w, x), all, alt);
    ExecAppend(Nmul(n), [Dup, Pick], Running(Cell(d, all), alt));
    assert n * d == |a| + n;
    NmulRun(n, d, all, alt);
    var p, y := a + e[..n - 1], e[n - 1];
    assert a + e + b == p + [y] + b;
    PickRepeated(p, y, b, r, alt);
    assert e[n..] + (a + e + b) == a + e + b;
    CopyCells(a, e, b, 1, r, alt);
    PrependAppend(e, a + e + b, r);
  }

  lemma {:induction false} EntryCells(w: Width, d: nat, vs: seq<int>)
    requires Valid(w) && 0 < d <= |vs|
    ensures Blocks(w, vs) == Blocks(w, vs[..d - 1]) + SignedNumber(w, vs[d - 1]) + Blocks(w, vs[d..])
  {
    hide SignedNumber;
    hide NLimbs;
    var a, x, b := vs[..d - 1], vs[d - 1], vs[d..];
    assert vs == a + ([x] + b);
    assert ([x] + b)[1..] == b;
    BlocksAppend(w, a, [x] + b);
  }

  // ---------- adding the products of one round ----------

  /** The accumulator above all blocks, or failure. */
  function AccState(w: Width, z: Option<int>, vs: seq<int>, r: Stack, alt: Stack): State
    requires Valid(w)
  {
    match z
    case None => Failed
    case Some(v) => Running(SignedOn(w, v, Prepend(Blocks(w, vs), r)), alt)
  }

  /** What a round does with the window of product j. */
  function TermBody(c: M.Config, j: nat, first: bool): Script
    requires Setup(c) && j < c.nLc
  {
    MulNonNeg(c.nLc - j, TableSize(c));
    [Dup, Not] +
    [If([Drop],
        [Num(1 + c.nLc + (c.nLc - j) * TableSize(c)), Swap, Sub] +
        (if first then CopyEntry(AccWidth(c)) else AddRefStack(AccWidth(c))))]
  }

  function Terms(c: M.Config, j: nat): Script
    requires Setup(c) && 0 < j <= c.nLc
    decreases c.nLc - j
  {
    if j == c.nLc then [] else [FromAlt] + TermBody(c, j, false) + Terms(c, j + 1)
  }

  /** The value after one term, as in the integer-level model. */
  function TermValue(bits: nat, z: int, first: bool, entries: seq<int>, m: nat): Option<int>
    requires bits > 0 && m <= |entries|
  {
    if m == 0 then Some(z) else if first then Some(entries[m - 1]) else M.Checked(bits, z + entries[m - 1])
  }

  lemma {:induction false} SelectRun(m: nat, d: nat, body: Script, s: Stack, alt: Stack)
    requires IsNum(m) && IsNum(d)
    ensures Exec([Dup, Not] + [If([Drop], [Num(d), Swap, Sub] + body)], Running(Cell(m, s), alt)) ==
            if m == 0 then Running(s, alt) else Exec(body, Running(Cell(d - m, s), alt))
  {
    hide Exec;
    hide Step;
    StackRules();
    MoreStackRules();
    NumberRules();
    var st := Running(Cell(m, s), alt);
    var els := [Num(d), Swap, Sub] + body;
    ExecAppend([Dup, Not], [If([Drop], els)], st);
    Exec2(Dup, Not, st);
    Exec1(If([Drop], els), Running(Cell(Bit(m == 0), Cell(m, s)), alt));
    Exec1(Drop, st);
    ExecAppend([Num(d), Swap, Sub], body, st);
    Exec3(Num(d), Swap, Sub, st);
  }

  /** What the loop relies on: the layout holds the tables, and everything fits. */
  ghost predicate TablesStacked(c: M.Config, ys: seq<int>, tables: seq<seq<int>>, qTable: seq<int>)
    requires Setup(c)
  {
    |ys| == |tables| == c.nLc && |qTable| == TableSize(c) && (forall i :: 0 <= i < c.nLc ==> |tables[i]| == TableSize(c)) &&
    AllFit(M.TBits(c), Layout(ys, tables, qTable))
  }

  lemma {:induction false} TermRun(c: M.Config, j: nat, first: bool, z: int, m: nat, ys: seq<int>, tables: seq<seq<int>>,
                                   qTable: seq<int>, r: Stack, alt: Stack)
    requires Setup(c) && TablesStacked(c, ys, tables, qTable) && j < c.nLc && m <= TableSize(c) && Fits(M.TBits(c), z)
    ensures var vs := Layout(ys, tables, qTable);
            var v := TermValue(M.TBits(c), z, first, tables[j], m);
            Exec(TermBody(c, j, first), Running(Cell(m, SignedOn(AccWidth(c), z, Prepend(Blocks(AccWidth(c), vs), r))), alt)) ==
            AccState(AccWidth(c), v, vs, r, alt) &&
            (v.Some? ==> Fits(M.TBits(c), v.value))
  {
    hide Exec;
    hide Prepend;
    hide NLimbs;
    hide Fits;
    hide SignedOn;
    hide CopyEntry;
    hide AddRefStack;
    hide Blocks;
    hide Layout;
    hide M.TBits;
    hide Pow2;
    var w, n, size := AccWidth(c), c.nLc, TableSize(c);
    var vs := Layout(ys, tables, qTable);
    var s := SignedOn(w, z, Prepend(Blocks(w, vs), r));
    var d := 1 + n + (n - j) * size;
    var body := if first then CopyEntry(w) else AddRefStack(w);
    DepthBounds(c, j, m);
    SelectRun(m, d, body, s, alt);
    if m > 0 {
      EntryAt(ys, tables, qTable, size, j, m);
      assert vs[n + (n - j) * size - m] == tables[j][m - 1];
      assert d - m - 1 == n + (n - j) * size - m;
      CopyEntryRun(w, d - m, vs, z, r, alt);
      AddBlock(w, d - m, vs, z, r, alt);
    }
  }

  lemma {:induction false} DepthBounds(c: M.Config, j: nat, m: nat)
    requires Setup(c) && j < c.nLc && m <= TableSize(c)
    ensures (c.nLc - j) * TableSize(c) >= 0
    ensures IsNum(m) && IsNum(1 + c.nLc + (c.nLc - j) * TableSize(c))
    ensures BlockCount(c) * NLimbs(AccWidth(c)) < 0x7FFF_0000
  {
    hide NLimbs;
    var size, n := TableSize(c), NLimbs(AccWidth(c));
    hide Pow2;
    MulNonNeg(c.nLc - j, size);
    MulMono(c.nLc - j, c.nLc, size);
    SplitProduct(c.nLc + 1, size);
    MulMono(1, c.nLc + 1, size);
    MulMono(1, n, BlockCount(c) + 4);
    MulMono(BlockCount(c), BlockCount(c) + 4, n);
  }

  /** The terms from product j on are the additions of the integer-level model. */
  lemma {:induction false} TermsRun(c: M.Config, j: nat, z: int, ws: seq<nat>, ys: seq<int>, tables: seq<seq<int>>,
                                    qTable: seq<int>, r: Stack, alt: Stack)
    requires Setup(c) && TablesStacked(c, ys, tables, qTable) && 0 < j <= c.nLc && Fits(M.TBits(c), z)
    requires |ws| == c.nLc && forall i :: 0 <= i < c.nLc ==> ws[i] <= TableSize(c)
    ensures var vs := Layout(ys, tables, qTable);
            var v := M.AddVars(M.TBits(c), z, false, tables[j..], ws[j..]);
            Exec(Terms(c, j), Running(SignedOn(AccWidth(c), z, Prepend(Blocks(AccWidth(c), vs), r)), Prepend(ws[j..], alt))) ==
            AccState(AccWidth(c), v, vs, r, alt) &&
            (v.Some? ==> Fits(M.TBits(c), v.value))
    decreases c.nLc - j
  {
    hide Exec;
    hide Step;
    hide NLimbs;
    hide Fits;
    hide SignedOn;
    hide TermBody;
    hide Blocks;
    hide Layout;
    hide M.TBits;
    hide Pow2;
    MoreStackRules();
    var w, bits := AccWidth(c), M.TBits(c);
    AccWidthIsValid(c);
    var vs := Layout(ys, tables, qTable);
    var s := SignedOn(w, z, Prepend(Blocks(w, vs), r));
    var st := Running(s, Prepend(ws[j..], alt));
    if j == c.nLc {
      Exec0(st);
      assert ws[j..] == [];
    } else {
      var m := ws[j];
      assert ws[j..] == [m] + ws[j + 1..] && tables[j..] == [tables[j]] + tables[j + 1..];
      PrependFirst(m, ws[j + 1..], alt);
      var alt1 := Prepend(ws[j + 1..], alt);
      ExecAppend3([FromAlt], TermBody(c, j, false), Terms(c, j + 1), st);
      Exec1(FromAlt, st);
      TermRun(c, j, false, z, m, ys, tables, qTable, r, alt1);
      match TermValue(bits, z, false, tables[j], m)
      case None => ExecFailed(Terms(c, j + 1));
      case Some(v) => TermsRun(c, j + 1, v, ws, ys, tables, qTable, r, alt);
    }
  }
}
