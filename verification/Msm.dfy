/** Windowed scalar multiplication with constant bases (bitvm/src/bn254/msm.rs, bitvm/src/bn254/utils.rs). Points belong to
    an abstract abelian group; the script of a single point addition is a parameter. */
module Msm {
  import opened Arithmetic
  import opened ScriptMachine
  import opened Limbs
  import opened NumberMoves
  import opened BitConversion
  import opened LimbIo
  import opened FieldDiv

  /** A group of points with affine coordinates. */
  datatype Curve<!G(!new)> = Curve(zero: G, plus: (G, G) -> G, neg: G -> G, x: G -> nat, y: G -> nat)

  ghost predicate Abelian<G(!new)>(c: Curve<G>) {
    (forall a, b :: c.plus(a, b) == c.plus(b, a)) &&
    (forall a, b, d :: c.plus(c.plus(a, b), d) == c.plus(a, c.plus(b, d))) &&
    (forall a :: c.plus(a, c.zero) == a)
  }

  /** Coordinates fit the limbs; the identity is written as two zeros. */
  ghost predicate Coordinates<G(!new)>(c: Curve<G>, w: Width) {
    (forall a :: c.x(a) < Capacity(w) && c.y(a) < Capacity(w)) && c.x(c.zero) == 0 && c.y(c.zero) == 0
  }

  /** n times p. */
  function Times<G(!new)>(c: Curve<G>, n: nat, p: G): G {
    if n == 0 then c.zero else c.plus(Times(c, n - 1, p), p)
  }

  lemma {:induction false} TimesAdd<G(!new)>(c: Curve<G>, m: nat, n: nat, p: G)
    requires Abelian(c)
    ensures Times(c, m + n, p) == c.plus(Times(c, m, p), Times(c, n, p))
    decreases n
  {
    if n > 0 { TimesAdd(c, m, n - 1, p); }
  }

  lemma {:induction false} TimesStep<G(!new)>(c: Curve<G>, m: nat, p: G)
    ensures Times(c, 0, p) == c.zero && Times(c, m + 1, p) == c.plus(Times(c, m, p), p)
  {
  }

  lemma {:induction false} TimesTimes<G(!new)>(c: Curve<G>, m: nat, n: nat, p: G)
    requires Abelian(c)
    ensures m * n >= 0 && Times(c, m, Times(c, n, p)) == Times(c, m * n, p)
    decreases m
  {
    hide Times;
    hide Abelian;
    MulNonNeg(m, n);
    TimesStep(c, 0, p);
    TimesStep(c, 0, Times(c, n, p));
    if m > 0 {
      TimesTimes(c, m - 1, n, p);
      MulNonNeg(m - 1, n);
      SplitProduct(m, n);
      TimesAdd(c, (m - 1) * n, n, p);
      TimesStep(c, m - 1, Times(c, n, p));
    }
  }

  // ---------- windows of a scalar ----------

  /** Window i of a scalar. */
  function Slice(v: nat, window: nat, i: nat): (r: nat)
    ensures r < Pow2(window)
  {
    MulNonNeg(i, window);
    Lo(Up(v, Pow2(i * window)), Pow2(window))
  }

  function NumTables(n: nat, window: nat): (t: nat)
    requires 0 < window && 0 < n
    ensures t > 0 && (t - 1) * window < n <= t * window
  {
    CeilingAny(n, window);
    (n + window - 1) / window
  }

  lemma {:induction false} CeilingAny(n: nat, d: nat)
    requires 0 < d && 0 < n
    ensures var q := (n + d - 1) / d; q > 0 && (q - 1) * d < n <= q * d
  {
    var q := (n + d - 1) / d;
    assert n + d - 1 == q * d + (n + d - 1) % d;
    SplitProduct(q, d);
    if q <= 0 { MulMono(q, 0, d); }
  }

  /** The i low windows together. */
  function LowPart(v: nat, window: nat, i: nat): nat {
    MulNonNeg(i, window);
    Lo(v, Pow2(i * window))
  }

  /** One more window: the low part grows by the window times its weight. */
  lemma {:induction false} NextWindow(v: nat, window: nat, i: nat)
    ensures i * window >= 0
    ensures LowPart(v, window, i + 1) == Slice(v, window, i) * Pow2(i * window) + LowPart(v, window, i)
  {
    hide Lo;
    hide Up;
    MulNonNeg(i, window);
    SplitProduct(i + 1, window);
    Pow2Add(i * window, window);
    var p, m := Pow2(i * window), Pow2(window);
    hide Pow2;
    var u := Up(v, p);
    UpNonNeg(v, p);
    Split(v, p);
    Split(u, m);
    WindowSplit(v, u, p, m);
  }

  lemma {:induction false} WindowSplit(v: nat, u: nat, p: nat, m: nat)
    requires p > 0 && m > 0 && u == Up(v, p)
    ensures p * m > 0 && Lo(v, p * m) == Lo(u, m) * p + Lo(v, p)
  {
    hide Lo;
    hide Up;
    MulMono(1, m, p);
    var q, s, l := Up(u, m), Lo(u, m), Lo(v, p);
    Split(v, p);
    Split(u, m);
    MulNonNeg(s, p);
    BelowProduct(s * p + l, s, l, p, m);
    assert (q * m + s) * p == q * (p * m) + s * p by { MulAssoc(q, p, m); MulAssoc(q, m, p); assert p * m == m * p; }
    SplitUnique(v, p * m, q, s * p + l);
  }

  // ---------- points on the stack ----------

  function PointCells<G(!new)>(c: Curve<G>, w: Width, g: G): (l: seq<int>)
    requires Valid(w)
    ensures |l| == 2 * NLimbs(w)
  {
    Number(w, c.y(g)) + Number(w, c.x(g))
  }

  function PushPoint<G(!new)>(c: Curve<G>, w: Width, g: G): Script
    requires Valid(w)
  {
    PushNumber(w, c.x(g)) + PushNumber(w, c.y(g))
  }

  function PushIdentity(w: Width): Script
    requires Valid(w)
  {
    PushCopies(0, NLimbs(w)) + PushCopies(0, NLimbs(w))
  }

  lemma {:induction false} PushPointRun<G(!new)>(c: Curve<G>, w: Width, g: G, r: Stack, alt: Stack)
    requires Valid(w) && Coordinates(c, w)
    ensures Exec(PushPoint(c, w, g), Running(r, alt)) == Running(Prepend(PointCells(c, w, g), r), alt)
  {
    hide Exec;
    hide PushNumber;
    hide Prepend;
    hide Capacity;
    hide Number;
    ExecAppend(PushNumber(w, c.x(g)), PushNumber(w, c.y(g)), Running(r, alt));
    PushNumberRun(w, c.x(g), r, alt);
    PushNumberRun(w, c.y(g), On(w, c.x(g), r), alt);
    PrependAppend(Number(w, c.y(g)), Number(w, c.x(g)), r);
  }

  lemma {:induction false} PushIdentityRun<G(!new)>(c: Curve<G>, w: Width, r: Stack, alt: Stack)
    requires Valid(w) && Coordinates(c, w)
    ensures Exec(PushIdentity(w), Running(r, alt)) == Running(Prepend(PointCells(c, w, c.zero), r), alt)
  {
    hide Exec;
    hide PushCopies;
    hide Prepend;
    hide NLimbs;
    hide Number;
    ExecAppend(PushCopies(0, NLimbs(w)), PushCopies(0, NLimbs(w)), Running(r, alt));
    PushZeroRun(w, r, alt);
    PushZeroRun(w, On(w, 0, r), alt);
    PrependAppend(Number(w, 0), Number(w, 0), r);
  }

  // ---------- the table script ----------

  /** `dfs_with_constant_mul`: a tree of conditionals over the bits of the row number, the lowest bit first. */
  function Dfs<G(!new)>(c: Curve<G>, w: Width, index: nat, depth: nat, mask: nat, table: seq<G>): Script
    requires Valid(w) && mask < Pow2(index) && |table| == Pow2(index + depth + 1)
    decreases depth
  {
    Pow2Mono(index + 1, index + depth + 1);
    if depth == 0 then
      [If(PushPoint(c, w, table[mask + Pow2(index)]), if mask == 0 then PushIdentity(w) else PushPoint(c, w, table[mask]))]
    else
      [If(Dfs(c, w, index + 1, depth - 1, mask + Pow2(index), table), Dfs(c, w, index + 1, depth - 1, mask, table))]
  }

  lemma {:induction false} ConditionRun(thn: Script, els: Script, e: int, r: Stack, alt: Stack)
    requires e == 0 || e == 1
    ensures Exec([If(thn, els)], Running(Cell(e, r), alt)) ==
            if e == 1 then Exec(thn, Running(r, alt)) else Exec(els, Running(r, alt))
  {
    hide Exec;
    hide Step;
    MoreStackRules();
    Exec1(If(thn, els), Running(Cell(e, r), alt));
  }

  /** The tree turns the bits of a into row a of the table. */
  lemma {:induction false} DfsRun<G(!new)>(c: Curve<G>, w: Width, index: nat, depth: nat, mask: nat, table: seq<G>, a: nat,
                                           r: Stack, alt: Stack)
    requires Valid(w) && Coordinates(c, w) && mask < Pow2(index) && |table| == Pow2(index + depth + 1) && table[0] == c.zero
    requires a < Pow2(depth + 1)
    ensures 0 <= mask + a * Pow2(index) < |table|
    ensures Exec(Dfs(c, w, index, depth, mask, table), Running(Prepend(Low(depth + 1, 2, a), r), alt)) ==
            Running(Prepend(PointCells(c, w, table[mask + a * Pow2(index)]), r), alt)
    decreases depth
  {
    hide Exec;
    hide Prepend;
    hide PushPoint;
    hide PushIdentity;
    hide PointCells;
    hide Lo;
    hide Up;
    hide Low;
    hide Pow2;
    hide Coordinates;
    var p := Pow2(index);
    var e, u := Lo(a, 2), Up(a, 2);
    RowInRange(index, depth, mask, a);
    LowFirst(depth, a);
    PrependFirst(e, Low(depth, 2, u), r);
    var rest := Prepend(Low(depth, 2, u), r);
    var mask' := mask + (if e == 1 then p else 0);
    Pow2Mono(index + 1, index + depth + 1);
    DoubleOf(index);
    RowSplit(a, e, u, p);
    UpNonNeg(a, 2);
    if depth == 0 {
      UpBelowPower(0, a);
      NoLimbs(2, u);
      NoCells(r);
      var els := if mask == 0 then PushIdentity(w) else PushPoint(c, w, table[mask]);
      ConditionRun(PushPoint(c, w, table[mask + p]), els, e, r, alt);
      PushPointRun(c, w, table[mask + p], r, alt);
      PushIdentityRun(c, w, r, alt);
      PushPointRun(c, w, table[mask], r, alt);
    } else {
      UpBelowPower(depth, a);
      ConditionRun(Dfs(c, w, index + 1, depth - 1, mask + p, table), Dfs(c, w, index + 1, depth - 1, mask, table), e, rest, alt);
      DfsRun(c, w, index + 1, depth - 1, mask', table, u, r, alt);
    }
  }

  lemma {:induction false} LowFirst(depth: nat, a: int)
    ensures Low(depth + 1, 2, a) == [Lo(a, 2)] + Low(depth, 2, Up(a, 2))
  {
  }

  lemma {:induction false} DoubleOf(index: nat)
    ensures Pow2(index + 1) == 2 * Pow2(index) && Pow2(0) == 1
  {
  }

  lemma {:induction false} UpBelowPower(n: nat, a: nat)
    requires a < Pow2(n + 1)
    ensures Up(a, 2) < Pow2(n) && (n == 0 ==> Up(a, 2) == 0)
  {
    hide Lo;
    hide Up;
    Split(a, 2);
    UpNonNeg(a, 2);
    assert n == 0 ==> Pow2(0) == 1;
  }

  lemma {:induction false} RowSplit(a: int, e: int, u: int, p: int)
    requires a == u * 2 + e
    ensures a * p == u * (2 * p) + e * p && (e == 0 ==> e * p == 0) && (e == 1 ==> e * p == p)
  {
    assert (u * 2 + e) * p == u * (2 * p) + e * p;
  }

  lemma {:induction false} RowInRange(index: nat, depth: nat, mask: nat, a: nat)
    requires mask < Pow2(index) && a < Pow2(depth + 1)
    ensures 0 <= mask + a * Pow2(index) < Pow2(index + depth + 1)
    ensures a == Up(a, 2) * 2 + Lo(a, 2)
  {
    hide Lo;
    hide Up;
    Split(a, 2);
    Pow2Add(index, depth + 1);
    var p := Pow2(index);
    MulNonNeg(a, p);
    MulMono(a + 1, Pow2(depth + 1), p);
    assert (a + 1) * p == a * p + p;
  }

  // ---------- the query script ----------

  /** Keeps on the alt stack the bits whose window is `table`, drops the others. */
  function SelectBits(i: nat, size: nat, window: nat, table: nat): Script
    requires i <= size && window > 0
    decreases size - i
  {
    if i == size then [] else [if i / window == table then ToAlt else Drop] + SelectBits(i + 1, size, window, table)
  }

  /** The script of `get_query_for_table_index`. */
  function Query(w: Width, window: nat, table: nat): Script
    requires Valid(w) && window > 0
  {
    var size := NumTables(w.nBits, window) * window;
    LeLimbsToAlt(w) + Repeat([Num(0)], size - w.nBits) + Repeat([FromAlt], w.nBits) +
    SelectBits(0, size, window, table) + Repeat([FromAlt], window)
  }

  /** The bits of the selected window among positions i and up. */
  function Selected(l: seq<int>, i: nat, window: nat, table: nat): seq<int>
    requires window > 0
    decreases |l|
  {
    if l == [] then [] else (if i / window == table then [l[0]] else []) + Selected(l[1..], i + 1, window, table)
  }

  lemma {:induction false} SelectBitsRun(l: seq<int>, i: nat, size: nat, window: nat, table: nat, r: Stack, alt: Stack)
    requires window > 0 && i + |l| == size
    ensures Exec(SelectBits(i, size, window, table), Running(Prepend(l, r), alt)) ==
            Running(r, PushAll(Selected(l, i, window, table), alt))
    decreases |l|
  {
    hide Exec;
    hide Step;
    StackRules();
    MoreStackRules();
    var st := Running(Prepend(l, r), alt);
    if l == [] {
      Exec0(st);
    } else {
      var keep := i / window == table;
      var op := if keep then ToAlt else Drop;
      ExecAppend([op], SelectBits(i + 1, size, window, table), st);
      Exec1(op, st);
      SelectBitsRun(l[1..], i + 1, size, window, table, r, if keep then Cell(l[0], alt) else alt);
      if keep { PushFirst(l[0], Selected(l[1..], i + 1, window, table), alt); }
      assert [] + Selected(l[1..], i + 1, window, table) == Selected(l[1..], i + 1, window, table);
    }
  }

  lemma {:induction false} SelectedOutside(l: seq<int>, i: nat, window: nat, table: nat)
    requires window > 0 && (i + |l| <= table * window || (table + 1) * window <= i)
    ensures Selected(l, i, window, table) == []
    decreases |l|
  {
    if l != [] {
      var q := i / window;
      assert i == q * window + i % window;
      if q == table { SplitProduct(table + 1, window); }
      SelectedOutside(l[1..], i + 1, window, table);
    }
  }

  lemma {:induction false} SelectedInside(l: seq<int>, i: nat, window: nat, table: nat)
    requires window > 0 && table * window <= i && i + |l| <= (table + 1) * window
    ensures Selected(l, i, window, table) == l
    decreases |l|
  {
    if l != [] {
      SplitProduct(table + 1, window);
      DivModUnique(i, window, table, i - table * window);
      SelectedInside(l[1..], i + 1, window, table);
    }
  }

  lemma {:induction false} SelectedAppend(a: seq<int>, b: seq<int>, i: nat, window: nat, table: nat)
    requires window > 0
    ensures Selected(a + b, i, window, table) == Selected(a, i, window, table) + Selected(b, i + |a|, window, table)
    decreases |a|
  {
    if a == [] {
      assert a + b == b;
    } else {
      assert (a + b)[1..] == a[1..] + b && (a + b)[0] == a[0];
      SelectedAppend(a[1..], b, i + 1, window, table);
    }
  }

  /** Window `table` of the bits of v is the bits of that slice. */
  lemma {:induction false} SelectedIsSlice(v: nat, tables: nat, window: nat, table: nat)
    requires window > 0 && table < tables
    ensures tables * window >= 0
    ensures Selected(Low(tables * window, 2, v), 0, window, table) == Low(window, 2, Slice(v, window, table))
  {
    hide Selected;
    hide Low;
    hide Lo;
    hide Up;
    hide Hi;
    hide Pow2;
    var lo, hi := table * window, (tables - table - 1) * window;
    MulNonNeg(table, window);
    MulNonNeg(tables - table - 1, window);
    Windows3(tables, table, window);
    var a, u := Low(lo, 2, v), Hi(lo, 2, v);
    var b, c := Low(window, 2, u), Low(hi, 2, Hi(window, 2, u));
    LowSplit(lo, window + hi, v);
    LowSplit(window, hi, u);
    SelectedAppend(a, b + c, 0, window, table);
    SelectedAppend(b, c, lo, window, table);
    SplitProduct(table + 1, window);
    SelectedOutside(a, 0, window, table);
    SelectedInside(b, lo, window, table);
    SelectedOutside(c, lo + window, window, table);
    assert [] + (b + []) == b;
    HiIsUp(lo, v);
    LimbBits(window, u);
  }

  lemma {:induction false} Windows3(tables: nat, table: nat, window: nat)
    requires table < tables
    ensures tables * window == table * window + (window + (tables - table - 1) * window)
  {
  }

  lemma {:induction false} PushZeros(n: nat, r: Stack, alt: Stack)
    ensures Exec(Repeat([Num(0)], n), Running(r, alt)) == Running(Copies(0, n, r), alt)
    decreases n
  {
    hide Exec;
    hide Step;
    StackRules();
    if n == 0 {
      Exec0(Running(r, alt));
    } else {
      ExecRepeatLast([Num(0)], n, Running(r, alt));
      PushZeros(n - 1, r, alt);
      Exec1(Num(0), Running(Copies(0, n - 1, r), alt));
    }
  }

  lemma {:induction false} ZeroBits(n: nat, r: Stack)
    ensures Copies(0, n, r) == Prepend(Low(n, 2, 0), r)
    decreases n
  {
    if n > 0 {
      SplitUnique(0, 2, 0, 0);
      ZeroBits(n - 1, r);
      PrependFirst(0, Low(n - 1, 2, 0), r);
    }
  }

  /** The query leaves exactly the bits of the window, the lowest on top. */
  lemma {:induction false} QueryRun(w: Width, window: nat, table: nat, v: nat, r: Stack, alt: Stack)
    requires Valid(w) && window > 0 && v < Capacity(w) && table < NumTables(w.nBits, window)
    ensures Exec(Query(w, window, table), Running(On(w, v, r), alt)) ==
            Running(Prepend(Low(window, 2, Slice(v, window, table)), r), alt)
  {
    hide Exec;
    hide LeLimbsToAlt;
    hide SelectBits;
    hide Selected;
    hide Repeat;
    hide Prepend;
    hide PushAll;
    hide On;
    hide NumTables;
    hide Low;
    hide Lo;
    hide Up;
    hide Hi;
    hide Copies;
    var tables := NumTables(w.nBits, window);
    var size := tables * window;
    var n := w.nBits;
    var bits := Low(n, 2, v);
    ExecAppend5(LeLimbsToAlt(w), Repeat([Num(0)], size - n), Repeat([FromAlt], n), SelectBits(0, size, window, table),
                Repeat([FromAlt], window), Running(On(w, v, r), alt));
    LeBitsCorrect(w, v, r, alt);
    PushZeros(size - n, r, PushAll(bits, alt));
    ZeroBits(size - n, r);
    FromAltAll(bits, Prepend(Low(size - n, 2, 0), r), alt);
    LowSplit(n, size - n, v);
    HiIsUp(n, v);
    SplitUnique(v, Pow2(n), 0, v);
    PrependAppend(bits, Low(size - n, 2, 0), r);
    SelectBitsRun(Low(size, 2, v), 0, size, window, table, r, alt);
    SelectedIsSlice(v, tables, window, table);
    FromAltAll(Low(window, 2, Slice(v, window, table)), r, alt);
  }

  /** `fq_to_bits`: the scalar as windows. Two of the 256 bits are skipped; the others are reversed and summed up by chunks. */
  method FqToBits(v: nat, window: nat) returns (chunks: seq<nat>)
    requires window > 0 && v < Pow2(254)
    ensures |chunks| == NumTables(254, window) && forall i :: 0 <= i < |chunks| ==> chunks[i] == Slice(v, window, i)
  {
    hide BitOf;
    hide Pow2;
    var bigEndian: seq<bool> := [];
    for i := 0 to 256
      invariant |bigEndian| == i && forall j :: 0 <= j < i ==> bigEndian[j] == BitOf(v, 255 - j)
    {
      bigEndian := bigEndian + [BitOf(v, 255 - i)];
    }
    var skipped := bigEndian[2..];
    var bits := new bool[254](i requires 0 <= i < 254 => skipped[i]);
    var k := 0;
    while k < 127
      invariant k <= 127
      invariant forall j :: 0 <= j < k ==> bits[j] == skipped[253 - j] && bits[253 - j] == skipped[j]
      invariant forall j :: k <= j < 254 - k ==> bits[j] == skipped[j]
    {
      bits[k], bits[253 - k] := bits[253 - k], bits[k];
      k := k + 1;
    }
    ghost var l := bits[..];
    forall j | 0 <= j < 254 ensures l[j] == BitOf(v, j) {
      assert skipped[253 - j] == bigEndian[255 - j];
      if j >= 127 { assert bits[253 - (253 - j)] == skipped[253 - j]; }
    }
    BitsOfNumber(l, v);
    chunks := GatherChunks(bits[..], window);
    ChunkCount(l, window);
    forall i | 0 <= i < |chunks| ensures chunks[i] == Slice(v, window, i) {
      ChunkIsSlice(l, window, i);
      SliceOfLow(v, 254, window, i);
    }
  }

  /** A list of all bits of a number spells its low part. */
  lemma {:induction false} BitsOfNumber(l: seq<bool>, v: nat)
    requires forall j :: 0 <= j < |l| ==> l[j] == BitOf(v, j)
    ensures BitsValue(l) == Lo(v, Pow2(|l|))
    decreases |l|
  {
    hide BitOf;
    hide Lo;
    hide Pow2;
    if l == [] {
      LoOfOne(v);
    } else {
      var n := |l| - 1;
      assert l == l[..n] + [l[n]];
      BitsOfNumber(l[..n], v);
      PushBit(l[..n], l[n]);
      LimbIo.NextBit(v, n);
    }
  }

  lemma {:induction false} ChunkIsSlice(l: seq<bool>, c: nat, i: nat)
    requires c > 0 && i < |Chunks(l, c)|
    ensures Chunks(l, c)[i] == Slice(BitsValue(l), c, i)
    decreases i
  {
    hide Lo;
    hide Up;
    var v := BitsValue(l);
    if i == 0 {
      assert Pow2(0 * c) == 1;
      SplitUnique(v, 1, v, 0);
      FirstChunk(l, c);
    } else {
      LongerThanChunk(l, c);
      var t := l[c..];
      ChunkIsSlice(t, c, i - 1);
      FirstChunk(l, c);
      MulNonNeg(i - 1, c);
      SplitProduct(i, c);
      Pow2Add(c, (i - 1) * c);
      UpUp(v, Pow2(c), Pow2((i - 1) * c));
    }
  }

  lemma {:induction false} LongerThanChunk(l: seq<bool>, c: nat)
    requires c > 0 && |Chunks(l, c)| > 1
    ensures |l| > c
  {
  }

  lemma {:induction false} FirstChunk(l: seq<bool>, c: nat)
    requires c > 0 && l != []
    ensures Chunks(l, c) != [] && Chunks(l, c)[0] == Lo(BitsValue(l), Pow2(c))
    ensures |l| > c ==> Up(BitsValue(l), Pow2(c)) == BitsValue(l[c..])
  {
    hide Lo;
    hide Up;
    if |l| <= c {
      BitsBound(l);
      Pow2Mono(|l|, c);
      SplitUnique(BitsValue(l), Pow2(c), 0, BitsValue(l));
    } else {
      assert l == l[..c] + l[c..];
      BitsAppend(l[..c], l[c..]);
      BitsBound(l[..c]);
      assert Pow2(c) * BitsValue(l[c..]) == BitsValue(l[c..]) * Pow2(c);
      SplitUnique(BitsValue(l), Pow2(c), BitsValue(l[c..]), BitsValue(l[..c]));
    }
  }

  lemma {:induction false} SliceOfLow(v: nat, n: nat, window: nat, i: nat)
    requires v < Pow2(n)
    ensures Slice(Lo(v, Pow2(n)), window, i) == Slice(v, window, i)
  {
    SplitUnique(v, Pow2(n), 0, v);
  }
}
