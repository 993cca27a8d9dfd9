/** Lookup tables, the batched addition chain and the whole multi-scalar multiplication (bitvm/src/bn254/msm.rs). */
module MsmChain {
  import opened Arithmetic
  import opened Wrappers
  import opened ScriptMachine
  import opened Limbs
  import opened NumberMoves
  import opened LimbIo
  import opened HintMoves
  import opened Msm

  // ---------- tables ----------

  /** The weight of window i. */
  function Weight(window: nat, i: nat): (r: nat)
    ensures r > 0
  {
    MulNonNeg(i, window);
    Pow2(i * window)
  }

  /** Row k of table i is k times the weight of window i times the base. */
  ghost predicate IsTable<G(!new)>(c: Curve<G>, base: G, window: nat, i: nat, table: seq<G>) {
    |table| == Pow2(window) && forall k :: 0 <= k < |table| ==> table[k] == Times(c, k, Times(c, Weight(window, i), base))
  }

  method GenerateLookupTables<G(!new)>(c: Curve<G>, n: nat, base: G, window: nat) returns (tables: seq<seq<G>>)
    requires 0 < n && 0 < window
    ensures |tables| == NumTables(n, window) && forall i :: 0 <= i < |tables| ==> IsTable(c, base, window, i, tables[i])
  {
    tables := [];
    for i := 0 to NumTables(n, window)
      invariant |tables| == i && forall j :: 0 <= j < i ==> IsTable(c, base, window, j, tables[j])
    {
      var doubledBase := Times(c, Weight(window, i), base);
      var row := [c.zero];
      for k := 1 to Pow2(window)
        invariant |row| == k && forall j :: 0 <= j < k ==> row[j] == Times(c, j, doubledBase)
      {
        row := row + [c.plus(row[k - 1], doubledBase)];
      }
      tables := tables + [row];
    }
  }

  // ---------- one lookup ----------

  /** The script turns the scalar on top into the point q. */
  ghost predicate Looks<G(!new)>(script: Script, c: Curve<G>, w: Width, v: nat, q: G)
    requires Valid(w)
  {
    forall r: Stack, alt: Stack {:trigger Exec(script, Running(On(w, v, r), alt))} ::
      Exec(script, Running(On(w, v, r), alt)) == Running(Prepend(PointCells(c, w, q), r), alt)
  }

  /** `query_table`. */
  function LookUp<G(!new)>(c: Curve<G>, w: Width, window: nat, i: nat, table: seq<G>): Script
    requires Valid(w) && window > 0 && |table| == Pow2(window)
  {
    assert Pow2(0) == 1;
    Query(w, window, i) + Dfs(c, w, 0, window - 1, 0, table)
  }

  lemma {:induction false} LookUpRun<G(!new)>(c: Curve<G>, w: Width, window: nat, i: nat, table: seq<G>, base: G, v: nat)
    requires Valid(w) && Coordinates(c, w) && window > 0 && v < Capacity(w) && i < NumTables(w.nBits, window)
    requires IsTable(c, base, window, i, table)
    ensures Looks(LookUp(c, w, window, i, table), c, w, v, table[Slice(v, window, i)])
  {
    hide Exec;
    hide Query;
    hide Dfs;
    hide Prepend;
    hide On;
    hide PointCells;
    hide Slice;
    hide Low;
    hide NumTables;
    hide Coordinates;
    assert Pow2(0) == 1;
    hide Pow2;
    var a := Slice(v, window, i);
    assert table[0] == c.zero;
    forall r: Stack, alt: Stack
      ensures Exec(LookUp(c, w, window, i, table), Running(On(w, v, r), alt)) ==
              Running(Prepend(PointCells(c, w, table[a]), r), alt)
    {
      ExecAppend(Query(w, window, i), Dfs(c, w, 0, window - 1, 0, table), Running(On(w, v, r), alt));
      QueryRun(w, window, i, v, r, alt);
      DfsRun(c, w, 0, window - 1, 0, table, a, r, alt);
      assert 0 + a * 1 == a;
    }
  }

  // ---------- one chunk ----------

  /** Cells that may lie between a point and the hints at the bottom of the stack. */
  const ROOM: nat := 0x4000_0000

  /** What a script ends in that refuses wrong hints. */
  function Ends(right: bool, st: State): State {
    if right then st else Failed
  }

  /** The script replaces the points t and q, q on top, by their sum, and uses up exactly these hints, the deepest cells. A strict
      one fails on any other cells in their place. */
  ghost predicate Adds<G(!new)>(script: Script, hints: seq<int>, c: Curve<G>, w: Width, t: G, q: G, strict: bool)
    requires Valid(w)
  {
    forall l: seq<int>, h: seq<int>, alt: Stack
      {:trigger Exec(script, Running(Prepend(PointCells(c, w, q), Prepend(PointCells(c, w, t), Bottom(l, h))), alt))} ::
      |l| <= ROOM && |h| == |hints| && (strict || h == hints) ==>
      Exec(script, Running(Prepend(PointCells(c, w, q), Prepend(PointCells(c, w, t), Bottom(l, h))), alt)) ==
      Ends(h == hints, Running(Prepend(PointCells(c, w, c.plus(t, q)), Bottom(l, [])), alt))
  }

  datatype Term = Term(look: Script, add: Script, hints: seq<int>)

  /** `vec_add_hints`. */
  function TermHints(terms: seq<Term>): seq<int> {
    if terms == [] then [] else terms[0].hints + TermHints(terms[1..])
  }

  function TermScripts(w: Width, terms: seq<Term>): Script
    requires Valid(w)
  {
    if terms == [] then []
    else
      (CopyNum(w, 0) + Repeat([ToAlt], NLimbs(w)) + terms[0].look + terms[0].add + Repeat([FromAlt], NLimbs(w))) +
      TermScripts(w, terms[1..])
  }

  function CopyPoint(w: Width): Script
    requires Valid(w)
  {
    CopyNum(w, 2) + CopyNum(w, 2)
  }

  /** The script of a chunk: keeps the point it started from below the point it reaches. */
  function ChunkScript(w: Width, terms: seq<Term>): Script
    requires Valid(w)
  {
    var n := NLimbs(w);
    (CopyPoint(w) + (Repeat([ToAlt], n) + Repeat([ToAlt], n))) + TermScripts(w, terms) + DropNum(w) +
    (Repeat([FromAlt], n) + Repeat([FromAlt], n)) + (RollNum(w, 3) + RollNum(w, 3))
  }

  function SumFrom<G(!new)>(c: Curve<G>, t: G, qs: seq<G>): G {
    if qs == [] then t else SumFrom(c, c.plus(t, qs[0]), qs[1..])
  }

  /** Each term looks up its point and adds it to the sum so far. */
  ghost predicate GoodTerms<G(!new)>(c: Curve<G>, w: Width, v: nat, t: G, terms: seq<Term>, qs: seq<G>, strict: bool)
    requires Valid(w)
  {
    |terms| == |qs| &&
    (terms != [] ==>
       Looks(terms[0].look, c, w, v, qs[0]) && Adds(terms[0].add, terms[0].hints, c, w, t, qs[0], strict) &&
       GoodTerms(c, w, v, c.plus(t, qs[0]), terms[1..], qs[1..], strict))
  }

  lemma {:induction false} NoTerms<G(!new)>(c: Curve<G>, w: Width, v: nat, t: G, strict: bool)
    requires Valid(w)
    ensures GoodTerms(c, w, v, t, [], [], strict)
  {
  }

  lemma {:induction false} TermRun<G(!new)>(c: Curve<G>, w: Width, v: nat, t: G, q: G, x: Term, h: seq<int>, strict: bool,
                                            l: seq<int>, alt: Stack)
    requires Valid(w) && NLimbs(w) < 0x7FFF_FF00 && Looks(x.look, c, w, v, q) && Adds(x.add, x.hints, c, w, t, q, strict)
    requires |l| <= ROOM && |h| == |x.hints| && (strict || h == x.hints)
    ensures Exec(CopyNum(w, 0) + Repeat([ToAlt], NLimbs(w)) + x.look + x.add + Repeat([FromAlt], NLimbs(w)),
                 Running(On(w, v, Prepend(PointCells(c, w, t), Bottom(l, h))), alt)) ==
            Ends(h == x.hints, Running(On(w, v, Prepend(PointCells(c, w, c.plus(t, q)), Bottom(l, []))), alt))
  {
    hide Exec;
    hide CopyNum;
    hide Repeat;
    hide Prepend;
    hide PushAll;
    hide PointCells;
    hide Number;
    hide NLimbs;
    hide Bottom;
    var cells := Number(w, v);
    var n := NLimbs(w);
    var rest := Prepend(PointCells(c, w, t), Bottom(l, h));
    ExecAppend5(CopyNum(w, 0), Repeat([ToAlt], n), x.look, x.add, Repeat([FromAlt], n), Running(On(w, v, rest), alt));
    CopyRun(w, 0, [], cells, rest, alt);
    assert [] + cells == cells && cells + [] + cells == cells + cells;
    PrependAppend(cells, cells, rest);
    ToAltAll(cells, On(w, v, rest), alt);
    assert Exec(x.look, Running(On(w, v, rest), PushAll(cells, alt))) == Running(Prepend(PointCells(c, w, q), rest), PushAll(cells, alt));
    var sum := Prepend(PointCells(c, w, c.plus(t, q)), Bottom(l, []));
    assert Exec(x.add, Running(Prepend(PointCells(c, w, q), rest), PushAll(cells, alt))) ==
           Ends(h == x.hints, Running(sum, PushAll(cells, alt)));
    FromAltAll(cells, sum, alt);
    ExecFailed(Repeat([FromAlt], n));
  }

  lemma {:induction false} TermsRun<G(!new)>(c: Curve<G>, w: Width, v: nat, t: G, terms: seq<Term>, qs: seq<G>, h: seq<int>,
                                             strict: bool, l: seq<int>, alt: Stack)
    requires Valid(w) && NLimbs(w) < 0x7FFF_FF00 && GoodTerms(c, w, v, t, terms, qs, strict)
    requires |l| + |h| <= ROOM && |h| == |TermHints(terms)| && (strict || h == TermHints(terms))
    ensures Exec(TermScripts(w, terms), Running(On(w, v, Prepend(PointCells(c, w, t), Bottom(l, h))), alt)) ==
            Ends(h == TermHints(terms), Running(On(w, v, Prepend(PointCells(c, w, SumFrom(c, t, qs)), Bottom(l, []))), alt))
    decreases |terms|
  {
    hide Exec;
    hide CopyNum;
    hide Repeat;
    hide Prepend;
    hide PointCells;
    hide On;
    hide NLimbs;
    hide Looks;
    hide Adds;
    hide Bottom;
    hide Reverse;
    var st := Running(On(w, v, Prepend(PointCells(c, w, t), Bottom(l, h))), alt);
    if terms == [] {
      Exec0(st);
      assert h == [];
    } else {
      var x, rest := terms[0], TermScripts(w, terms[1..]);
      var first, later := h[..|x.hints|], h[|x.hints|..];
      SameHints(h, x.hints, TermHints(terms[1..]));
      ExecAppend(CopyNum(w, 0) + Repeat([ToAlt], NLimbs(w)) + x.look + x.add + Repeat([FromAlt], NLimbs(w)), rest, st);
      LaterHints(l, first, later);
      TermRun(c, w, v, t, qs[0], x, first, strict, l + Reverse(later), alt);
      ExecFailed(rest);
      TermsRun(c, w, v, c.plus(t, qs[0]), terms[1..], qs[1..], later, strict, l, alt);
    }
  }

  /** Cells in place of two runs of hints. */
  lemma {:induction false} SameHints(h: seq<int>, first: seq<int>, later: seq<int>)
    requires |h| == |first| + |later|
    ensures h == h[..|first|] + h[|first|..]
    ensures h == first + later <==> h[..|first|] == first && h[|first|..] == later
  {
    assert (first + later)[..|first|] == first && (first + later)[|first|..] == later;
  }

  lemma {:induction false} CopyPointRun(w: Width, nv: seq<int>, ny: seq<int>, nx: seq<int>, r: Stack, alt: Stack)
    requires Valid(w) && |nv| == |ny| == |nx| == NLimbs(w) && 4 * NLimbs(w) < 0x7FFF_FF00
    ensures Exec(CopyPoint(w), Running(Prepend(nv + ny + nx, r), alt)) == Running(Prepend(ny + nx + (nv + ny + nx), r), alt)
  {
    hide Exec;
    hide CopyNum;
    hide Prepend;
    hide NLimbs;
    ExecAppend(CopyNum(w, 2), CopyNum(w, 2), Running(Prepend(nv + ny + nx, r), alt));
    CopyRun(w, 2, nv + ny, nx, r, alt);
    assert nx + (nv + ny) + nx == nx + nv + ny + nx;
    PrependAppend(nx + nv + ny, nx, r);
    CopyRun(w, 2, nx + nv, ny, Prepend(nx, r), alt);
    PrependAppend(ny + (nx + nv) + ny, nx, r);
    assert ny + (nx + nv) + ny + nx == ny + nx + (nv + ny + nx);
  }

  lemma {:induction false} SwapPointsRun(w: Width, y1: seq<int>, x1: seq<int>, y2: seq<int>, x2: seq<int>, r: Stack, alt: Stack)
    requires Valid(w) && |y1| == |x1| == |y2| == |x2| == NLimbs(w) && 4 * NLimbs(w) < 0x7FFF_FF00
    ensures Exec(RollNum(w, 3) + RollNum(w, 3), Running(Prepend(y1 + x1 + y2 + x2, r), alt)) ==
            Running(Prepend(y2 + x2 + y1 + x1, r), alt)
  {
    hide Exec;
    hide RollNum;
    hide Prepend;
    hide NLimbs;
    ExecAppend(RollNum(w, 3), RollNum(w, 3), Running(Prepend(y1 + x1 + y2 + x2, r), alt));
    RollRun(w, 3, y1 + x1 + y2, x2, r, alt);
    assert x2 + (y1 + x1 + y2) == x2 + y1 + x1 + y2;
    RollRun(w, 3, x2 + y1 + x1, y2, r, alt);
    assert y2 + (x2 + y1 + x1) == y2 + x2 + y1 + x1;
  }

  lemma {:induction false} TwoToAlt(a: seq<int>, b: seq<int>, n: nat, r: Stack, alt: Stack)
    requires |a| == |b| == n
    ensures Exec(Repeat([ToAlt], n) + Repeat([ToAlt], n), Running(Prepend(a + b, r), alt)) == Running(r, PushAll(a + b, alt))
    ensures Exec(Repeat([FromAlt], n) + Repeat([FromAlt], n), Running(r, PushAll(a + b, alt))) == Running(Prepend(a + b, r), alt)
  {
    hide Exec;
    hide Repeat;
    hide Prepend;
    hide PushAll;
    PrependAppend(a, b, r);
    PushAllAppend(a, b, alt);
    ExecAppend(Repeat([ToAlt], n), Repeat([ToAlt], n), Running(Prepend(a + b, r), alt));
    ToAltAll(a, Prepend(b, r), alt);
    ToAltAll(b, r, PushAll(a, alt));
    ExecAppend(Repeat([FromAlt], n), Repeat([FromAlt], n), Running(r, PushAll(a + b, alt)));
    FromAltAll(b, r, PushAll(a, alt));
    FromAltAll(a, Prepend(b, r), alt);
  }

  /** A chunk goes from the point t and the scalar to t and the sum. */
  lemma {:induction false} ChunkRun<G(!new)>(c: Curve<G>, w: Width, v: nat, t: G, terms: seq<Term>, qs: seq<G>, h: seq<int>,
                                             strict: bool, l: seq<int>, alt: Stack)
    requires Valid(w) && 4 * NLimbs(w) < 0x7FFF_FF00 && GoodTerms(c, w, v, t, terms, qs, strict)
    requires |l| + |h| <= ROOM && |h| == |TermHints(terms)| && (strict || h == TermHints(terms))
    ensures Exec(ChunkScript(w, terms), Running(On(w, v, Prepend(PointCells(c, w, t), Bottom(l, h))), alt)) ==
            Ends(h == TermHints(terms),
                 Running(Prepend(PointCells(c, w, SumFrom(c, t, qs)), Prepend(PointCells(c, w, t), Bottom(l, []))), alt))
  {
    hide Exec;
    hide CopyPoint;
    hide TermScripts;
    hide DropNum;
    hide RollNum;
    hide Repeat;
    hide Prepend;
    hide PushAll;
    hide Number;
    hide NLimbs;
    hide GoodTerms;
    hide SumFrom;
    hide Bottom;
    hide TermHints;
    var r, end := Bottom(l, h), Bottom(l, []);
    var n := NLimbs(w);
    var u := SumFrom(c, t, qs);
    var nv, ny, nx := Number(w, v), Number(w, c.y(t)), Number(w, c.x(t));
    var tc, uc := PointCells(c, w, t), PointCells(c, w, u);
    var rest := Prepend(tc, r);
    var st := Running(On(w, v, rest), alt);
    var copy := CopyPoint(w) + (Repeat([ToAlt], n) + Repeat([ToAlt], n));
    ExecAppend5(copy, TermScripts(w, terms), DropNum(w), Repeat([FromAlt], n) + Repeat([FromAlt], n),
                RollNum(w, 3) + RollNum(w, 3), st);
    ExecAppend(CopyPoint(w), Repeat([ToAlt], n) + Repeat([ToAlt], n), st);
    PrependAppend(nv, tc, r);
    assert nv + tc == nv + ny + nx;
    CopyPointRun(w, nv, ny, nx, r, alt);
    PrependAppend(tc, nv + ny + nx, r);
    TwoToAlt(ny, nx, n, On(w, v, rest), alt);
    TermsRun(c, w, v, t, terms, qs, h, strict, l, PushAll(tc, alt));
    ExecFailed(DropNum(w));
    ExecFailed(Repeat([FromAlt], n) + Repeat([FromAlt], n));
    ExecFailed(RollNum(w, 3) + RollNum(w, 3));
    var after := Prepend(uc, end);
    DropRun(w, nv, after, PushAll(tc, alt));
    TwoToAlt(ny, nx, n, after, alt);
    PrependAppend(tc, uc, end);
    var uy, ux := Number(w, c.y(u)), Number(w, c.x(u));
    assert tc + uc == ny + nx + uy + ux && uc + tc == uy + ux + ny + nx;
    SwapPointsRun(w, ny, nx, uy, ux, end, alt);
    PrependAppend(uc, tc, end);
  }

  // ---------- the addition chain ----------

  /** The additions for which `hinted_check_add_prevent_degenerate` refuses to generate a script. */
  predicate Degenerate<G(!new, ==)>(c: Curve<G>, t: G, q: G) {
    t == q || t == c.neg(q)
  }

  /** The accumulator after i windows. */
  function Partial<G(!new)>(c: Curve<G>, init: G, base: G, v: nat, window: nat, i: nat): G {
    c.plus(init, Times(c, LowPart(v, window, i), base))
  }

  /** The point that window i adds. */
  function WindowPoint<G(!new)>(c: Curve<G>, base: G, v: nat, window: nat, i: nat): G {
    Times(c, Slice(v, window, i), Times(c, Weight(window, i), base))
  }

  lemma {:induction false} PartialStep<G(!new)>(c: Curve<G>, init: G, base: G, v: nat, window: nat, i: nat)
    requires Abelian(c)
    ensures Partial(c, init, base, v, window, i + 1) ==
            c.plus(Partial(c, init, base, v, window, i), WindowPoint(c, base, v, window, i))
  {
    hide Times;
    hide Slice;
    hide LowPart;
    NextWindow(v, window, i);
    MulNonNeg(i, window);
    var a, b := Slice(v, window, i) * Pow2(i * window), LowPart(v, window, i);
    MulNonNeg(Slice(v, window, i), Pow2(i * window));
    TimesAdd(c, b, a, base);
    TimesTimes(c, Slice(v, window, i), Weight(window, i), base);
  }

  lemma {:induction false} PartialEnds<G(!new)>(c: Curve<G>, init: G, base: G, v: nat, window: nat, n: nat)
    requires Abelian(c) && window > 0 && n > 0 && v < Pow2(n)
    ensures Partial(c, init, base, v, window, 0) == init
    ensures Partial(c, init, base, v, window, NumTables(n, window)) == c.plus(init, Times(c, v, base))
  {
    hide NumTables;
    hide Lo;
    var t := NumTables(n, window);
    assert Pow2(0) == 1;
    SplitUnique(v, 1, v, 0);
    Pow2Mono(n, t * window);
    SplitUnique(v, Pow2(t * window), 0, v);
    assert LowPart(v, window, 0) == 0;
    assert LowPart(v, window, t) == v;
  }

  /** No addition of the chain is degenerate. */
  ghost predicate Smooth<G(!new)>(c: Curve<G>, init: G, base: G, v: nat, window: nat, tables: nat) {
    forall i :: 0 <= i < tables ==> !Degenerate(c, Partial(c, init, base, v, window, i), WindowPoint(c, base, v, window, i))
  }

  lemma {:induction false} SmoothStep<G(!new)>(c: Curve<G>, init: G, base: G, v: nat, window: nat, i: nat, tables: nat)
    requires i < tables
    ensures Smooth(c, init, base, v, window, 0)
    ensures Smooth(c, init, base, v, window, i + 1) <==>
            Smooth(c, init, base, v, window, i) &&
            !Degenerate(c, Partial(c, init, base, v, window, i), WindowPoint(c, base, v, window, i))
    ensures Smooth(c, init, base, v, window, tables) ==> Smooth(c, init, base, v, window, i + 1)
  {
    hide Degenerate;
    hide Partial;
    hide WindowPoint;
  }

  /** Written out: no sum so far is the point that the next window adds, or its negative. */
  lemma {:induction false} SmoothWritten<G(!new)>(c: Curve<G>, init: G, base: G, v: nat, window: nat)
    requires window > 0
    ensures Smooth(c, init, base, v, window, NumTables(254, window)) <==>
            forall i: nat :: i * window < 254 ==>
              var sum := c.plus(init, Times(c, v % Weight(window, i), base));
              var q := Times(c, v / Weight(window, i) % Pow2(window), Times(c, Weight(window, i), base));
              sum != q && sum != c.neg(q)
  {
    hide Times;
    hide Pow2;
    var t := NumTables(254, window);
    hide NumTables;
    forall i: nat
      ensures i < t <==> i * window < 254
      ensures Partial(c, init, base, v, window, i) == c.plus(init, Times(c, v % Weight(window, i), base))
      ensures WindowPoint(c, base, v, window, i) == Times(c, v / Weight(window, i) % Pow2(window), Times(c, Weight(window, i), base))
    {
      if i < t { MulMono(i, t - 1, window); } else { MulMono(t, i, window); }
    }
  }

  /** `hinted_check_add_prevent_degenerate`: for every two points a script and the cells of its hints, deepest first. */
  datatype Addition<!G(!new)> = Addition(script: (G, G) -> Script, hints: (G, G) -> seq<int>)

  /** The script replaces any two points whose addition is not degenerate by their sum. */
  ghost predicate AdditionScripts<G(!new)>(c: Curve<G>, w: Width, add: Addition<G>, strict: bool)
    requires Valid(w)
  {
    forall t, q :: !Degenerate(c, t, q) ==> Adds(add.script(t, q), add.hints(t, q), c, w, t, q, strict)
  }

  /** What the scripts, as opposed to the values, depend on. */
  ghost predicate Scripted<G(!new)>(c: Curve<G>, w: Width, add: Addition<G>, strict: bool)
    requires Valid(w)
  {
    Coordinates(c, w) && AdditionScripts(c, w, add, strict)
  }

  datatype Chunk<!G> = Chunk(value: G, script: Script, hints: seq<int>)

  /** From the point t and the scalar, with its hints at the bottom of the stack, the chunk reaches t and the next point. */
  ghost predicate Moves<G(!new)>(x: Chunk<G>, c: Curve<G>, w: Width, v: nat, t: G, strict: bool)
    requires Valid(w)
  {
    forall l: seq<int>, h: seq<int>, alt: Stack
      {:trigger Exec(x.script, Running(On(w, v, Prepend(PointCells(c, w, t), Bottom(l, h))), alt))} ::
      |l| + |h| <= ROOM && |h| == |x.hints| && (strict || h == x.hints) ==>
      Exec(x.script, Running(On(w, v, Prepend(PointCells(c, w, t), Bottom(l, h))), alt)) ==
      Ends(h == x.hints, Running(Prepend(PointCells(c, w, x.value), Prepend(PointCells(c, w, t), Bottom(l, []))), alt))
  }

  lemma {:induction false} ChunkMoves<G(!new)>(c: Curve<G>, w: Width, v: nat, t: G, terms: seq<Term>, qs: seq<G>, strict: bool)
    requires Valid(w) && 4 * NLimbs(w) < 0x7FFF_FF00 && GoodTerms(c, w, v, t, terms, qs, strict)
    ensures Moves(Chunk(SumFrom(c, t, qs), ChunkScript(w, terms), TermHints(terms)), c, w, v, t, strict)
  {
    hide Exec;
    hide ChunkScript;
    hide Prepend;
    hide On;
    hide PointCells;
    hide GoodTerms;
    hide SumFrom;
    hide NLimbs;
    hide Bottom;
    hide TermHints;
    forall l: seq<int>, h: seq<int>, alt: Stack |
      |l| + |h| <= ROOM && |h| == |TermHints(terms)| && (strict || h == TermHints(terms))
      ensures Exec(ChunkScript(w, terms), Running(On(w, v, Prepend(PointCells(c, w, t), Bottom(l, h))), alt)) ==
              Ends(h == TermHints(terms),
                   Running(Prepend(PointCells(c, w, SumFrom(c, t, qs)), Prepend(PointCells(c, w, t), Bottom(l, []))), alt))
    {
      ChunkRun(c, w, v, t, terms, qs, h, strict, l, alt);
    }
  }

  lemma {:induction false} OneMoreTerm<G(!new)>(c: Curve<G>, w: Width, v: nat, t: G, terms: seq<Term>, qs: seq<G>, x: Term, q: G,
                                                strict: bool)
    requires Valid(w) && GoodTerms(c, w, v, t, terms, qs, strict)
    requires Looks(x.look, c, w, v, q) && Adds(x.add, x.hints, c, w, SumFrom(c, t, qs), q, strict)
    ensures GoodTerms(c, w, v, t, terms + [x], qs + [q], strict)
    ensures SumFrom(c, t, qs + [q]) == c.plus(SumFrom(c, t, qs), q)
    decreases |terms|
  {
    hide Looks;
    hide Adds;
    if terms == [] {
      assert [] + [x] == [x] && [] + [q] == [q] && [x][1..] == [] && [q][1..] == [];
    } else {
      assert (terms + [x])[1..] == terms[1..] + [x] && (qs + [q])[1..] == qs[1..] + [q];
      OneMoreTerm(c, w, v, c.plus(t, qs[0]), terms[1..], qs[1..], x, q, strict);
    }
  }

  function Least(a: nat, b: nat): nat {
    if a < b then a else b
  }

  /** Chunks in a chain. */
  function NumChunks(window: nat, batch: nat): nat
    requires window > 0 && batch > 0
  {
    DivNonNeg(NumTables(254, window) + batch - 1, batch);
    (NumTables(254, window) + batch - 1) / batch
  }

  /** k batches reach table `next`; all of them but the last are full. */
  ghost predicate Batched(k: nat, batch: nat, next: nat, tables: nat)
    requires batch > 0
  {
    next == Least(k * batch, tables) && (k > 0 ==> (k - 1) * batch < tables)
  }

  lemma {:induction false} OneMoreBatch(k: nat, batch: nat, tables: nat)
    requires batch > 0 && Batched(k, batch, Least(k * batch, tables), tables) && k * batch < tables
    ensures Batched(k + 1, batch, Least(k * batch + batch, tables), tables)
  {
    SplitProduct(k + 1, batch);
  }

  lemma {:induction false} AllBatched(k: nat, batch: nat, tables: nat)
    requires batch > 0 && tables > 0 && Batched(k, batch, tables, tables)
    ensures k == (tables + batch - 1) / batch > 0
  {
    if k > 0 {
      SplitProduct(k, batch);
      DivModUnique(tables + batch - 1, batch, k, tables + batch - 1 - k * batch);
    }
  }

  /** Chunk j ends at the sum after j + 1 batches of windows. */
  ghost predicate Valued<G(!new)>(c: Curve<G>, init: G, base: G, v: nat, window: nat, batch: nat, tables: nat, l: seq<Chunk<G>>) {
    forall j: nat :: j < |l| ==> l[j].value == c.plus(init, Times(c, v % Weight(window, Least((j + 1) * batch, tables)), base))
  }

  lemma {:induction false} ValuedOne<G(!new)>(c: Curve<G>, init: G, base: G, v: nat, window: nat, batch: nat, tables: nat,
                                              l: seq<Chunk<G>>, x: Chunk<G>)
    requires Valued(c, init, base, v, window, batch, tables, l)
    requires x.value == Partial(c, init, base, v, window, Least((|l| + 1) * batch, tables))
    ensures Valued(c, init, base, v, window, batch, tables, l + [x])
  {
    hide Times;
    hide Pow2;
  }

  lemma {:induction false} ValuedNone<G(!new)>(c: Curve<G>, init: G, base: G, v: nat, window: nat, batch: nat, tables: nat)
    ensures Valued(c, init, base, v, window, batch, tables, [])
  {
  }

  /** `accumulate_addition_chain_for_a_scalar_mul`: batches of table lookups and additions. It panics on a degenerate addition,
      and otherwise the last chunk's point is init plus v times the base; if the addition scripts do what they should, each chunk
      moves from the point of the one before it to its own. */
  method AccumulateAdditionChain<G(!new, ==)>(c: Curve<G>, w: Width, init: G, base: G, v: nat, window: nat, batch: nat,
                                              add: Addition<G>, ghost strict: bool) returns (chunks: Option<seq<Chunk<G>>>)
    requires Abelian(c) && Valid(w) && w.nBits == 254
    requires window > 0 && batch > 0 && v < Capacity(w) && 4 * NLimbs(w) < 0x7FFF_FF00
    ensures chunks.Some? <==> Smooth(c, init, base, v, window, NumTables(254, window))
    ensures chunks.Some? <==>
            forall i: nat :: i * window < 254 ==>
              var sum := c.plus(init, Times(c, v % Weight(window, i), base));
              var q := Times(c, v / Weight(window, i) % Pow2(window), Times(c, Weight(window, i), base));
              sum != q && sum != c.neg(q)
    ensures chunks.Some? ==> |chunks.value| == NumChunks(window, batch) > 0
    ensures chunks.Some? ==> Valued(c, init, base, v, window, batch, NumTables(254, window), chunks.value)
    ensures chunks.Some? ==> chunks.value[|chunks.value| - 1].value == c.plus(init, Times(c, v, base))
    ensures chunks.Some? && Scripted(c, w, add, strict) ==> Linked(c, w, v, init, chunks.value, strict)
  {
    hide Times;
    hide NumTables;
    hide GoodTerms;
    hide Partial;
    hide WindowPoint;
    hide Slice;
    hide IsTable;
    hide Looks;
    hide Adds;
    hide Moves;
    hide LookUp;
    hide ChunkScript;
    hide TermHints;
    hide Coordinates;
    hide Linked;
    hide Scripted;
    hide Abelian;
    hide NLimbs;
    hide Pow2;
    hide Valued;
    hide Weight;
    hide Smooth;
    SmoothWritten(c, init, base, v, window);
    var numTables := NumTables(254, window);
    var tables := GenerateLookupTables(c, 254, base, window);
    var slices := FqToBits(v, window);
    PartialEnds(c, init, base, v, window, 254);
    SmoothStep(c, init, base, v, window, 0, numTables);
    NoChunks(c, w, v, init, strict);
    ValuedNone(c, init, base, v, window, batch, numTables);
    var prev := init;
    var rows: seq<Chunk<G>> := [];
    var next := 0;
    while next < numTables
      invariant next <= numTables && prev == Partial(c, init, base, v, window, next)
      invariant Smooth(c, init, base, v, window, next)
      invariant if rows == [] then next == 0 && prev == init else rows[|rows| - 1].value == prev
      invariant Batched(|rows|, batch, next, numTables)
      invariant Valued(c, init, base, v, window, batch, numTables, rows)
      invariant Scripted(c, w, add, strict) ==> Linked(c, w, v, init, rows, strict)
    {
      var end := Least(next + batch, numTables);
      ghost var start := prev;
      var terms: seq<Term> := [];
      ghost var qs: seq<G> := [];
      NoTerms(c, w, v, start, strict);
      while next < end
        invariant next <= end && prev == Partial(c, init, base, v, window, next)
        invariant Smooth(c, init, base, v, window, next)
        invariant prev == SumFrom(c, start, qs) && (Scripted(c, w, add, strict) ==> GoodTerms(c, w, v, start, terms, qs, strict))
      {
        var row := LookUpRow(c, w, base, v, window, next, tables[next], slices[next]);
        SmoothStep(c, init, base, v, window, next, numTables);
        if Degenerate(c, prev, row.0) {
          assert !Smooth(c, init, base, v, window, numTables);
          return None;
        }
        var term := Term(row.1, add.script(prev, row.0), add.hints(prev, row.0));
        PartialStep(c, init, base, v, window, next);
        SumOneMore(c, start, qs, row.0);
        if Scripted(c, w, add, strict) {
          ScriptedAdds(c, w, add, prev, row.0, strict);
          OneMoreTerm(c, w, v, start, terms, qs, term, row.0, strict);
        }
        terms := terms + [term];
        qs := qs + [row.0];
        prev := c.plus(prev, row.0);
        next := next + 1;
      }
      var chunk := Chunk(prev, ChunkScript(w, terms), TermHints(terms));
      if Scripted(c, w, add, strict) {
        ChunkMoves(c, w, v, start, terms, qs, strict);
        LinkOne(c, w, v, init, rows, chunk, strict);
      }
      OneMoreBatch(|rows|, batch, numTables);
      ValuedOne(c, init, base, v, window, batch, numTables, rows, chunk);
      rows := rows + [chunk];
    }
    AllBatched(|rows|, batch, numTables);
    chunks := Some(rows);
  }

  lemma {:induction false} ScriptedAdds<G(!new)>(c: Curve<G>, w: Width, add: Addition<G>, t: G, q: G, strict: bool)
    requires Valid(w) && Scripted(c, w, add, strict)
    ensures Coordinates(c, w) && (!Degenerate(c, t, q) ==> Adds(add.script(t, q), add.hints(t, q), c, w, t, q, strict))
  {
    hide Adds;
    hide Coordinates;
  }

  lemma {:induction false} SumOneMore<G(!new)>(c: Curve<G>, t: G, qs: seq<G>, q: G)
    ensures SumFrom(c, t, qs + [q]) == c.plus(SumFrom(c, t, qs), q)
    decreases |qs|
  {
    if qs == [] {
      assert [] + [q] == [q] && [q][1..] == [];
    } else {
      assert (qs + [q])[1..] == qs[1..] + [q];
      SumOneMore(c, c.plus(t, qs[0]), qs[1..], q);
    }
  }

  lemma {:induction false} NoChunks<G(!new)>(c: Curve<G>, w: Width, v: nat, init: G, strict: bool)
    requires Valid(w)
    ensures Linked(c, w, v, init, [], strict)
  {
  }

  /** The looked-up point and the script that looks it up. */
  function LookUpRow<G(!new)>(c: Curve<G>, w: Width, ghost base: G, ghost v: nat, window: nat, i: nat, table: seq<G>, slice: nat):
      (r: (G, Script))
    requires Valid(w) && w.nBits == 254 && window > 0 && v < Capacity(w) && i < NumTables(254, window)
    requires IsTable(c, base, window, i, table) && slice == Slice(v, window, i)
    ensures r.0 == WindowPoint(c, base, v, window, i) && (Coordinates(c, w) ==> Looks(r.1, c, w, v, r.0))
  {
    assert Coordinates(c, w) ==> Looks(LookUp(c, w, window, i, table), c, w, v, table[slice]) by {
      if Coordinates(c, w) { LookUpRun(c, w, window, i, table, base, v); }
    }
    (table[slice], LookUp(c, w, window, i, table))
  }

  /** The point where chunk j starts. */
  function Before<G(!new)>(init: G, l: seq<Chunk<G>>, j: nat): G
    requires j <= |l|
  {
    if j == 0 then init else l[j - 1].value
  }

  /** Every chunk starts at the value of the one before it, the first at init. */
  ghost predicate Linked<G(!new)>(c: Curve<G>, w: Width, v: nat, init: G, l: seq<Chunk<G>>, strict: bool)
    requires Valid(w)
  {
    forall j: nat :: j < |l| ==> Moves(l[j], c, w, v, Before(init, l, j), strict)
  }

  lemma {:induction false} LinkOne<G(!new)>(c: Curve<G>, w: Width, v: nat, init: G, l: seq<Chunk<G>>, x: Chunk<G>,
                                            strict: bool)
    requires Valid(w) && Linked(c, w, v, init, l, strict)
    requires Moves(x, c, w, v, Before(init, l, |l|), strict)
    ensures Linked(c, w, v, init, l + [x], strict)
  {
    hide Moves;
    var m := l + [x];
    forall j: nat | j < |m| ensures Moves(m[j], c, w, v, Before(init, m, j), strict) {
      assert Before(init, m, j) == Before(init, l, j);
      if j < |l| { assert m[j] == l[j]; }
    }
  }

  // ---------- the whole sum ----------

  function MsmSum<G(!new)>(c: Curve<G>, bases: seq<G>, scalars: seq<nat>): G
    requires |bases| == |scalars|
  {
    if bases == [] then c.zero
    else
      var n := |bases| - 1;
      c.plus(MsmSum(c, bases[..n], scalars[..n]), Times(c, scalars[n], bases[n]))
  }

  /** No addition in the chains of the first i scalars is degenerate. */
  ghost predicate SmoothSum<G(!new)>(c: Curve<G>, bases: seq<G>, scalars: seq<nat>, i: nat, window: nat)
    requires |bases| == |scalars| && i <= |bases| && window > 0
  {
    forall j :: 0 <= j < i ==> Smooth(c, MsmSum(c, bases[..j], scalars[..j]), bases[j], scalars[j], window, NumTables(254, window))
  }

  lemma {:induction false} SmoothSumWritten<G(!new)>(c: Curve<G>, bases: seq<G>, scalars: seq<nat>, window: nat)
    requires |bases| == |scalars| && window > 0
    ensures SmoothSum(c, bases, scalars, |bases|, window) <==>
            forall j: nat, i: nat :: j < |bases| && i * window < 254 ==>
              var sum := c.plus(MsmSum(c, bases[..j], scalars[..j]), Times(c, scalars[j] % Weight(window, i), bases[j]));
              var q := Times(c, scalars[j] / Weight(window, i) % Pow2(window), Times(c, Weight(window, i), bases[j]));
              sum != q && sum != c.neg(q)
  {
    hide Smooth;
    hide Times;
    hide MsmSum;
    hide Weight;
    hide Pow2;
    hide NumTables;
    forall j: nat | j < |bases|
      ensures Smooth(c, MsmSum(c, bases[..j], scalars[..j]), bases[j], scalars[j], window, NumTables(254, window)) <==>
              forall i: nat :: i * window < 254 ==>
                var sum := c.plus(MsmSum(c, bases[..j], scalars[..j]), Times(c, scalars[j] % Weight(window, i), bases[j]));
                var q := Times(c, scalars[j] / Weight(window, i) % Pow2(window), Times(c, Weight(window, i), bases[j]));
                sum != q && sum != c.neg(q)
    {
      SmoothWritten(c, MsmSum(c, bases[..j], scalars[..j]), bases[j], scalars[j], window);
    }
  }

  lemma {:induction false} SmoothSumNone<G(!new)>(c: Curve<G>, bases: seq<G>, scalars: seq<nat>, window: nat)
    requires |bases| == |scalars| && window > 0
    ensures SmoothSum(c, bases, scalars, 0, window)
  {
  }

  lemma {:induction false} SmoothSumStep<G(!new)>(c: Curve<G>, bases: seq<G>, scalars: seq<nat>, i: nat, window: nat)
    requires |bases| == |scalars| && i < |bases| && window > 0
    ensures SmoothSum(c, bases, scalars, i + 1, window) <==>
            SmoothSum(c, bases, scalars, i, window) &&
            Smooth(c, MsmSum(c, bases[..i], scalars[..i]), bases[i], scalars[i], window, NumTables(254, window))
    ensures SmoothSum(c, bases, scalars, |bases|, window) ==> SmoothSum(c, bases, scalars, i + 1, window)
  {
    hide Smooth;
    hide MsmSum;
    hide NumTables;
  }

  /** The chain of scalar j ends at the sum that includes it. */
  ghost predicate Reaches<G(!new)>(c: Curve<G>, bases: seq<G>, scalars: seq<nat>, j: nat, chain: seq<Chunk<G>>)
    requires |bases| == |scalars| && j < |bases|
  {
    chain != [] && chain[|chain| - 1].value == MsmSum(c, bases[..j + 1], scalars[..j + 1])
  }

  /** Its scripts run from the sum before it. */
  ghost predicate Chained<G(!new)>(c: Curve<G>, w: Width, bases: seq<G>, scalars: seq<nat>, j: nat, chain: seq<Chunk<G>>,
                                   strict: bool)
    requires Valid(w) && |bases| == |scalars| && j < |bases|
  {
    Linked(c, w, scalars[j], MsmSum(c, bases[..j], scalars[..j]), chain, strict)
  }

  /** `g1_multi_scalar_mul`: the chain of each scalar starts where the previous one ended. */
  method MultiScalarMul<G(!new, ==)>(c: Curve<G>, w: Width, bases: seq<G>, scalars: seq<nat>, window: nat, batch: nat,
                                     add: Addition<G>, ghost strict: bool) returns (chains: Option<seq<seq<Chunk<G>>>>)
    requires Abelian(c) && Valid(w) && w.nBits == 254
    requires window > 0 && batch > 0 && 4 * NLimbs(w) < 0x7FFF_FF00
    requires |bases| == |scalars| && forall v :: v in scalars ==> v < Capacity(w)
    ensures chains.Some? <==> SmoothSum(c, bases, scalars, |bases|, window)
    ensures chains.Some? <==>
            forall j: nat, i: nat :: j < |bases| && i * window < 254 ==>
              var sum := c.plus(MsmSum(c, bases[..j], scalars[..j]), Times(c, scalars[j] % Weight(window, i), bases[j]));
              var q := Times(c, scalars[j] / Weight(window, i) % Pow2(window), Times(c, Weight(window, i), bases[j]));
              sum != q && sum != c.neg(q)
    ensures chains.Some? ==> |chains.value| == |bases|
    ensures chains.Some? ==> forall j :: 0 <= j < |bases| ==> |chains.value[j]| == NumChunks(window, batch) > 0
    ensures chains.Some? ==> forall j :: 0 <= j < |bases| ==> Reaches(c, bases, scalars, j, chains.value[j])
    ensures chains.Some? && Scripted(c, w, add, strict) ==> forall j :: 0 <= j < |bases| ==> Chained(c, w, bases, scalars, j, chains.value[j], strict)
  {
    hide Smooth;
    hide Linked;
    hide Reaches;
    hide Chained;
    hide Scripted;
    hide MsmSum;
    hide Abelian;
    hide NumTables;
    hide NumChunks;
    hide NLimbs;
    hide Weight;
    hide Times;
    hide SmoothSum;
    hide Pow2;
    hide Capacity;
    SmoothSumWritten(c, bases, scalars, window);
    var prev := c.zero;
    var all: seq<seq<Chunk<G>>> := [];
    EmptySum(c, bases, scalars);
    SmoothSumNone(c, bases, scalars, window);
    for i := 0 to |bases|
      invariant |all| == i && prev == MsmSum(c, bases[..i], scalars[..i]) && SmoothSum(c, bases, scalars, i, window)
      invariant forall j :: 0 <= j < i ==> |all[j]| == NumChunks(window, batch) > 0
      invariant forall j :: 0 <= j < i ==> Reaches(c, bases, scalars, j, all[j])
      invariant Scripted(c, w, add, strict) ==> forall j :: 0 <= j < i ==> Chained(c, w, bases, scalars, j, all[j], strict)
    {
      assert scalars[i] in scalars;
      SmoothSumStep(c, bases, scalars, i, window);
      var chain := AccumulateAdditionChain(c, w, prev, bases[i], scalars[i], window, batch, add, strict);
      if chain.None? { return None; }
      MsmStep(c, bases, scalars, i);
      ChainReaches(c, bases, scalars, i, chain.value);
      if Scripted(c, w, add, strict) { ChainIsChained(c, w, bases, scalars, i, chain.value, strict); }
      prev := chain.value[|chain.value| - 1].value;
      all := all + [chain.value];
    }
    chains := Some(all);
  }

  lemma {:induction false} EmptySum<G(!new)>(c: Curve<G>, bases: seq<G>, scalars: seq<nat>)
    requires |bases| == |scalars|
    ensures MsmSum(c, bases[..0], scalars[..0]) == c.zero
  {
  }

  lemma {:induction false} ChainReaches<G(!new)>(c: Curve<G>, bases: seq<G>, scalars: seq<nat>, j: nat, chain: seq<Chunk<G>>)
    requires |bases| == |scalars| && j < |bases|
    requires chain != [] && chain[|chain| - 1].value == MsmSum(c, bases[..j + 1], scalars[..j + 1])
    ensures Reaches(c, bases, scalars, j, chain)
  {
  }

  lemma {:induction false} ChainIsChained<G(!new)>(c: Curve<G>, w: Width, bases: seq<G>, scalars: seq<nat>, j: nat,
                                                   chain: seq<Chunk<G>>, strict: bool)
    requires Valid(w) && |bases| == |scalars| && j < |bases|
    requires Linked(c, w, scalars[j], MsmSum(c, bases[..j], scalars[..j]), chain, strict)
    ensures Chained(c, w, bases, scalars, j, chain, strict)
  {
  }

  lemma {:induction false} MsmStep<G(!new)>(c: Curve<G>, bases: seq<G>, scalars: seq<nat>, i: nat)
    requires |bases| == |scalars| && i < |bases|
    ensures MsmSum(c, bases[..i + 1], scalars[..i + 1]) == c.plus(MsmSum(c, bases[..i], scalars[..i]), Times(c, scalars[i], bases[i]))
  {
    assert bases[..i + 1][..i] == bases[..i] && scalars[..i + 1][..i] == scalars[..i];
  }

  /** Adding the identity to the identity counts as degenerate: a chain that starts from the identity exists only if the lowest
      window of the scalar is not zero. */
  lemma {:induction false} ZeroFirstWindowIsRefused<G(!new)>(c: Curve<G>, base: G, v: nat, window: nat, tables: nat)
    requires Abelian(c) && tables > 0 && Slice(v, window, 0) == 0
    ensures !Smooth(c, c.zero, base, v, window, tables)
  {
    assert Pow2(0) == 1;
    assert LowPart(v, window, 0) == 0 by { SplitUnique(v, 1, v, 0); }
    assert Partial(c, c.zero, base, v, window, 0) == c.zero;
    assert WindowPoint(c, base, v, window, 0) == c.zero;
  }
}
