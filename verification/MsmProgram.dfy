/** The multi-scalar multiplication as one script, for the verifier that is not cut into pieces (bitvm/src/bn254/msm.rs). */
module MsmProgram {
  import opened Arithmetic
  import opened Wrappers
  import opened ScriptMachine
  import opened Limbs
  import opened StackMoves
  import opened NumberMoves
  import opened Compare
  import opened LimbIo
  import opened FieldDiv
  import opened HintMoves
  import opened FqStack
  import opened Msm
  import opened MsmChain
  import opened MsmAddition

  // ---------- comparing points ----------

  /** `G1Affine::equalverify`. */
  function EqualVerifyPoints(): Script {
    RollNum(U(), 2) + EqualVerifyNums(U(), 1, 0) + EqualVerifyNums(U(), 1, 0)
  }

  lemma {:induction false} EqualVerifyStep(x: nat, y: nat, vs: seq<nat>, r: Stack, alt: Stack)
    requires |vs| < 900
    ensures Exec(EqualVerifyNums(U(), 1, 0), Running(Main([x, y] + vs, r), alt)) ==
            if x == y then Running(Main(vs, r), alt) else Failed
  {
    hide Exec;
    hide Prepend;
    hide Number;
    hide NLimbs;
    hide EqualVerifyNums;
    hide Cells;
    hide Placed;
    hide Pair;
    var both, none: seq<int> := [x, y] + vs, [];
    PairStack(both, 0, 1, r);
    NoElements();
    assert both[..0] == [] && both[1..1] == [] && both[2..] == vs && both[0] == x && both[1] == y;
    assert none + none == none;
    EqualVerifyCorrect(U(), 1, 0, none, none, y, x, Main(vs, r), alt);
    NoCells(Main(vs, r));
  }

  /** Two points are removed when they are the same; otherwise the script fails. */
  lemma {:induction false} EqualVerifyRun(y: nat, x: nat, y': nat, x': nat, vs: seq<nat>, r: Stack, alt: Stack)
    requires |vs| < 800
    ensures Exec(EqualVerifyPoints(), Running(Main([y, x, y', x'] + vs, r), alt)) ==
            if x == x' && y == y' then Running(Main(vs, r), alt) else Failed
  {
    hide Exec;
    hide Main;
    hide RollNum;
    hide EqualVerifyNums;
    var v0, v1 := [y, x, y', x'] + vs, [y', y] + ([x, x'] + vs);
    ExecAppend3(RollNum(U(), 2), EqualVerifyNums(U(), 1, 0), EqualVerifyNums(U(), 1, 0), Running(Main(v0, r), alt));
    RollStep(v0, 2, r, alt);
    assert [y'] + v0[..2] + v0[3..] == v1;
    EqualVerifyStep(y', y, [x, x'] + vs, r, alt);
    EqualVerifyStep(x, x', vs, r, alt);
    ExecFailed(EqualVerifyNums(U(), 1, 0));
  }

  // ---------- one row ----------

  function KeepCopy(): Script {
    CopyNum(U(), 1) + CopyNum(U(), 1) + (Repeat([ToAlt], NLimbs(U())) + Repeat([ToAlt], NLimbs(U())))
  }

  /** What the program does with a chunk: the point it starts from, the scalar, the chunk, and a check of both its points; after
      the last one, the sum is kept. */
  function RowScript<G(!new)>(c: Curve<G>, prev: G, v: nat, x: Chunk<G>, last: bool): Script {
    (PushPoint(c, U(), prev) + PushNumber(U(), v) + x.script) + (if last then KeepCopy() else []) +
    (PushPoint(c, U(), x.value) + EqualVerifyPoints()) + (PushPoint(c, U(), prev) + EqualVerifyPoints()) +
    (if last then Repeat([FromAlt], NLimbs(U())) + Repeat([FromAlt], NLimbs(U())) else [])
  }

  lemma {:induction false} CheckPoint<G(!new)>(c: Curve<G>, g: G, y: nat, x: nat, vs: seq<nat>, r: Stack, alt: Stack)
    requires Coordinates(c, U()) && |vs| < 800
    ensures Exec(PushPoint(c, U(), g) + EqualVerifyPoints(), Running(Main([y, x] + vs, r), alt)) ==
            if x == c.x(g) && y == c.y(g) then Running(Main(vs, r), alt) else Failed
  {
    hide Exec;
    hide Main;
    hide PushPoint;
    hide EqualVerifyPoints;
    hide Coordinates;
    var s := Main([y, x] + vs, r);
    ExecAppend(PushPoint(c, U(), g), EqualVerifyPoints(), Running(s, alt));
    PushPointRun(c, U(), g, s, alt);
    PointIsMain(c, g, s);
    MainSplit([c.y(g), c.x(g)], [y, x] + vs, r);
    assert [c.y(g), c.x(g)] + ([y, x] + vs) == [c.y(g), c.x(g), y, x] + vs;
    EqualVerifyRun(c.y(g), c.x(g), y, x, vs, r, alt);
  }

  lemma {:induction false} KeepCopyRun(y: nat, x: nat, vs: seq<nat>, r: Stack, alt: Stack)
    requires |vs| < 800
    ensures Exec(KeepCopy(), Running(Main([y, x] + vs, r), alt)) ==
            Running(Main([y, x] + vs, r), PushAll(Number(U(), y) + Number(U(), x), alt))
  {
    hide Exec;
    hide Prepend;
    hide PushAll;
    hide Number;
    hide NLimbs;
    hide CopyNum;
    hide Repeat;
    hide Cells;
    var n := NLimbs(U());
    var v0, v1 := [y, x] + vs, [x, y, x] + vs;
    ExecAppend3(CopyNum(U(), 1), CopyNum(U(), 1), Repeat([ToAlt], n) + Repeat([ToAlt], n), Running(Main(v0, r), alt));
    CopyStep(v0, 1, r, alt);
    assert [x] + v0 == v1;
    CopyStep(v1, 1, r, alt);
    assert [y] + v1 == [y] + ([x] + v0);
    MainFirst(y, [x] + v0, r);
    MainFirst(x, v0, r);
    PrependAppend(Number(U(), y), Number(U(), x), Main(v0, r));
    TwoToAlt(Number(U(), y), Number(U(), x), n, Main(v0, r), alt);
  }

  /** Whatever two points a chunk leaves, its row fails unless they are the next point and the one the chunk started from; then it
      leaves nothing but, at the end, the next point. */
  lemma {:induction false} RowChecks<G(!new)>(c: Curve<G>, prev: G, v: nat, x: Chunk<G>, last: bool, s: Stack,
                                              y1: nat, x1: nat, y0: nat, x0: nat, r: Stack, alt: Stack)
    requires Coordinates(c, U()) && v < Capacity(U())
    requires Exec(x.script, Running(On(U(), v, Prepend(PointCells(c, U(), prev), s)), alt)) == Running(Main([y1, x1, y0, x0], r), alt)
    ensures Exec(RowScript(c, prev, v, x, last), Running(s, alt)) ==
            Ends(x1 == c.x(x.value) && y1 == c.y(x.value) && x0 == c.x(prev) && y0 == c.y(prev),
                 Running(if last then Prepend(PointCells(c, U(), x.value), r) else r, alt))
  {
    hide Exec;
    hide Main;
    hide PushPoint;
    hide PushNumber;
    hide EqualVerifyPoints;
    hide KeepCopy;
    hide Coordinates;
    hide PointCells;
    hide Number;
    hide Repeat;
    hide NLimbs;
    hide On;
    hide Capacity;
    hide PushAll;
    hide Prepend;
    var u, n := x.value, NLimbs(U());
    var start, keep, unkeep := PushPoint(c, U(), prev) + PushNumber(U(), v) + x.script, if last then KeepCopy() else [],
        if last then Repeat([FromAlt], n) + Repeat([FromAlt], n) else [];
    var check0, check1 := PushPoint(c, U(), prev) + EqualVerifyPoints(), PushPoint(c, U(), u) + EqualVerifyPoints();
    var st := Running(s, alt);
    ExecAppend5(start, keep, check1, check0, unkeep, st);
    ExecAppend3(PushPoint(c, U(), prev), PushNumber(U(), v), x.script, st);
    PushPointRun(c, U(), prev, s, alt);
    PushNumberRun(U(), v, Prepend(PointCells(c, U(), prev), s), alt);
    var p := [y0, x0];
    assert [y1, x1] + p == [y1, x1, y0, x0];
    assert Exec(start, st) == Running(Main([y1, x1] + p, r), alt);
    KeptRun(y1, x1, p, r, last, alt);
    var alt1 := if last then PushAll(PointNumbers(y1, x1), alt) else alt;
    CheckPoint(c, u, y1, x1, p, r, alt1);
    assert p == p + [];
    CheckPoint(c, prev, y0, x0, [], r, alt1);
    ExecFailed(check0);
    ExecFailed(unkeep);
    NothingOn(r);
    if x1 == c.x(u) && y1 == c.y(u) { UnkeptRun(c, u, r, last, alt); }
  }

  /** A row uses up its hints and leaves nothing but, at the end, the sum. */
  lemma {:induction false} RowRun<G(!new)>(c: Curve<G>, prev: G, v: nat, x: Chunk<G>, last: bool, h: seq<int>, strict: bool,
                                           l: seq<int>, alt: Stack)
    requires Coordinates(c, U()) && v < Capacity(U()) && Moves(x, c, U(), v, prev, strict)
    requires |l| + |h| <= ROOM && |h| == |x.hints| && (strict || h == x.hints)
    ensures Exec(RowScript(c, prev, v, x, last), Running(Bottom(l, h), alt)) ==
            Ends(h == x.hints, Running(if last then Prepend(PointCells(c, U(), x.value), Bottom(l, [])) else Bottom(l, []), alt))
  {
    hide Exec;
    hide Main;
    hide RowScript;
    hide Coordinates;
    hide PointCells;
    hide Bottom;
    hide NLimbs;
    hide On;
    hide Capacity;
    hide Prepend;
    if h == x.hints {
      PointsAreMain(c, prev, x.value, Bottom(l, []));
      RowChecks(c, prev, v, x, last, Bottom(l, h), c.y(x.value), c.x(x.value), c.y(prev), c.x(prev), Bottom(l, []), alt);
    } else {
      RowFails(c, prev, v, x, last, Bottom(l, h), alt);
    }
  }

  lemma {:induction false} RowFails<G(!new)>(c: Curve<G>, prev: G, v: nat, x: Chunk<G>, last: bool, s: Stack, alt: Stack)
    requires Coordinates(c, U()) && v < Capacity(U())
    requires Exec(x.script, Running(On(U(), v, Prepend(PointCells(c, U(), prev), s)), alt)) == Failed
    ensures Exec(RowScript(c, prev, v, x, last), Running(s, alt)) == Failed
  {
    hide Exec;
    hide PushPoint;
    hide PushNumber;
    hide EqualVerifyPoints;
    hide KeepCopy;
    hide PointCells;
    hide Repeat;
    hide NLimbs;
    hide On;
    hide Capacity;
    hide Prepend;
    var u, n := x.value, NLimbs(U());
    var start, keep, unkeep := PushPoint(c, U(), prev) + PushNumber(U(), v) + x.script, if last then KeepCopy() else [],
        if last then Repeat([FromAlt], n) + Repeat([FromAlt], n) else [];
    ExecAppend5(start, keep, PushPoint(c, U(), u) + EqualVerifyPoints(), PushPoint(c, U(), prev) + EqualVerifyPoints(), unkeep,
                Running(s, alt));
    ExecAppend3(PushPoint(c, U(), prev), PushNumber(U(), v), x.script, Running(s, alt));
    PushPointRun(c, U(), prev, s, alt);
    PushNumberRun(U(), v, Prepend(PointCells(c, U(), prev), s), alt);
    ExecFailed(keep);
    ExecFailed(PushPoint(c, U(), u) + EqualVerifyPoints());
    ExecFailed(PushPoint(c, U(), prev) + EqualVerifyPoints());
    ExecFailed(unkeep);
  }

  function PointNumbers(y: nat, x: nat): seq<int> {
    Number(U(), y) + Number(U(), x)
  }

  lemma {:induction false} NothingOn(r: Stack)
    ensures Main([], r) == r
  {
  }

  lemma {:induction false} KeptRun(y: nat, x: nat, vs: seq<nat>, r: Stack, last: bool, alt: Stack)
    requires |vs| < 800
    ensures var s := Main([y, x] + vs, r);
            Exec(if last then KeepCopy() else [], Running(s, alt)) == Running(s, if last then PushAll(PointNumbers(y, x), alt) else alt)
  {
    hide Exec;
    hide Main;
    hide KeepCopy;
    hide PushAll;
    hide Number;
    if last { KeepCopyRun(y, x, vs, r, alt); } else { Exec0(Running(Main([y, x] + vs, r), alt)); }
  }

  lemma {:induction false} UnkeptRun<G(!new)>(c: Curve<G>, u: G, r: Stack, last: bool, alt: Stack)
    ensures Exec(if last then Repeat([FromAlt], NLimbs(U())) + Repeat([FromAlt], NLimbs(U())) else [],
                 Running(r, if last then PushAll(PointNumbers(c.y(u), c.x(u)), alt) else alt)) ==
            Running(if last then Prepend(PointCells(c, U(), u), r) else r, alt)
  {
    hide Exec;
    hide PushAll;
    hide Prepend;
    hide Number;
    hide Repeat;
    hide NLimbs;
    if last { TwoToAlt(Number(U(), c.y(u)), Number(U(), c.x(u)), NLimbs(U()), r, alt); } else { Exec0(Running(r, alt)); }
  }

  // ---------- the program ----------

  datatype Row<!G> = Row(scalar: nat, chunk: Chunk<G>)

  /** The rows in order, each with the scalar of its chain. */
  function Program<G(!new)>(c: Curve<G>, prev: G, rows: seq<Row<G>>): Script {
    if rows == [] then []
    else RowScript(c, prev, rows[0].scalar, rows[0].chunk, |rows| == 1) + Program(c, rows[0].chunk.value, rows[1..])
  }

  /** `all_hints`. */
  function AllHints<G(!new)>(rows: seq<Row<G>>): seq<int> {
    if rows == [] then [] else rows[0].chunk.hints + AllHints(rows[1..])
  }

  /** Every row starts where the one before it ended. */
  ghost predicate Connected<G(!new)>(c: Curve<G>, prev: G, rows: seq<Row<G>>, strict: bool) {
    rows != [] ==>
      rows[0].scalar < Capacity(U()) && Moves(rows[0].chunk, c, U(), rows[0].scalar, prev, strict) &&
      Connected(c, rows[0].chunk.value, rows[1..], strict)
  }

  function LastValue<G(!new)>(prev: G, rows: seq<Row<G>>): G {
    if rows == [] then prev else rows[|rows| - 1].chunk.value
  }

  lemma {:induction false} NextRow<G(!new)>(c: Curve<G>, prev: G, rows: seq<Row<G>>, strict: bool)
    requires rows != [] && Connected(c, prev, rows, strict)
    ensures var x, rest := rows[0], rows[1..];
            Program(c, prev, rows) == RowScript(c, prev, x.scalar, x.chunk, |rows| == 1) + Program(c, x.chunk.value, rest) &&
            AllHints(rows) == x.chunk.hints + AllHints(rest) && Connected(c, x.chunk.value, rest, strict) &&
            x.scalar < Capacity(U()) && Moves(x.chunk, c, U(), x.scalar, prev, strict) &&
            LastValue(prev, rows) == LastValue(x.chunk.value, rest)
    ensures Program(c, rows[0].chunk.value, []) == [] && AllHints<G>([]) == []
  {
    hide RowScript;
    hide Moves;
    hide Capacity;
  }

  /** The program uses up all hints and leaves the point of the last row. */
  lemma {:induction false} ProgramRun<G(!new)>(c: Curve<G>, prev: G, rows: seq<Row<G>>, h: seq<int>, strict: bool, l: seq<int>,
                                               alt: Stack)
    requires Coordinates(c, U()) && Connected(c, prev, rows, strict) && rows != []
    requires |l| + |h| <= ROOM && |h| == |AllHints(rows)| && (strict || h == AllHints(rows))
    ensures Exec(Program(c, prev, rows), Running(Bottom(l, h), alt)) ==
            Ends(h == AllHints(rows), Running(Prepend(PointCells(c, U(), LastValue(prev, rows)), Bottom(l, [])), alt))
    decreases |rows|
  {
    hide Exec;
    hide RowScript;
    hide Moves;
    hide Coordinates;
    hide PointCells;
    hide Prepend;
    hide Bottom;
    hide Reverse;
    hide NLimbs;
    hide Capacity;
    hide Program;
    hide AllHints;
    hide Connected;
    NextRow(c, prev, rows, strict);
    var x, rest := rows[0], rows[1..];
    var k, later := |x.chunk.hints|, Program(c, x.chunk.value, rest);
    SameHints(h, x.chunk.hints, AllHints(rest));
    ExecAppend(RowScript(c, prev, x.scalar, x.chunk, |rows| == 1), later, Running(Bottom(l, h), alt));
    LaterHints(l, h[..k], h[k..]);
    RowRun(c, prev, x.scalar, x.chunk, |rows| == 1, h[..k], strict, l + Reverse(h[k..]), alt);
    ExecFailed(later);
    if rest == [] {
      assert h[k..] == [];
      Exec0(Running(Prepend(PointCells(c, U(), x.chunk.value), Bottom(l, [])), alt));
    } else {
      ProgramRun(c, x.chunk.value, rest, h[k..], strict, l, alt);
    }
  }

  // ---------- the rows of a multi-scalar multiplication ----------

  function ChainRows<G(!new)>(scalar: nat, chain: seq<Chunk<G>>): (r: seq<Row<G>>)
    ensures |r| == |chain|
  {
    seq(|chain|, k requires 0 <= k < |chain| => Row(scalar, chain[k]))
  }

  lemma {:induction false} ConnectedAppend<G(!new)>(c: Curve<G>, prev: G, a: seq<Row<G>>, b: seq<Row<G>>,
                                                    strict: bool)
    requires Connected(c, prev, a, strict) && Connected(c, LastValue(prev, a), b, strict)
    ensures Connected(c, prev, a + b, strict) && LastValue(prev, a + b) == LastValue(LastValue(prev, a), b)
    decreases |a|
  {
    hide Moves;
    hide Capacity;
    if a == [] {
      assert a + b == b;
    } else {
      assert (a + b)[1..] == a[1..] + b;
      ConnectedAppend(c, a[0].chunk.value, a[1..], b, strict);
    }
  }

  lemma {:induction false} LinkedIsConnected<G(!new)>(c: Curve<G>, scalar: nat, init: G, chain: seq<Chunk<G>>,
                                                      strict: bool)
    requires scalar < Capacity(U()) && Linked(c, U(), scalar, init, chain, strict)
    ensures Connected(c, init, ChainRows(scalar, chain), strict)
    ensures chain != [] ==> LastValue(init, ChainRows(scalar, chain)) == chain[|chain| - 1].value
    decreases |chain|
  {
    hide Moves;
    hide Capacity;
    if chain != [] {
      var rest := chain[1..];
      assert Moves(chain[0], c, U(), scalar, Before(init, chain, 0), strict);
      forall j: nat | j < |rest| ensures Moves(rest[j], c, U(), scalar, Before(chain[0].value, rest, j), strict) {
        assert Moves(chain[j + 1], c, U(), scalar, Before(init, chain, j + 1), strict);
      }
      LinkedIsConnected(c, scalar, chain[0].value, rest, strict);
      assert ChainRows(scalar, chain)[1..] == ChainRows(scalar, rest);
    }
  }

  /** The script and the hints leave this point, whatever else is on the stack. A strict one fails on any other cells in place
      of the hints. */
  ghost predicate Leaves<G(!new)>(c: Curve<G>, script: Script, hints: seq<int>, g: G, strict: bool) {
    forall l: seq<int>, h: seq<int>, alt: Stack {:trigger Exec(script, Running(Bottom(l, h), alt))} ::
      |l| + |h| <= ROOM && |h| == |hints| && (strict || h == hints) ==>
      Exec(script, Running(Bottom(l, h), alt)) == Ends(h == hints, Running(Prepend(PointCells(c, U(), g), Bottom(l, [])), alt))
  }

  lemma {:induction false} ProgramLeaves<G(!new)>(c: Curve<G>, prev: G, rows: seq<Row<G>>, strict: bool)
    requires Coordinates(c, U()) && Connected(c, prev, rows, strict) && rows != []
    ensures Leaves(c, Program(c, prev, rows), AllHints(rows), LastValue(prev, rows), strict)
  {
    hide Exec;
    hide Program;
    hide AllHints;
    hide Connected;
    hide Coordinates;
    hide PointCells;
    hide Prepend;
    hide Bottom;
    forall l: seq<int>, h: seq<int>, alt: Stack | |l| + |h| <= ROOM && |h| == |AllHints(rows)| && (strict || h == AllHints(rows))
      ensures Exec(Program(c, prev, rows), Running(Bottom(l, h), alt)) ==
              Ends(h == AllHints(rows), Running(Prepend(PointCells(c, U(), LastValue(prev, rows)), Bottom(l, [])), alt))
    {
      ProgramRun(c, prev, rows, h, strict, l, alt);
    }
  }

  /** Row idx belongs to scalar idx / m. */
  ghost predicate Labelled<G(!new)>(scalars: seq<nat>, m: nat, chunks: seq<Chunk<G>>, rows: seq<Row<G>>)
    requires m > 0
  {
    |rows| == |chunks| &&
    forall idx: nat :: idx < |rows| ==> idx / m < |scalars| && rows[idx] == Row(scalars[idx / m], chunks[idx])
  }

  lemma {:induction false} LabelledAppend<G(!new)>(scalars: seq<nat>, m: nat, chunks: seq<Chunk<G>>, rows: seq<Row<G>>, i: nat,
                                                   chain: seq<Chunk<G>>)
    requires m > 0 && Labelled(scalars, m, chunks, rows) && |chunks| == i * m && |chain| == m && i < |scalars|
    ensures Labelled(scalars, m, chunks + chain, rows + ChainRows(scalars[i], chain))
    ensures |chunks + chain| == (i + 1) * m
  {
    SplitProduct(i + 1, m);
    forall idx: nat | i * m <= idx < i * m + m ensures idx / m == i {
      DivModUnique(idx, m, i, idx - i * m);
    }
  }

  lemma {:induction false} PsmLength(n: nat, m: nat)
    requires n > 0
    ensures n * m / n == m
  {
    assert n * m == m * n;
    DivModUnique(n * m, n, m, 0);
  }

  lemma {:induction false} RowIndex(n: nat, m: nat)
    requires m > 0
    ensures forall idx: nat :: idx < n * m ==> idx / m < n
  {
    forall idx: nat | idx < n * m ensures idx / m < n {
      DivNonNeg(idx, m);
      var q := idx / m;
      assert idx == q * m + idx % m;
      if q >= n { MulMono(n, q, m); }
    }
  }

  /** The rows of the first i chains, and the chunks they are made of. */
  ghost predicate Gathered<G(!new)>(c: Curve<G>, bases: seq<G>, scalars: seq<nat>, m: nat, i: nat, chunks: seq<Chunk<G>>,
                                    rows: seq<Row<G>>, strict: bool)
    requires |bases| == |scalars| && i <= |bases| && m > 0
  {
    Connected(c, c.zero, rows, strict) && LastValue(c.zero, rows) == MsmSum(c, bases[..i], scalars[..i]) &&
    |chunks| == i * m && Labelled(scalars, m, chunks, rows)
  }

  lemma {:induction false} GatherNone<G(!new)>(c: Curve<G>, bases: seq<G>, scalars: seq<nat>, m: nat, strict: bool)
    requires |bases| == |scalars| && m > 0
    ensures Gathered(c, bases, scalars, m, 0, [], [], strict)
  {
    EmptySum(c, bases, scalars);
    hide MsmSum;
    NoRows(c, strict);
  }

  lemma {:induction false} GatherOne<G(!new)>(c: Curve<G>, bases: seq<G>, scalars: seq<nat>, m: nat, i: nat, chunks: seq<Chunk<G>>,
                                              rows: seq<Row<G>>, chain: seq<Chunk<G>>, strict: bool)
    requires |bases| == |scalars| && i < |bases| && m > 0 && Gathered(c, bases, scalars, m, i, chunks, rows, strict)
    requires scalars[i] < Capacity(U()) && |chain| == m
    requires Reaches(c, bases, scalars, i, chain) && Chained(c, U(), bases, scalars, i, chain, strict)
    ensures Gathered(c, bases, scalars, m, i + 1, chunks + chain, rows + ChainRows(scalars[i], chain), strict)
  {
    hide Linked;
    hide Connected;
    hide MsmSum;
    hide Labelled;
    hide Capacity;
    LinkedIsConnected(c, scalars[i], MsmSum(c, bases[..i], scalars[..i]), chain, strict);
    ConnectedAppend(c, c.zero, rows, ChainRows(scalars[i], chain), strict);
    LabelledAppend(scalars, m, chunks, rows, i, chain);
  }

  /** Row idx of all rows goes with scalar idx / psm_len. */
  function RowsOf<G(!new)>(scalars: seq<nat>, chunks: seq<Chunk<G>>, psmLen: nat): (r: Option<seq<Row<G>>>) {
    if psmLen == 0 || |chunks| > |scalars| * psmLen then None
    else
      RowIndex(|scalars|, psmLen);
      Some(seq(|chunks|, idx requires 0 <= idx < |chunks| => ScalarRow(scalars, chunks, psmLen, idx)))
  }

  function ScalarRow<G(!new)>(scalars: seq<nat>, chunks: seq<Chunk<G>>, psmLen: nat, idx: nat): Row<G>
    requires psmLen > 0 && idx < |chunks| <= |scalars| * psmLen
  {
    RowIndex(|scalars|, psmLen);
    Row(scalars[idx / psmLen], chunks[idx])
  }

  lemma {:induction false} GatherAll<G(!new)>(c: Curve<G>, bases: seq<G>, scalars: seq<nat>, m: nat, chunks: seq<Chunk<G>>,
                                              rows: seq<Row<G>>, strict: bool)
    requires |bases| == |scalars| > 0 && m > 0 && Gathered(c, bases, scalars, m, |bases|, chunks, rows, strict) && Coordinates(c, U())
    ensures |chunks| / |scalars| == m && RowsOf(scalars, chunks, m) == Some(rows)
    ensures Leaves(c, Program(c, c.zero, rows), AllHints(rows), MsmSum(c, bases, scalars), strict)
  {
    hide MsmSum;
    hide Connected;
    hide Coordinates;
    hide Leaves;
    hide Program;
    hide AllHints;
    PsmLength(|scalars|, m);
    assert bases[..|bases|] == bases && scalars[..|scalars|] == scalars;
    assert rows != [] by { MulMono(1, |scalars|, m); }
    ProgramLeaves(c, c.zero, rows, strict);
    assert RowsOf(scalars, chunks, m).value == rows;
  }

  /** `hinted_msm_with_constant_bases_affine`: unless an addition is degenerate, the script with the hints of the library leaves
      exactly the sum of the multiples, and uses up all hints. If every chord has only one slope, any other cells in place of the
      hints make it fail. */
  method HintedMsm<G(!new, ==)>(c: Curve<G>, slope: (G, G) -> nat, bases: seq<G>, scalars: seq<nat>, window: nat, batch: nat)
      returns (r: Option<(Script, seq<int>)>)
    requires Abelian(c) && Affine(c, slope) && window > 0 && batch > 0
    requires |bases| == |scalars| > 0 && forall v :: v in scalars ==> v < Capacity(U())
    ensures r.Some? <==> SmoothSum(c, bases, scalars, |bases|, window)
    ensures r.Some? <==>
            forall j: nat, i: nat :: j < |bases| && i * window < 254 ==>
              var sum := c.plus(MsmSum(c, bases[..j], scalars[..j]), Times(c, scalars[j] % Weight(window, i), bases[j]));
              var q := Times(c, scalars[j] / Weight(window, i) % Pow2(window), Times(c, Weight(window, i), bases[j]));
              sum != q && sum != c.neg(q)
    ensures r.Some? ==> Leaves(c, r.value.0, r.value.1, MsmSum(c, bases, scalars), OneSlope(c, slope))
  {
    hide *;
    SmoothSumWritten(c, bases, scalars, window);
    ghost var strict := OneSlope(c, slope);
    LibraryIsScripted(c, slope, strict);
    ScriptedCoordinates(c, slope, strict);
    Facts();
    var add := LibraryAddition(c, slope);
    FewLimbs();
    var chains := MultiScalarMul(c, U(), bases, scalars, window, batch, add, strict);
    if chains.None? { return None; }
    ghost var m := NumChunks(window, batch);
    assert |chains.value[0]| == m > 0;
    ghost var rows: seq<Row<G>> := [];
    var allRows: seq<Chunk<G>> := [];
    GatherNone(c, bases, scalars, m, strict);
    for i := 0 to |bases|
      invariant Gathered(c, bases, scalars, m, i, allRows, rows, strict)
    {
      var chain := chains.value[i];
      assert scalars[i] in scalars;
      GatherOne(c, bases, scalars, m, i, allRows, rows, chain, strict);
      rows := rows + ChainRows(scalars[i], chain);
      allRows := allRows + chain;
    }
    GatherAll(c, bases, scalars, m, allRows, rows, strict);
    var psmLen := |allRows| / |scalars|;
    var all := RowsOf(scalars, allRows, psmLen).value;
    return Some((Program(c, c.zero, all), AllHints(all)));
  }

  lemma {:induction false} FewLimbs()
    ensures Valid(U()) && U().nBits == 254 && 4 * NLimbs(U()) < 0x7FFF_FF00
  {
    Facts();
  }

  lemma {:induction false} ScriptedCoordinates<G(!new)>(c: Curve<G>, slope: (G, G) -> nat, strict: bool)
    requires Scripted(c, U(), LibraryAddition(c, slope), strict)
    ensures Coordinates(c, U())
  {
    hide Coordinates;
    hide AdditionScripts;
  }

  lemma {:induction false} NoRows<G(!new)>(c: Curve<G>, strict: bool)
    ensures Connected(c, c.zero, [], strict) && LastValue(c.zero, []) == c.zero
  {
  }
}
