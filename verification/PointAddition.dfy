/** The script that adds two points of G1 (bitvm/src/bn254/g1.rs), with its hints at the bottom of the stack. */
module PointAddition {
  import opened Arithmetic
  import opened ScriptMachine
  import opened Limbs
  import opened NumberMoves
  import opened Compare
  import opened LimbIo
  import opened FieldAdd
  import opened FieldSub
  import opened FieldChecks
  import opened HintMoves
  import opened FqStack

  /** Cells between the points and the hints. */
  const DEEP: nat := 0x4000_1000

  // ---------- hinted products ----------

  /** `hinted_mul` for operands at blocks a and b. */
  function HintedMul(a: nat, b: nat): Script
    requires a < b
  {
    TakeHints(9) + RollNum(U(), a + 1) + RollNum(U(), b + 1) + TmulScript1()
  }

  /** `hinted_square`. */
  function HintedSquare(): Script {
    TakeHints(9) + RollNum(U(), 1) + CopyNum(U(), 0) + TmulScript1()
  }

  /** The cells are the hint of the product of x and y. */
  predicate IsQuotient(h: seq<int>, x: nat, y: nat) {
    Reverse(h) == QuotientCells(QuotientOf(x, y))
  }

  lemma {:induction false} RollBoth(vs: seq<nat>, a: nat, b: nat, hint: seq<int>, r: Stack, alt: Stack)
    requires a < b < |vs| < 1000 && |hint| == 9
    ensures Exec(RollNum(U(), b + 1), Exec(RollNum(U(), a + 1), Running(Prepend(hint + Cells(vs), r), alt))) ==
            Running(On(U(), vs[b], On(U(), vs[a], Prepend(hint, Main(Others(vs, a, b), r)))), alt)
  {
    hide Exec;
    hide Prepend;
    hide Number;
    hide NLimbs;
    hide RollNum;
    hide Cells;
    var top, x, mid, y, rest := vs[..a], vs[a], vs[a + 1..b], vs[b], vs[b + 1..];
    var nx, ny := Number(U(), x), Number(U(), y);
    SizeOf(top);
    SizeOf(mid);
    assert vs == top + ([x] + (mid + ([y] + rest)));
    CellsAppend(top, [x] + (mid + ([y] + rest)));
    CellsAppend([x], mid + ([y] + rest));
    CellsAppend(mid, [y] + rest);
    CellsAppend([y], rest);
    OneCell(x);
    OneCell(y);
    var t, m, e := hint + Cells(top), Cells(mid), Cells(rest);
    assert hint + Cells(vs) == (t + nx) + (m + (ny + e));
    PrependAppend(t + nx, m + (ny + e), r);
    RollRun(U(), a + 1, t, nx, Prepend(m + (ny + e), r), alt);
    PrependAppend(nx + t, m + (ny + e), r);
    assert (nx + t) + (m + (ny + e)) == ((nx + t + m) + ny) + e;
    PrependAppend((nx + t + m) + ny, e, r);
    RollRun(U(), b + 1, nx + t + m, ny, Prepend(e, r), alt);
    PrependAppend(ny + (nx + t + m), e, r);
    CellsAppend(top + mid, rest);
    CellsAppend(top, mid);
    var others := Cells(Others(vs, a, b));
    assert ny + (nx + t + m) + e == ny + (nx + (hint + others));
    PrependAppend(ny, nx + (hint + others), r);
    PrependAppend(nx, hint + others, r);
    PrependAppend(hint, others, r);
  }

  /** A hinted product accepts exactly the true quotient. */
  lemma {:induction false} HintedMulRun(vs: seq<nat>, a: nat, b: nat, h: seq<int>, l: seq<int>, alt: Stack)
    requires a < b < |vs| < 1000 && vs[a] < P && vs[b] < P && |h| == 9 && |l| <= DEEP
    ensures Exec(HintedMul(a, b), Running(Main(vs, Bottom(l, h)), alt)) ==
            if IsQuotient(h, vs[a], vs[b]) then Running(Main([Product(vs[a], vs[b])] + Others(vs, a, b), Bottom(l, [])), alt) else Failed
  {
    hide Exec;
    hide Prepend;
    hide Number;
    hide NLimbs;
    hide Cells;
    hide RollNum;
    hide TakeHints;
    hide TmulScript1;
    hide QuotientCells;
    hide Bottom;
    hide Others;
    hide Product;
    SizeOf(vs);
    var others := Others(vs, a, b);
    ExecAppend4(TakeHints(9), RollNum(U(), a + 1), RollNum(U(), b + 1), TmulScript1(), Running(Main(vs, Bottom(l, h)), alt));
    TakeHintsRun(Cells(vs), l, h, alt);
    RollBoth(vs, a, b, Reverse(h), Bottom(l, []), alt);
    TmulRun(vs[a], vs[b], Reverse(h), Main(others, Bottom(l, [])), alt);
    MainFirst(Product(vs[a], vs[b]), others, Bottom(l, []));
  }

  lemma {:induction false} HintedSquareRun(x: nat, vs: seq<nat>, h: seq<int>, l: seq<int>, alt: Stack)
    requires x < P && |vs| < 900 && |h| == 9 && |l| <= DEEP
    ensures Exec(HintedSquare(), Running(Main([x] + vs, Bottom(l, h)), alt)) ==
            if IsQuotient(h, x, x) then Running(Main([Product(x, x)] + vs, Bottom(l, [])), alt) else Failed
  {
    hide Exec;
    hide Prepend;
    hide Number;
    hide NLimbs;
    hide Cells;
    hide RollNum;
    hide CopyNum;
    hide TakeHints;
    hide TmulScript1;
    hide QuotientCells;
    hide Bottom;
    hide Product;
    SizeOf([x] + vs);
    var hint, nx, rest := Reverse(h), Number(U(), x), Main(vs, Bottom(l, []));
    ExecAppend4(TakeHints(9), RollNum(U(), 1), CopyNum(U(), 0), TmulScript1(), Running(Main([x] + vs, Bottom(l, h)), alt));
    TakeHintsRun(Cells([x] + vs), l, h, alt);
    CellsAppend([x], vs);
    OneCell(x);
    assert hint + (nx + Cells(vs)) == (hint + nx) + Cells(vs);
    PrependAppend(hint + nx, Cells(vs), Bottom(l, []));
    RollRun(U(), 1, hint, nx, rest, alt);
    var none: seq<int> := [];
    PrependAppend(nx, hint, rest);
    assert none + nx == nx && nx + none + nx == nx + nx;
    CopyRun(U(), 0, none, nx, Prepend(hint, rest), alt);
    PrependAppend(nx, nx, Prepend(hint, rest));
    TmulRun(x, x, hint, rest, alt);
    MainFirst(Product(x, x), vs, Bottom(l, []));
  }

  // ---------- a line ----------

  /** `hinted_check_line_through_point`, on alpha, -bias, x, y. */
  function CheckLine(): Script {
    HintedMul(1, 3) + SubMod(U(), P, 1, 0) + AddMod(U(), P, 1, 0) + PushCopies(0, NLimbs(U())) + EqualNums(U(), 1, 0)
  }

  /** -bias + (y - alpha * x), as the script computes it. */
  function LineValue(alpha: nat, minusBias: nat, x: nat, y: nat): nat {
    Plus(minusBias, Minus(y, Product(x, alpha)))
  }

  /** The point lies on the line of slope alpha. */
  predicate OnLine(alpha: nat, minusBias: nat, x: nat, y: nat) {
    (y - alpha * x + minusBias) % P == 0
  }

  lemma {:induction false} LineValueIsZero(alpha: nat, minusBias: nat, x: nat, y: nat)
    ensures LineValue(alpha, minusBias, x, y) == 0 <==> OnLine(alpha, minusBias, x, y)
  {
    var m := x * alpha;
    ModSub(y, m, P);
    ModAdd(minusBias, y - m, P);
    assert minusBias + (y - m) == y - alpha * x + minusBias;
  }

  lemma {:induction false} ModAdd(x: int, y: int, p: nat)
    requires p > 0
    ensures (x + y % p) % p == (x + y) % p
  {
    var q, r := y / p, y % p;
    var s := (x + r) / p;
    DivModUnique(x + y, p, q + s, (x + r) % p);
  }

  lemma {:induction false} ModSub(x: int, y: int, p: nat)
    requires p > 0
    ensures (x - y % p) % p == (x - y) % p
  {
    var q, r := y / p, y % p;
    var s := (x - r) / p;
    DivModUnique(x - y, p, s - q, (x - r) % p);
  }

  lemma {:induction false} CheckLineRun(y: nat, x: nat, minusBias: nat, alpha: nat, vs: seq<nat>, h: seq<int>, l: seq<int>, alt: Stack)
    requires x < P && y < P && minusBias < P && alpha < P && |vs| < 900 && |h| == 9 && |l| <= DEEP
    ensures Exec(CheckLine(), Running(Main([y, x, minusBias, alpha] + vs, Bottom(l, h)), alt)) ==
            if IsQuotient(h, x, alpha) then Running(Cell(Bit(OnLine(alpha, minusBias, x, y)), Main(vs, Bottom(l, []))), alt) else Failed
  {
    hide Exec;
    hide Main;
    hide HintedMul;
    hide SubMod;
    hide AddMod;
    hide PushCopies;
    hide EqualNums;
    hide NLimbs;
    hide IsQuotient;
    hide OnLine;
    hide Bottom;
    hide Plus;
    hide Minus;
    hide Product;
    var st := Running(Main([y, x, minusBias, alpha] + vs, Bottom(l, h)), alt);
    var sub, add, zero, equal := SubMod(U(), P, 1, 0), AddMod(U(), P, 1, 0), PushCopies(0, NLimbs(U())), EqualNums(U(), 1, 0);
    ExecAppend5(HintedMul(1, 3), sub, add, zero, equal, st);
    HintedMulRun([y, x, minusBias, alpha] + vs, 1, 3, h, l, alt);
    if IsQuotient(h, x, alpha) {
      var m := Product(x, alpha);
      assert Others([y, x, minusBias, alpha] + vs, 1, 3) == [y, minusBias] + vs;
      assert [m] + ([y, minusBias] + vs) == [m, y, minusBias] + vs;
      LineTest(m, y, minusBias, vs, Bottom(l, []), alt);
      LineValueIsZero(alpha, minusBias, x, y);
    } else {
      ExecFailed(sub);
      ExecFailed(add);
      ExecFailed(zero);
      ExecFailed(equal);
    }
  }

  /** What follows the product. */
  lemma {:induction false} LineTest(m: nat, y: nat, minusBias: nat, vs: seq<nat>, r: Stack, alt: Stack)
    requires m < P && y < P && minusBias < P && |vs| < 900
    ensures Exec(EqualNums(U(), 1, 0), Exec(PushCopies(0, NLimbs(U())), Exec(AddMod(U(), P, 1, 0), Exec(SubMod(U(), P, 1, 0),
              Running(Main([m, y, minusBias] + vs, r), alt))))) ==
            Running(Cell(Bit(Plus(minusBias, Minus(y, m)) == 0), Main(vs, r)), alt)
  {
    hide Exec;
    hide Main;
    hide SubMod;
    hide AddMod;
    hide PushCopies;
    hide EqualNums;
    hide NLimbs;
    hide Plus;
    hide Minus;
    var d := Minus(y, m);
    var s := Plus(minusBias, d);
    var v1, v2 := [m, y, minusBias] + vs, [d, minusBias] + vs;
    SubStep(v1, 0, 1, r, alt);
    assert [d] + Others(v1, 0, 1) == v2;
    AddStep(v2, 0, 1, r, alt);
    assert [s] + Others(v2, 0, 1) == [s] + vs;
    ZeroStep([s] + vs, r, alt);
    assert [0] + ([s] + vs) == [0, s] + vs;
    EqualStep(0, s, vs, r, alt);
  }

  /** `hinted_check_chord_line`, on alpha, -bias and two points. */
  function CheckChord(): Script {
    (CopyNum(U(), 5) + CopyNum(U(), 5) + RollNum(U(), 3) + RollNum(U(), 3)) + CheckLine() + [ToAlt] + CheckLine() + [FromAlt, BoolAnd]
  }

  lemma {:induction false} ChordMoves(y2: nat, x2: nat, y1: nat, x1: nat, mb: nat, alpha: nat, vs: seq<nat>, r: Stack, alt: Stack)
    requires |vs| < 900
    ensures Exec(CopyNum(U(), 5) + CopyNum(U(), 5) + RollNum(U(), 3) + RollNum(U(), 3),
                 Running(Main([y2, x2, y1, x1, mb, alpha] + vs, r), alt)) ==
            Running(Main([y2, x2, mb, alpha] + ([y1, x1, mb, alpha] + vs), r), alt)
  {
    hide Exec;
    hide Main;
    hide CopyNum;
    hide RollNum;
    var v0, v1 := [y2, x2, y1, x1, mb, alpha] + vs, [alpha, y2, x2, y1, x1, mb, alpha] + vs;
    var v2, v3 := [mb, alpha, y2, x2, y1, x1, mb, alpha] + vs, [x2, mb, alpha, y2, y1, x1, mb, alpha] + vs;
    ExecAppend4(CopyNum(U(), 5), CopyNum(U(), 5), RollNum(U(), 3), RollNum(U(), 3), Running(Main(v0, r), alt));
    CopyStep(v0, 5, r, alt);
    assert [alpha] + v0 == v1;
    CopyStep(v1, 5, r, alt);
    assert [mb] + v1 == v2;
    RollStep(v2, 3, r, alt);
    assert [x2] + v2[..3] + v2[4..] == v3;
    RollStep(v3, 3, r, alt);
    assert [y2] + v3[..3] + v3[4..] == [y2, x2, mb, alpha] + ([y1, x1, mb, alpha] + vs);
  }

  lemma {:induction false} CheckChordRun(y2: nat, x2: nat, y1: nat, x1: nat, mb: nat, alpha: nat, vs: seq<nat>,
                                         h2: seq<int>, h1: seq<int>, l: seq<int>, alt: Stack)
    requires x1 < P && y1 < P && x2 < P && y2 < P && mb < P && alpha < P && |vs| < 800
    requires |h1| == |h2| == 9 && |l| + 9 <= DEEP
    ensures Exec(CheckChord(), Running(Main([y2, x2, y1, x1, mb, alpha] + vs, Bottom(l, h2 + h1)), alt)) ==
            if IsQuotient(h2, x2, alpha) && IsQuotient(h1, x1, alpha)
            then Running(Cell(Bit(OnLine(alpha, mb, x1, y1) && OnLine(alpha, mb, x2, y2)), Main(vs, Bottom(l, []))), alt)
            else Failed
  {
    hide Exec;
    hide Step;
    hide Main;
    hide CheckLine;
    hide CopyNum;
    hide RollNum;
    hide IsQuotient;
    hide OnLine;
    hide Bottom;
    hide Reverse;
    MoreStackRules();
    LogicRules();
    var moves := CopyNum(U(), 5) + CopyNum(U(), 5) + RollNum(U(), 3) + RollNum(U(), 3);
    var st := Running(Main([y2, x2, y1, x1, mb, alpha] + vs, Bottom(l, h2 + h1)), alt);
    ExecAppend5(moves, CheckLine(), [ToAlt], CheckLine(), [FromAlt, BoolAnd], st);
    ChordMoves(y2, x2, y1, x1, mb, alpha, vs, Bottom(l, h2 + h1), alt);
    LaterHints(l, h2, h1);
    var first := [y1, x1, mb, alpha] + vs;
    CheckLineRun(y2, x2, mb, alpha, first, h2, l + Reverse(h1), alt);
    ExecFailed([ToAlt]);
    ExecFailed(CheckLine());
    ExecFailed([FromAlt, BoolAnd]);
    if IsQuotient(h2, x2, alpha) {
      var b2, b1 := Bit(OnLine(alpha, mb, x2, y2)), Bit(OnLine(alpha, mb, x1, y1));
      Exec1(ToAlt, Running(Cell(b2, Main(first, Bottom(l, h1))), alt));
      CheckLineRun(y1, x1, mb, alpha, vs, h1, l, Cell(b2, alt));
      if IsQuotient(h1, x1, alpha) {
        Exec2(FromAlt, BoolAnd, Running(Cell(b1, Main(vs, Bottom(l, []))), Cell(b2, alt)));
      }
    }
  }

  // ---------- the sum of two points on a chord ----------

  /** `hinted_add`, on alpha, -bias and the two x coordinates. */
  function AddChord(): Script {
    (AddMod(U(), P, 1, 0) + RollNum(U(), 2) + CopyNum(U(), 0)) + HintedSquare() + (SubMod(U(), P, 0, 2) + CopyNum(U(), 0)) +
    HintedMul(0, 2) + SubMod(U(), P, 2, 0)
  }

  /** alpha^2 - x1 - x2. */
  function ChordX(alpha: nat, x1: nat, x2: nat): (r: nat)
    ensures r < P
  {
    (alpha * alpha - x1 - x2) % P
  }

  /** -bias - alpha * x3. */
  function ChordY(alpha: nat, minusBias: nat, x3: nat): (r: nat)
    ensures r < P
  {
    (minusBias - alpha * x3) % P
  }

  lemma {:induction false} ChordValues(alpha: nat, mb: nat, x1: nat, x2: nat)
    ensures var x3 := Minus(Product(alpha, alpha), Plus(x1, x2));
            x3 == ChordX(alpha, x1, x2) && Minus(mb, Product(x3, alpha)) == ChordY(alpha, mb, x3)
  {
    var a := alpha * alpha;
    ModSub(a % P, x1 + x2, P);
    ModAdd(0 - (x1 + x2), a, P);
    var x3 := Minus(Product(alpha, alpha), Plus(x1, x2));
    ModSub(mb, x3 * alpha, P);
    assert x3 * alpha == alpha * x3;
  }

  lemma {:induction false} AddChordRun(x2: nat, x1: nat, mb: nat, alpha: nat, vs: seq<nat>, h3: seq<int>, h4: seq<int>,
                                       l: seq<int>, alt: Stack)
    requires x1 < P && x2 < P && mb < P && alpha < P && |vs| < 800 && |h3| == |h4| == 9 && |l| + 9 <= DEEP
    ensures var x3 := ChordX(alpha, x1, x2);
            Exec(AddChord(), Running(Main([x2, x1, mb, alpha] + vs, Bottom(l, h3 + h4)), alt)) ==
            if IsQuotient(h3, alpha, alpha) && IsQuotient(h4, x3, alpha)
            then Running(Main([ChordY(alpha, mb, x3), x3] + vs, Bottom(l, [])), alt)
            else Failed
  {
    hide Exec;
    hide Main;
    hide HintedMul;
    hide HintedSquare;
    hide CopyNum;
    hide RollNum;
    hide AddMod;
    hide SubMod;
    hide IsQuotient;
    hide Bottom;
    hide Reverse;
    hide Plus;
    hide Minus;
    hide Product;
    hide ChordX;
    hide ChordY;
    ChordValues(alpha, mb, x1, x2);
    LaterHints(l, h3, h4);
    var sum, sq := Plus(x1, x2), Product(alpha, alpha);
    var x3 := Minus(sq, sum);
    var m := Product(x3, alpha);
    var r0, r1, r2 := Bottom(l, h3 + h4), Bottom(l, h4), Bottom(l, []);
    var moves1, moves2 := AddMod(U(), P, 1, 0) + RollNum(U(), 2) + CopyNum(U(), 0), SubMod(U(), P, 0, 2) + CopyNum(U(), 0);
    ExecAppend5(moves1, HintedSquare(), moves2, HintedMul(0, 2), SubMod(U(), P, 2, 0), Running(Main([x2, x1, mb, alpha] + vs, r0), alt));
    FirstMoves(x2, x1, mb, alpha, vs, r0, alt);
    var v3 := [alpha, sum, mb] + vs;
    assert [alpha, alpha, sum, mb] + vs == [alpha] + v3;
    HintedSquareRun(alpha, v3, h3, l + Reverse(h4), alt);
    ExecFailed(moves2);
    ExecFailed(HintedMul(0, 2));
    ExecFailed(SubMod(U(), P, 2, 0));
    if IsQuotient(h3, alpha, alpha) {
      assert [sq] + v3 == [sq, alpha, sum, mb] + vs;
      SecondMoves(sq, alpha, sum, mb, vs, r1, alt);
      var v5 := [x3, x3, alpha, mb] + vs;
      HintedMulRun(v5, 0, 2, h4, l, alt);
      assert [m] + Others(v5, 0, 2) == [m, x3, mb] + vs;
      if IsQuotient(h4, x3, alpha) {
        SubStep([m, x3, mb] + vs, 0, 2, r2, alt);
        var y3 := Minus(mb, m);
        assert [y3] + Others([m, x3, mb] + vs, 0, 2) == [y3, x3] + vs;
      }
    }
  }

  lemma {:induction false} FirstMoves(x2: nat, x1: nat, mb: nat, alpha: nat, vs: seq<nat>, r: Stack, alt: Stack)
    requires x1 < P && x2 < P && |vs| < 800
    ensures Exec(AddMod(U(), P, 1, 0) + RollNum(U(), 2) + CopyNum(U(), 0), Running(Main([x2, x1, mb, alpha] + vs, r), alt)) ==
            Running(Main([alpha, alpha, Plus(x1, x2), mb] + vs, r), alt)
  {
    hide Exec;
    hide Main;
    hide CopyNum;
    hide RollNum;
    hide AddMod;
    hide Plus;
    var sum := Plus(x1, x2);
    var v0, v1, v2 := [x2, x1, mb, alpha] + vs, [sum, mb, alpha] + vs, [alpha, sum, mb] + vs;
    ExecAppend3(AddMod(U(), P, 1, 0), RollNum(U(), 2), CopyNum(U(), 0), Running(Main(v0, r), alt));
    AddStep(v0, 0, 1, r, alt);
    assert [sum] + Others(v0, 0, 1) == v1;
    RollStep(v1, 2, r, alt);
    assert [alpha] + v1[..2] + v1[3..] == v2;
    CopyStep(v2, 0, r, alt);
    assert [alpha] + v2 == [alpha, alpha, sum, mb] + vs;
  }

  lemma {:induction false} SecondMoves(sq: nat, alpha: nat, sum: nat, mb: nat, vs: seq<nat>, r: Stack, alt: Stack)
    requires sq < P && sum < P && |vs| < 800
    ensures Exec(SubMod(U(), P, 0, 2) + CopyNum(U(), 0), Running(Main([sq, alpha, sum, mb] + vs, r), alt)) ==
            Running(Main([Minus(sq, sum), Minus(sq, sum), alpha, mb] + vs, r), alt)
  {
    hide Exec;
    hide Main;
    hide CopyNum;
    hide SubMod;
    hide Minus;
    var x3 := Minus(sq, sum);
    var v0, v1 := [sq, alpha, sum, mb] + vs, [x3, alpha, mb] + vs;
    ExecAppend(SubMod(U(), P, 0, 2), CopyNum(U(), 0), Running(Main(v0, r), alt));
    SubStep(v0, 0, 2, r, alt);
    assert [x3] + Others(v0, 0, 2) == v1;
    CopyStep(v1, 0, r, alt);
    assert [x3] + v1 == [x3, x3, alpha, mb] + vs;
  }

  // ---------- the whole addition ----------

  /** An element taken from the hints, checked and kept. */
  function HintedElement(): Script {
    TakeHints(9) + CheckElement(U(), P) + Repeat([FromAlt], 9)
  }

  lemma {:induction false} HintedElementRun(vs: seq<nat>, h: seq<int>, l: seq<int>, alt: Stack)
    requires |vs| < 900 && |h| == 9 && |l| <= DEEP
    ensures Exec(HintedElement(), Running(Main(vs, Bottom(l, h)), alt)) ==
            if Spells(U(), P, Reverse(h)) then Running(Prepend(Reverse(h), Main(vs, Bottom(l, []))), alt) else Failed
  {
    hide Exec;
    hide Prepend;
    hide PushAll;
    hide Cells;
    hide CheckElement;
    hide TakeHints;
    hide Repeat;
    hide Spells;
    hide Bottom;
    hide Capacity;
    hide NLimbs;
    Facts();
    SizeOf(vs);
    var hint, rest := Reverse(h), Main(vs, Bottom(l, []));
    ExecAppend3(TakeHints(9), CheckElement(U(), P), Repeat([FromAlt], 9), Running(Main(vs, Bottom(l, h)), alt));
    TakeHintsRun(Cells(vs), l, h, alt);
    PrependAppend(hint, Cells(vs), Bottom(l, []));
    CheckElementExact(U(), P, hint, rest, alt);
    FromAltAll(hint, rest, alt);
    ExecFailed(Repeat([FromAlt], 9));
  }

  /** The hint spells that element. */
  predicate IsElement(h: seq<int>, v: nat) {
    v < P && Reverse(h) == Number(U(), v)
  }

  lemma {:induction false} GoodElementRun(v: nat, vs: seq<nat>, h: seq<int>, l: seq<int>, alt: Stack)
    requires |vs| < 900 && |h| == 9 && |l| <= DEEP && IsElement(h, v)
    ensures Exec(HintedElement(), Running(Main(vs, Bottom(l, h)), alt)) == Running(Main([v] + vs, Bottom(l, [])), alt)
  {
    hide Exec;
    hide HintedElement;
    hide Bottom;
    hide Number;
    hide Main;
    HintedElementRun(vs, h, l, alt);
    MainFirst(v, vs, Bottom(l, []));
  }

  /** The addition of two finite points, on x2, y2, x1, y1. */
  function AddFinite(): Script {
    (HintedElement() + HintedElement()) +
    (CopyNum(U(), 1) + CopyNum(U(), 1) + (CopyNum(U(), 5) + RollNum(U(), 5)) + (CopyNum(U(), 8) + RollNum(U(), 8))) +
    CheckChord() + ([Verify] + (RollNum(U(), 2) + RollNum(U(), 3))) + AddChord()
  }

  lemma {:induction false} LayOut(y1: nat, x1: nat, y2: nat, x2: nat, mb: nat, alpha: nat, r: Stack, alt: Stack)
    ensures Exec(CopyNum(U(), 1) + CopyNum(U(), 1) + (CopyNum(U(), 5) + RollNum(U(), 5)) + (CopyNum(U(), 8) + RollNum(U(), 8)),
                 Running(Main([mb, alpha, y1, x1, y2, x2], r), alt)) ==
            Running(Main([y2, x2, y1, x1, mb, alpha] + [mb, alpha, x1, x2], r), alt)
  {
    hide Exec;
    hide Main;
    hide CopyNum;
    hide RollNum;
    var v0, v1 := [mb, alpha, y1, x1, y2, x2], [alpha, mb, alpha, y1, x1, y2, x2];
    var v2, v3 := [mb, alpha, mb, alpha, y1, x1, y2, x2], [x1, mb, alpha, mb, alpha, y1, x1, y2, x2];
    var v4 := [y1, x1, mb, alpha, mb, alpha, x1, y2, x2];
    var v5 := [x2, y1, x1, mb, alpha, mb, alpha, x1, y2, x2];
    var st := Running(Main(v0, r), alt);
    ExecAppend4(CopyNum(U(), 1), CopyNum(U(), 1), CopyNum(U(), 5) + RollNum(U(), 5), CopyNum(U(), 8) + RollNum(U(), 8), st);
    CopyStep(v0, 1, r, alt);
    assert [alpha] + v0 == v1;
    CopyStep(v1, 1, r, alt);
    assert [mb] + v1 == v2;
    ExecAppend(CopyNum(U(), 5), RollNum(U(), 5), Running(Main(v2, r), alt));
    CopyStep(v2, 5, r, alt);
    assert [x1] + v2 == v3;
    RollStep(v3, 5, r, alt);
    assert [y1] + v3[..5] + v3[6..] == v4;
    ExecAppend(CopyNum(U(), 8), RollNum(U(), 8), Running(Main(v4, r), alt));
    CopyStep(v4, 8, r, alt);
    assert [x2] + v4 == v5;
    RollStep(v5, 8, r, alt);
    assert [y2] + v5[..8] + v5[9..] == [y2, x2, y1, x1, mb, alpha] + [mb, alpha, x1, x2];
  }

  lemma {:induction false} BringBack(x1: nat, x2: nat, mb: nat, alpha: nat, f: bool, r: Stack, alt: Stack)
    ensures Exec([Verify] + (RollNum(U(), 2) + RollNum(U(), 3)), Running(Cell(Bit(f), Main([mb, alpha, x1, x2], r)), alt)) ==
            if f then Running(Main([x2, x1, mb, alpha], r), alt) else Failed
  {
    hide Exec;
    hide Step;
    hide Main;
    hide RollNum;
    LogicRules();
    var v0, v1 := [mb, alpha, x1, x2], [x1, mb, alpha, x2];
    var st := Running(Cell(Bit(f), Main(v0, r)), alt);
    ExecAppend([Verify], RollNum(U(), 2) + RollNum(U(), 3), st);
    Exec1(Verify, st);
    ExecFailed(RollNum(U(), 2) + RollNum(U(), 3));
    ExecAppend(RollNum(U(), 2), RollNum(U(), 3), Running(Main(v0, r), alt));
    RollStep(v0, 2, r, alt);
    assert [x1] + v0[..2] + v0[3..] == v1;
    RollStep(v1, 3, r, alt);
    assert [x2] + v1[..3] + v1[4..] == [x2, x1, mb, alpha];
  }

  /** The hints of an addition: slope and intercept, two products on the line, a square and a product. */
  datatype AddHints = AddHints(alpha: seq<int>, minusBias: seq<int>, line2: seq<int>, line1: seq<int>, square: seq<int>, last: seq<int>)

  predicate Sized(h: AddHints) {
    |h.alpha| == |h.minusBias| == |h.line2| == |h.line1| == |h.square| == |h.last| == 9
  }

  function HintList(h: AddHints): seq<int> {
    h.alpha + (h.minusBias + ((h.line2 + h.line1) + (h.square + h.last)))
  }

  /** All quotient hints are the true ones, and both points are on the line. */
  predicate Accepted(h: AddHints, alpha: nat, mb: nat, x1: nat, y1: nat, x2: nat, y2: nat) {
    IsQuotient(h.line2, x2, alpha) && IsQuotient(h.line1, x1, alpha) &&
    OnLine(alpha, mb, x1, y1) && OnLine(alpha, mb, x2, y2) &&
    IsQuotient(h.square, alpha, alpha) && IsQuotient(h.last, ChordX(alpha, x1, x2), alpha)
  }

  /** A slope and an intercept, with any quotient hints. */
  lemma {:induction false} AddOnLineRun(y1: nat, x1: nat, y2: nat, x2: nat, alpha: nat, mb: nat, h: AddHints, l: seq<int>, alt: Stack)
    requires x1 < P && y1 < P && x2 < P && y2 < P && Sized(h) && |l| + 45 <= DEEP
    requires IsElement(h.alpha, alpha) && IsElement(h.minusBias, mb)
    ensures var x3 := ChordX(alpha, x1, x2);
            Exec(AddFinite(), Running(Main([y1, x1, y2, x2], Bottom(l, HintList(h))), alt)) ==
            if Accepted(h, alpha, mb, x1, y1, x2, y2)
            then Running(Main([ChordY(alpha, mb, x3), x3], Bottom(l, [])), alt)
            else Failed
  {
    hide Exec;
    hide Main;
    hide HintedElement;
    hide CheckChord;
    hide AddChord;
    hide CopyNum;
    hide RollNum;
    hide IsQuotient;
    hide OnLine;
    hide ChordX;
    hide ChordY;
    hide Bottom;
    hide Reverse;
    hide IsElement;
    var lines, sums := h.line2 + h.line1, h.square + h.last;
    var st := Running(Main([y1, x1, y2, x2], Bottom(l, HintList(h))), alt);
    var moves := CopyNum(U(), 1) + CopyNum(U(), 1) + (CopyNum(U(), 5) + RollNum(U(), 5)) + (CopyNum(U(), 8) + RollNum(U(), 8));
    var back := [Verify] + (RollNum(U(), 2) + RollNum(U(), 3));
    ExecAppend5(HintedElement() + HintedElement(), moves, CheckChord(), back, AddChord(), st);
    ExecAppend(HintedElement(), HintedElement(), st);
    ElementBound(h);
    LaterHints(l, h.alpha, h.minusBias + (lines + sums));
    GoodElementRun(alpha, [y1, x1, y2, x2], h.alpha, l + Reverse(h.minusBias + (lines + sums)), alt);
    assert [alpha] + [y1, x1, y2, x2] == [alpha, y1, x1, y2, x2];
    LaterHints(l, h.minusBias, lines + sums);
    GoodElementRun(mb, [alpha, y1, x1, y2, x2], h.minusBias, l + Reverse(lines + sums), alt);
    assert [mb] + [alpha, y1, x1, y2, x2] == [mb, alpha, y1, x1, y2, x2];
    LaterHints(l, lines, sums);
    LayOut(y1, x1, y2, x2, mb, alpha, Bottom(l, lines + sums), alt);
    IsElementBound(h.alpha, alpha);
    IsElementBound(h.minusBias, mb);
    CheckChordRun(y2, x2, y1, x1, mb, alpha, [mb, alpha, x1, x2], h.line2, h.line1, l + Reverse(sums), alt);
    ExecFailed(back);
    ExecFailed(AddChord());
    if IsQuotient(h.line2, x2, alpha) && IsQuotient(h.line1, x1, alpha) {
      var f := OnLine(alpha, mb, x1, y1) && OnLine(alpha, mb, x2, y2);
      BringBack(x1, x2, mb, alpha, f, Bottom(l, sums), alt);
      assert [x2, x1, mb, alpha] + [] == [x2, x1, mb, alpha];
      AddChordRun(x2, x1, mb, alpha, [], h.square, h.last, l, alt);
      var x3 := ChordX(alpha, x1, x2);
      assert [ChordY(alpha, mb, x3), x3] + [] == [ChordY(alpha, mb, x3), x3];
    }
  }

  /** The cells spell some element of the field. */
  ghost predicate SpellsElement(h: seq<int>) {
    exists v: nat :: IsElement(h, v)
  }

  ghost function Spelt(h: seq<int>): (v: nat)
    requires SpellsElement(h)
    ensures IsElement(h, v)
  {
    var v: nat :| IsElement(h, v);
    v
  }

  lemma {:induction false} SpellsReversed(h: seq<int>)
    ensures Spells(U(), P, Reverse(h)) ==> SpellsElement(h)
  {
    hide Number;
    hide Reverse;
    if Spells(U(), P, Reverse(h)) {
      var v: nat :| v < P && Reverse(h) == Number(U(), v);
      assert IsElement(h, v);
    }
  }

  lemma {:induction false} BadElementRun(vs: seq<nat>, h: seq<int>, l: seq<int>, alt: Stack)
    requires |vs| < 900 && |h| == 9 && |l| <= DEEP && !SpellsElement(h)
    ensures Exec(HintedElement(), Running(Main(vs, Bottom(l, h)), alt)) == Failed
  {
    hide Exec;
    hide HintedElement;
    hide Bottom;
    hide Number;
    hide Main;
    hide Reverse;
    hide Spells;
    SpellsReversed(h);
    HintedElementRun(vs, h, l, alt);
  }

  /** The first two hints spell a slope and an intercept, both points are on that line, and the quotients are true. */
  ghost predicate RightHints(h: AddHints, x1: nat, y1: nat, x2: nat, y2: nat) {
    SpellsElement(h.alpha) && SpellsElement(h.minusBias) && Accepted(h, Spelt(h.alpha), Spelt(h.minusBias), x1, y1, x2, y2)
  }

  /** The third point of that line, reflected. */
  ghost function ThirdPoint(h: AddHints, x1: nat, y1: nat, x2: nat, y2: nat): seq<nat>
    requires RightHints(h, x1, y1, x2, y2)
  {
    var x3 := ChordX(Spelt(h.alpha), x1, x2);
    [ChordY(Spelt(h.alpha), Spelt(h.minusBias), x3), x3]
  }

  /** Any cells in place of the hints: accepted exactly when they are right, and then the result is the third point. */
  lemma {:induction false} AddFiniteRun(y1: nat, x1: nat, y2: nat, x2: nat, h: AddHints, l: seq<int>, alt: Stack)
    requires x1 < P && y1 < P && x2 < P && y2 < P && Sized(h) && |l| + 45 <= DEEP
    ensures Exec(AddFinite(), Running(Main([y1, x1, y2, x2], Bottom(l, HintList(h))), alt)) ==
            if RightHints(h, x1, y1, x2, y2) then Running(Main(ThirdPoint(h, x1, y1, x2, y2), Bottom(l, [])), alt) else Failed
  {
    hide Exec;
    hide Main;
    hide AddFinite;
    hide Accepted;
    hide ChordX;
    hide ChordY;
    hide Bottom;
    hide HintList;
    hide IsElement;
    hide SpellsElement;
    if SpellsElement(h.alpha) && SpellsElement(h.minusBias) {
      AddOnLineRun(y1, x1, y2, x2, Spelt(h.alpha), Spelt(h.minusBias), h, l, alt);
    } else {
      AddUnspeltRun(y1, x1, y2, x2, h, l, alt);
    }
  }

  lemma {:induction false} AddUnspeltRun(y1: nat, x1: nat, y2: nat, x2: nat, h: AddHints, l: seq<int>, alt: Stack)
    requires Sized(h) && |l| + 45 <= DEEP && !(SpellsElement(h.alpha) && SpellsElement(h.minusBias))
    ensures Exec(AddFinite(), Running(Main([y1, x1, y2, x2], Bottom(l, HintList(h))), alt)) == Failed
  {
    hide Exec;
    hide Main;
    hide HintedElement;
    hide CheckChord;
    hide AddChord;
    hide CopyNum;
    hide RollNum;
    hide Bottom;
    hide Reverse;
    hide IsElement;
    hide SpellsElement;
    var lines, sums := h.line2 + h.line1, h.square + h.last;
    var st := Running(Main([y1, x1, y2, x2], Bottom(l, HintList(h))), alt);
    var moves := CopyNum(U(), 1) + CopyNum(U(), 1) + (CopyNum(U(), 5) + RollNum(U(), 5)) + (CopyNum(U(), 8) + RollNum(U(), 8));
    var back := [Verify] + (RollNum(U(), 2) + RollNum(U(), 3));
    ExecAppend5(HintedElement() + HintedElement(), moves, CheckChord(), back, AddChord(), st);
    ExecAppend(HintedElement(), HintedElement(), st);
    ElementBound(h);
    LaterHints(l, h.alpha, h.minusBias + (lines + sums));
    ExecFailed(HintedElement());
    ExecFailed(moves);
    ExecFailed(CheckChord());
    ExecFailed(back);
    ExecFailed(AddChord());
    if SpellsElement(h.alpha) {
      GoodElementRun(Spelt(h.alpha), [y1, x1, y2, x2], h.alpha, l + Reverse(h.minusBias + (lines + sums)), alt);
      LaterHints(l, h.minusBias, lines + sums);
      BadElementRun([Spelt(h.alpha)] + [y1, x1, y2, x2], h.minusBias, l + Reverse(lines + sums), alt);
    } else {
      BadElementRun([y1, x1, y2, x2], h.alpha, l + Reverse(h.minusBias + (lines + sums)), alt);
    }
  }

  lemma {:induction false} ElementBound(h: AddHints)
    requires Sized(h)
    ensures |HintList(h)| == 54 && |h.minusBias + ((h.line2 + h.line1) + (h.square + h.last))| == 45
    ensures |(h.line2 + h.line1) + (h.square + h.last)| == 36
  {
  }

  lemma {:induction false} IsElementBound(h: seq<int>, v: nat)
    requires IsElement(h, v)
    ensures v < P
  {
  }

  /** `is_zero_keep_element` of a point: both coordinates are zero. */
  function IsIdentity(): Script {
    IsZeroKeepElement(U(), 0) + [ToAlt] + IsZeroKeepElement(U(), 1) + [FromAlt, BoolAnd]
  }

  lemma {:induction false} IsIdentityRun(y: nat, x: nat, vs: seq<nat>, r: Stack, alt: Stack)
    requires x < P && y < P
    ensures Exec(IsIdentity(), Running(Main([y, x] + vs, r), alt)) == Running(Cell(Bit(x == 0 && y == 0), Main([y, x] + vs, r)), alt)
  {
    hide Exec;
    hide Step;
    hide Prepend;
    hide IsZeroKeepElement;
    hide Number;
    hide NLimbs;
    hide Cells;
    hide Capacity;
    MoreStackRules();
    LogicRules();
    Facts();
    var s := Main([y, x] + vs, r);
    assert [y, x] + vs == [y] + ([x] + vs);
    MainFirst(y, [x] + vs, r);
    MainFirst(x, vs, r);
    NoCells(s);
    ExecAppend4(IsZeroKeepElement(U(), 0), [ToAlt], IsZeroKeepElement(U(), 1), [FromAlt, BoolAnd], Running(s, alt));
    IsZeroRun(U(), 0, [], y, Main([x] + vs, r), alt);
    var f, g := Bit(y == 0), Bit(x == 0);
    Exec1(ToAlt, Running(Cell(f, s), alt));
    IsZeroRun(U(), 1, Number(U(), y), x, Main(vs, r), Cell(f, alt));
    Exec2(FromAlt, BoolAnd, Running(Cell(g, s), Cell(f, alt)));
  }

  function DropPoint(): Script {
    DropNum(U()) + DropNum(U())
  }

  /** `hinted_check_add_prevent_degenerate`, on x1, y1, x2, y2. */
  function AddPoints(): Script {
    IsIdentity() +
    [If(DropPoint(), (RollNum(U(), 3) + RollNum(U(), 3)) + IsIdentity() + [If(DropPoint(), AddFinite())])]
  }

  lemma {:induction false} DropPointRun(y: nat, x: nat, vs: seq<nat>, r: Stack, alt: Stack)
    ensures Exec(DropPoint(), Running(Main([y, x] + vs, r), alt)) == Running(Main(vs, r), alt)
  {
    hide Exec;
    hide Main;
    hide DropNum;
    ExecAppend(DropNum(U()), DropNum(U()), Running(Main([y, x] + vs, r), alt));
    assert [y, x] + vs == [y] + ([x] + vs);
    DropStep(y, [x] + vs, r, alt);
    DropStep(x, vs, r, alt);
  }

  lemma {:induction false} SwapPoints(y2: nat, x2: nat, y1: nat, x1: nat, r: Stack, alt: Stack)
    ensures Exec(RollNum(U(), 3) + RollNum(U(), 3), Running(Main([y2, x2, y1, x1], r), alt)) ==
            Running(Main([y1, x1, y2, x2], r), alt)
  {
    hide Exec;
    hide Main;
    hide RollNum;
    var v0, v1 := [y2, x2, y1, x1], [x1, y2, x2, y1];
    ExecAppend(RollNum(U(), 3), RollNum(U(), 3), Running(Main(v0, r), alt));
    RollStep(v0, 3, r, alt);
    assert [x1] + v0[..3] + v0[4..] == v1;
    RollStep(v1, 3, r, alt);
    assert [y1] + v1[..3] + v1[4..] == [y1, x1, y2, x2];
  }

  /** The two shortcuts, which use no hints, and the real case. */
  lemma {:induction false} AddPointsRun(y2: nat, x2: nat, y1: nat, x1: nat, r: Stack, alt: Stack)
    requires x1 < P && y1 < P && x2 < P && y2 < P
    ensures Exec(AddPoints(), Running(Main([y2, x2, y1, x1], r), alt)) ==
            if x2 == 0 && y2 == 0 then Running(Main([y1, x1], r), alt)
            else if x1 == 0 && y1 == 0 then Running(Main([y2, x2], r), alt)
            else Exec(AddFinite(), Running(Main([y1, x1, y2, x2], r), alt))
  {
    hide Exec;
    hide Step;
    hide Main;
    hide IsIdentity;
    hide DropPoint;
    hide AddFinite;
    hide RollNum;
    MoreStackRules();
    var inner := If(DropPoint(), AddFinite());
    var els := (RollNum(U(), 3) + RollNum(U(), 3)) + IsIdentity() + [inner];
    var v, w := [y2, x2, y1, x1], [y1, x1, y2, x2];
    var st := Running(Main(v, r), alt);
    assert v == [y2, x2] + [y1, x1] && w == [y1, x1] + [y2, x2];
    ExecAppend(IsIdentity(), [If(DropPoint(), els)], st);
    IsIdentityRun(y2, x2, [y1, x1], r, alt);
    Exec1(If(DropPoint(), els), Running(Cell(Bit(x2 == 0 && y2 == 0), Main(v, r)), alt));
    DropPointRun(y2, x2, [y1, x1], r, alt);
    ExecAppend3(RollNum(U(), 3) + RollNum(U(), 3), IsIdentity(), [inner], st);
    SwapPoints(y2, x2, y1, x1, r, alt);
    IsIdentityRun(y1, x1, [y2, x2], r, alt);
    Exec1(inner, Running(Cell(Bit(x1 == 0 && y1 == 0), Main(w, r)), alt));
    DropPointRun(y1, x1, [y2, x2], r, alt);
  }
}
