/** The gadgets of the base field of BN254, on stacks of whole field elements (bitvm/src/bn254/fp254impl.rs, bitvm/src/bn254/fq.rs). */
module FqStack {
  import opened Arithmetic
  import opened ScriptMachine
  import opened Limbs
  import opened StackMoves
  import opened NumberMoves
  import opened Compare
  import opened LimbIo
  import opened FieldAdd
  import opened FieldSub
  import opened TmulScript
  import opened TmulProgram
  import opened TmulExact
  import M = Tmul

  const P: nat := M.MODULUS

  /** `BigIntImpl<254, 29>`. */
  function U(): (w: Width)
    ensures Valid(w)
  {
    Width(254, 29)
  }

  lemma {:induction false} Facts()
    ensures Roomy(U()) && NLimbs(U()) == 9 && P < Capacity(U()) && OperandWidth(MulConfig()) == U()
  {
    U254IsRoomy();
    M.InstantiationsFit(MulConfig());
  }

  /** Field elements as cells, vs[0] on top. */
  function Cells(vs: seq<nat>): (l: seq<int>)
    ensures |l| == |vs| * NLimbs(U())
    ensures |l| == NLimbs(U()) * |vs|
  {
    if vs == [] then [] else Number(U(), vs[0]) + Cells(vs[1..])
  }

  lemma {:induction false} CellsAppend(a: seq<nat>, b: seq<nat>)
    ensures Cells(a + b) == Cells(a) + Cells(b)
    decreases |a|
  {
    hide Number;
    hide NLimbs;
    if a == [] {
      assert a + b == b;
    } else {
      assert (a + b)[1..] == a[1..] + b;
      CellsAppend(a[1..], b);
    }
  }

  lemma {:induction false} OneCell(v: nat)
    ensures Cells([v]) == Number(U(), v)
  {
    assert [v][1..] == [];
    assert Cells([v]) == Number(U(), v) + Cells([]);
  }

  lemma {:induction false} SizeOf(vs: seq<nat>)
    ensures |Cells(vs)| == 9 * |vs| && NLimbs(U()) == 9
  {
    Facts();
  }

  /** The main stack: these elements on top of the rest. */
  function Main(vs: seq<nat>, r: Stack): Stack {
    Prepend(Cells(vs), r)
  }

  lemma {:induction false} MainSplit(a: seq<nat>, b: seq<nat>, r: Stack)
    ensures Main(a + b, r) == Main(a, Main(b, r))
  {
    CellsAppend(a, b);
    PrependAppend(Cells(a), Cells(b), r);
  }

  lemma {:induction false} MainFirst(v: nat, vs: seq<nat>, r: Stack)
    ensures Main([v] + vs, r) == On(U(), v, Main(vs, r))
  {
    MainSplit([v], vs, r);
    OneCell(v);
  }

  function Plus(x: int, y: int): (r: nat)
    ensures r < P
  {
    (x + y) % P
  }

  function Minus(x: int, y: int): (r: nat)
    ensures r < P
  {
    (x - y) % P
  }

  function Product(x: int, y: int): (r: nat)
    ensures r < P
  {
    (x * y) % P
  }

  // ---------- moves ----------

  lemma {:induction false} CopyStep(vs: seq<nat>, i: nat, r: Stack, alt: Stack)
    requires i < |vs| < 1000
    ensures Exec(CopyNum(U(), i), Running(Main(vs, r), alt)) == Running(Main([vs[i]] + vs, r), alt)
  {
    hide Exec;
    hide Prepend;
    hide Number;
    hide NLimbs;
    hide CopyNum;
    var top, x, rest := vs[..i], vs[i], vs[i + 1..];
    assert vs == top + ([x] + rest);
    MainSplit(top, [x] + rest, r);
    MainFirst(x, rest, r);
    SizeOf(top);
    var s := Main(rest, r);
    PrependAppend(Cells(top), Number(U(), x), s);
    CopyRun(U(), i, Cells(top), Number(U(), x), s, alt);
    PrependAppend(Number(U(), x) + Cells(top), Number(U(), x), s);
    PrependAppend(Number(U(), x), Cells(top), On(U(), x, s));
    MainFirst(x, vs, r);
  }

  lemma {:induction false} RollStep(vs: seq<nat>, i: nat, r: Stack, alt: Stack)
    requires i < |vs| < 1000
    ensures Exec(RollNum(U(), i), Running(Main(vs, r), alt)) == Running(Main([vs[i]] + vs[..i] + vs[i + 1..], r), alt)
  {
    hide Exec;
    hide Prepend;
    hide Number;
    hide NLimbs;
    hide RollNum;
    var top, x, rest := vs[..i], vs[i], vs[i + 1..];
    assert vs == top + ([x] + rest) && [x] + top + rest == [x] + (top + rest);
    MainSplit(top, [x] + rest, r);
    MainFirst(x, rest, r);
    SizeOf(top);
    var s := Main(rest, r);
    PrependAppend(Cells(top), Number(U(), x), s);
    RollRun(U(), i, Cells(top), Number(U(), x), s, alt);
    PrependAppend(Number(U(), x), Cells(top), s);
    MainSplit(top, rest, r);
    MainFirst(x, top + rest, r);
  }

  lemma {:induction false} DropStep(v: nat, vs: seq<nat>, r: Stack, alt: Stack)
    ensures Exec(DropNum(U()), Running(Main([v] + vs, r), alt)) == Running(Main(vs, r), alt)
  {
    hide Exec;
    hide DropNum;
    hide Number;
    hide NLimbs;
    MainFirst(v, vs, r);
    DropRun(U(), Number(U(), v), Main(vs, r), alt);
  }

  lemma {:induction false} ZeroStep(vs: seq<nat>, r: Stack, alt: Stack)
    ensures Exec(PushCopies(0, NLimbs(U())), Running(Main(vs, r), alt)) == Running(Main([0] + vs, r), alt)
  {
    hide Exec;
    hide PushCopies;
    hide NLimbs;
    PushZeroRun(U(), Main(vs, r), alt);
    MainFirst(0, vs, r);
  }

  // ---------- two operands ----------

  /** Elements a and b taken out of the list. */
  function Others(vs: seq<nat>, a: nat, b: nat): (r: seq<nat>)
    requires a < b < |vs|
    ensures |r| == |vs| - 2
  {
    vs[..a] + vs[a + 1..b] + vs[b + 1..]
  }

  lemma {:induction false} PairStack(vs: seq<nat>, a: nat, b: nat, r: Stack)
    requires a < b < |vs| < 1000
    ensures var top, mid := Cells(vs[..a]), Cells(vs[a + 1..b]);
            var s := Main(vs[b + 1..], r);
            Placed(U(), a, b, top, mid) && Placed(U(), b, a, top, mid) &&
            Main(vs, r) == Pair(a, b, top, mid, Number(U(), vs[a]), Number(U(), vs[b]), s) &&
            Main(vs, r) == Pair(b, a, top, mid, Number(U(), vs[b]), Number(U(), vs[a]), s) &&
            forall v: nat :: On(U(), v, Prepend(top + mid, s)) == Main([v] + Others(vs, a, b), r)
  {
    hide Prepend;
    hide Number;
    hide NLimbs;
    hide Cells;
    var top, x, mid, y, rest := vs[..a], vs[a], vs[a + 1..b], vs[b], vs[b + 1..];
    SizeOf(top);
    SizeOf(mid);
    assert vs == (top + [x] + mid + [y]) + rest;
    MainSplit(top + [x] + mid + [y], rest, r);
    CellsAppend(top + [x] + mid, [y]);
    CellsAppend(top + [x], mid);
    CellsAppend(top, [x]);
    OneCell(x);
    OneCell(y);
    forall v: nat ensures On(U(), v, Prepend(Cells(top) + Cells(mid), Main(rest, r))) == Main([v] + Others(vs, a, b), r) {
      MainFirst(v, Others(vs, a, b), r);
      MainSplit(top + mid, rest, r);
      CellsAppend(top, mid);
    }
  }

  lemma {:induction false} AddStep(vs: seq<nat>, a: nat, b: nat, r: Stack, alt: Stack)
    requires a < b < |vs| < 1000 && vs[a] < P && vs[b] < P
    ensures Exec(AddMod(U(), P, b, a), Running(Main(vs, r), alt)) == Running(Main([Plus(vs[b], vs[a])] + Others(vs, a, b), r), alt)
  {
    hide Exec;
    hide Prepend;
    hide Number;
    hide NLimbs;
    hide AddMod;
    hide Cells;
    hide Pair;
    hide Capacity;
    hide Main;
    Facts();
    PairStack(vs, a, b, r);
    AddModCorrect(U(), P, b, a, Cells(vs[..a]), Cells(vs[a + 1..b]), vs[b], vs[a], Main(vs[b + 1..], r), alt);
  }

  /** The minuend is the deeper operand. */
  lemma {:induction false} SubStep(vs: seq<nat>, a: nat, b: nat, r: Stack, alt: Stack)
    requires a < b < |vs| < 1000 && vs[a] < P && vs[b] < P
    ensures Exec(SubMod(U(), P, b, a), Running(Main(vs, r), alt)) == Running(Main([Minus(vs[b], vs[a])] + Others(vs, a, b), r), alt)
    ensures Exec(SubMod(U(), P, a, b), Running(Main(vs, r), alt)) == Running(Main([Minus(vs[a], vs[b])] + Others(vs, a, b), r), alt)
  {
    hide Exec;
    hide Prepend;
    hide Number;
    hide NLimbs;
    hide SubMod;
    hide Cells;
    hide Pair;
    hide Capacity;
    hide Main;
    Facts();
    PairStack(vs, a, b, r);
    SubModCorrect(U(), P, b, a, Cells(vs[..a]), Cells(vs[a + 1..b]), vs[b], vs[a], Main(vs[b + 1..], r), alt);
    SubModCorrect(U(), P, a, b, Cells(vs[..a]), Cells(vs[a + 1..b]), vs[a], vs[b], Main(vs[b + 1..], r), alt);
  }

  lemma {:induction false} EqualStep(x: nat, y: nat, vs: seq<nat>, r: Stack, alt: Stack)
    requires |vs| < 900
    ensures Exec(EqualNums(U(), 1, 0), Running(Main([x, y] + vs, r), alt)) == Running(Cell(Bit(y == x), Main(vs, r)), alt)
  {
    hide Exec;
    hide Prepend;
    hide Number;
    hide NLimbs;
    hide EqualNums;
    hide Cells;
    Facts();
    hide Placed;
    hide Pair;
    var both, none: seq<int> := [x, y] + vs, [];
    PairStack(both, 0, 1, r);
    NoElements();
    assert both[..0] == [] && both[1..1] == [] && both[2..] == vs && both[0] == x && both[1] == y;
    assert none + none == none;
    EqualCorrect(U(), 1, 0, none, none, y, x, Main(vs, r), alt);
    NoCells(Main(vs, r));
  }

  lemma {:induction false} NoElements()
    ensures Cells([]) == []
  {
  }

  // ---------- hinted products ----------

  /** The configuration of `tmul` for a single product. */
  function MulConfig(): M.Config {
    M.Config(M.MODULUS, 254, 4, 1)
  }

  function TmulScript1(): Script {
    InstantiationsSetUp(MulConfig());
    TMulScript(MulConfig(), WindowScripts(MulConfig()))
  }

  /** The true quotient of a product. */
  function QuotientOf(x: nat, y: nat): nat {
    MulNonNeg(x, y);
    DivNonNeg(x * y, P);
    (x * y) / P
  }

  /** The cells of a quotient hint. */
  function QuotientCells(q: nat): (l: seq<int>)
    ensures |l| == 9
  {
    InstantiationsSetUp(MulConfig());
    Number(AccWidth(MulConfig()), q)
  }

  lemma {:induction false} TmulRun(x: nat, y: nat, hint: seq<int>, r: Stack, alt: Stack)
    requires x < P && y < P && |hint| == 9
    ensures Exec(TmulScript1(), Running(On(U(), y, On(U(), x, Prepend(hint, r))), alt)) ==
            if hint == QuotientCells(QuotientOf(x, y)) then Running(On(U(), Product(x, y), r), alt) else Failed
  {
    hide Exec;
    hide TMulScript;
    hide WindowScripts;
    hide On;
    hide Prepend;
    hide Number;
    hide NLimbs;
    hide Capacity;
    hide M.Roomy;
    Facts();
    MulNonNeg(x, y);
    DivNonNeg(x * y, P);
    InstantiationsSetUp(MulConfig());
    hide Setup;
    var xs, ys := [x], [y];
    FqScriptExact(MulConfig(), xs, ys, hint, r, alt);
    assert xs + ys == [x, y];
    OperandPile(x, y, hint, r);
    assert xs[1..] == [] && ys[1..] == [];
    assert M.Dot(xs, ys) == x * y + M.Dot([], []) && M.Dot([], []) == 0;
  }

  lemma {:induction false} OperandPile(x: nat, y: nat, hint: seq<int>, r: Stack)
    ensures Pile(U(), Reverse([x, y]), Prepend(hint, r)) == On(U(), y, On(U(), x, Prepend(hint, r)))
  {
    hide On;
    hide Prepend;
    var s := Prepend(hint, r);
    assert [x, y][1..] == [y] && [y][1..] == [];
    assert Reverse([y]) == Reverse([]) + [y] && Reverse([]) == [];
    assert Reverse([x, y]) == [y, x];
    assert [y, x][1..] == [x] && [x][1..] == [];
    assert Pile(U(), [x], s) == On(U(), x, Pile(U(), [], s));
  }
}
