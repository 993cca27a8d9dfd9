/** The addition script of G1 does what the chain of bitvm/src/bn254/msm.rs needs, for any group whose sums are given by chords. */
module MsmAddition {
  import opened Arithmetic
  import opened ScriptMachine
  import opened Limbs
  import opened LimbIo
  import opened HintMoves
  import opened FqStack
  import opened PointAddition
  import opened Msm
  import opened MsmChain

  /** Affine coordinates over the base field: only the identity is written as two zeros, and the sum of two other points whose
      addition is not degenerate lies on their chord, reflected. */
  ghost predicate Affine<G(!new)>(c: Curve<G>, slope: (G, G) -> nat) {
    (forall a :: c.x(a) < P && c.y(a) < P && (a == c.zero <==> c.x(a) == 0 && c.y(a) == 0)) &&
    (forall t, q :: t != c.zero && q != c.zero && !Degenerate(c, t, q) ==> Chord(c, slope(t, q), t, q, c.plus(t, q)))
  }

  /** Only the slope meets the equation of the chord. */
  ghost predicate OneSlope<G(!new)>(c: Curve<G>, slope: (G, G) -> nat) {
    forall t, q, alpha: nat ::
      t != c.zero && q != c.zero && !Degenerate(c, t, q) && alpha < P && OnChord(c, alpha, t, q) ==> alpha == slope(t, q)
  }

  predicate OnChord<G(!new)>(c: Curve<G>, alpha: nat, t: G, q: G) {
    (alpha * (c.x(t) - c.x(q)) - (c.y(t) - c.y(q))) % P == 0
  }

  predicate Chord<G(!new)>(c: Curve<G>, alpha: nat, t: G, q: G, sum: G) {
    alpha < P && OnChord(c, alpha, t, q) &&
    c.x(sum) == ChordX(alpha, c.x(t), c.x(q)) && c.y(sum) == (alpha * (c.x(t) - c.x(sum)) - c.y(t)) % P
  }

  /** alpha * x - y, the negated intercept of the line through a point. */
  function MinusBias(alpha: int, x: int, y: int): (r: nat)
    ensures r < P
  {
    (alpha * x - y) % P
  }

  function QuotientHint(x: nat, y: nat): (l: seq<int>)
    ensures |l| == 9
  {
    Reverse(QuotientCells(QuotientOf(x, y)))
  }

  function ElementHint(v: nat): (l: seq<int>)
    ensures |l| == NLimbs(U())
  {
    Reverse(Number(U(), v))
  }

  /** The hints the library generates. */
  function ChordHints<G(!new)>(c: Curve<G>, alpha: nat, t: G, q: G): AddHints {
    AddHints(ElementHint(alpha), ElementHint(MinusBias(alpha, c.x(t), c.y(t))), QuotientHint(c.x(q), alpha), QuotientHint(c.x(t), alpha),
             QuotientHint(alpha, alpha), QuotientHint(ChordX(alpha, c.x(t), c.x(q)), alpha))
  }

  function LibraryAddition<G(!new, ==)>(c: Curve<G>, slope: (G, G) -> nat): Addition<G> {
    Addition((t, q) => AddPoints(),
             (t, q) => if t == c.zero || q == c.zero then [] else HintList(ChordHints(c, slope(t, q), t, q)))
  }

  lemma {:induction false} QuotientHintIsQuotient(x: nat, y: nat)
    ensures IsQuotient(QuotientHint(x, y), x, y)
  {
    hide QuotientCells;
    ReverseTwice(QuotientCells(QuotientOf(x, y)));
  }

  lemma {:induction false} ElementHintIsElement(v: nat)
    requires v < P
    ensures IsElement(ElementHint(v), v) && |ElementHint(v)| == 9
  {
    hide Number;
    Facts();
    ReverseTwice(Number(U(), v));
  }

  /** Both points are on the chord, and the reflected third point is the sum. */
  lemma {:induction false} ChordPoints<G(!new)>(c: Curve<G>, alpha: nat, t: G, q: G, sum: G)
    requires Chord(c, alpha, t, q, sum)
    ensures var mb := MinusBias(alpha, c.x(t), c.y(t));
            OnLine(alpha, mb, c.x(t), c.y(t)) && OnLine(alpha, mb, c.x(q), c.y(q)) && c.y(sum) == ChordY(alpha, mb, c.x(sum))
  {
    hide OnLine;
    hide MinusBias;
    hide ChordX;
    hide ChordY;
    OwnLine(alpha, c.x(t), c.y(t));
    LineArithmetic(alpha, c.x(t), c.y(t), c.x(q), c.y(q));
    ReflectedY(alpha, c.x(t), c.y(t), c.x(sum));
  }

  lemma {:induction false} LineArithmetic(alpha: nat, x1: nat, y1: nat, x2: nat, y2: nat)
    ensures OnLine(alpha, MinusBias(alpha, x1, y1), x2, y2) <==> (alpha * (x1 - x2) - (y1 - y2)) % P == 0
  {
    var m := alpha * x1 - y1;
    ModAdd(y2 - alpha * x2, m, P);
    assert y2 - alpha * x2 + m == alpha * (x1 - x2) - (y1 - y2);
  }

  lemma {:induction false} OwnLine(alpha: nat, x: nat, y: nat)
    ensures OnLine(alpha, MinusBias(alpha, x, y), x, y)
  {
    hide OnLine;
    hide MinusBias;
    LineArithmetic(alpha, x, y, x, y);
    NoDifference(alpha, x, y);
  }

  lemma {:induction false} NoDifference(alpha: int, x: int, y: int)
    ensures alpha * (x - x) - (y - y) == 0
  {
  }

  lemma {:induction false} ReflectedY(alpha: nat, x: nat, y: nat, x3: nat)
    ensures ChordY(alpha, MinusBias(alpha, x, y), x3) == (alpha * (x - x3) - y) % P
  {
    ReflectedArithmetic(alpha, x, y, x3, P);
  }

  lemma {:induction false} ReflectedArithmetic(alpha: int, x: int, y: int, x3: int, p: nat)
    requires p > 0
    ensures ((alpha * x - y) % p - alpha * x3) % p == (alpha * (x - x3) - y) % p
  {
    var m := alpha * x - y;
    ModAdd(0 - alpha * x3, m, p);
    assert 0 - alpha * x3 + m == alpha * (x - x3) - y;
  }

  lemma {:induction false} PointIsMain<G(!new)>(c: Curve<G>, t: G, r: Stack)
    ensures Prepend(PointCells(c, U(), t), r) == Main([c.y(t), c.x(t)], r)
  {
    hide Number;
    CellsAppend([c.y(t)], [c.x(t)]);
    OneCell(c.y(t));
    OneCell(c.x(t));
    assert [c.y(t)] + [c.x(t)] == [c.y(t), c.x(t)];
  }

  lemma {:induction false} PointsAreMain<G(!new)>(c: Curve<G>, t: G, q: G, r: Stack)
    ensures Prepend(PointCells(c, U(), q), Prepend(PointCells(c, U(), t), r)) == Main([c.y(q), c.x(q), c.y(t), c.x(t)], r)
  {
    hide Prepend;
    hide PointCells;
    PointIsMain(c, t, r);
    PointIsMain(c, q, Main([c.y(t), c.x(t)], r));
    MainSplit([c.y(q), c.x(q)], [c.y(t), c.x(t)], r);
    assert [c.y(q), c.x(q)] + [c.y(t), c.x(t)] == [c.y(q), c.x(q), c.y(t), c.x(t)];
  }

  lemma {:induction false} FiniteSum<G(!new)>(c: Curve<G>, alpha: nat, t: G, q: G, l: seq<int>, alt: Stack)
    requires c.x(t) < P && c.y(t) < P && c.x(q) < P && c.y(q) < P && Chord(c, alpha, t, q, c.plus(t, q)) && |l| <= MsmChain.ROOM
    ensures Exec(AddFinite(), Running(Main([c.y(t), c.x(t), c.y(q), c.x(q)], Bottom(l, HintList(ChordHints(c, alpha, t, q)))), alt)) ==
            Running(Prepend(PointCells(c, U(), c.plus(t, q)), Bottom(l, [])), alt)
  {
    hide Exec;
    hide Main;
    hide AddFinite;
    hide Bottom;
    hide PointCells;
    hide IsQuotient;
    hide OnLine;
    hide ChordX;
    hide ChordY;
    hide MinusBias;
    hide QuotientHint;
    hide ElementHint;
    hide HintList;
    hide IsElement;
    hide NLimbs;
    var h, mb, sum := ChordHints(c, alpha, t, q), MinusBias(alpha, c.x(t), c.y(t)), c.plus(t, q);
    var x3 := ChordX(alpha, c.x(t), c.x(q));
    ChordPoints(c, alpha, t, q, sum);
    ElementHintIsElement(alpha);
    ElementHintIsElement(mb);
    QuotientHintIsQuotient(c.x(q), alpha);
    QuotientHintIsQuotient(c.x(t), alpha);
    QuotientHintIsQuotient(alpha, alpha);
    QuotientHintIsQuotient(x3, alpha);
    AddOnLineRun(c.y(t), c.x(t), c.y(q), c.x(q), alpha, mb, h, l, alt);
    PointIsMain(c, sum, Bottom(l, []));
  }

  // ---------- other hints ----------

  /** A number that can only be divided by one and by itself. */
  ghost predicate IsPrime(p: nat) {
    p > 1 && forall d: nat :: 1 < d < p ==> p % d != 0
  }

  /** A prime that divides a product of a smaller number divides the other factor. */
  lemma {:induction false} Euclid(p: nat, a: nat, b: int)
    requires IsPrime(p) && 0 < a < p && (a * b) % p == 0
    ensures b % p == 0
    decreases a
  {
    if a > 1 {
      var k, r := p / a, p % a;
      assert p == k * a + r;
      var m := a * b / p;
      assert a * b == m * p;
      Remainder(p, a, k, r, b, m);
      Euclid(p, r, b);
    }
  }

  lemma {:induction false} Remainder(p: nat, a: nat, k: nat, r: nat, b: int, m: int)
    requires p > 0 && p == k * a + r && a * b == m * p
    ensures (r * b) % p == 0
  {
    assert r * b == p * b - k * a * b;
    assert k * a * b == k * (a * b) == k * (m * p) == k * m * p;
    assert r * b == (b - k * m) * p;
    MultipleMod(b - k * m, p);
  }

  lemma {:induction false} MultipleMod(n: int, p: nat)
    requires p > 0
    ensures (n * p) % p == 0
  {
    DivModUnique(n * p, p, n, 0);
  }

  /** The slope is the only one when the base field is a field and points that share a coordinate are the same or opposite. */
  lemma {:induction false} PrimeGivesOneSlope<G(!new)>(c: Curve<G>, slope: (G, G) -> nat)
    requires Affine(c, slope) && IsPrime(P)
    requires forall t, q :: t != c.zero && q != c.zero && !Degenerate(c, t, q) ==> c.x(t) != c.x(q)
    ensures OneSlope(c, slope)
  {
    hide IsPrime;
    hide Degenerate;
    forall t, q, alpha: nat | t != c.zero && q != c.zero && !Degenerate(c, t, q) && alpha < P && OnChord(c, alpha, t, q)
      ensures alpha == slope(t, q)
    {
      SameSlope(P, alpha, slope(t, q), c.x(t), c.x(q), c.y(t) - c.y(q));
    }
  }

  lemma {:induction false} SameSlope(p: nat, a: nat, b: nat, x1: nat, x2: nat, dy: int)
    requires IsPrime(p) && a < p && b < p && x1 < p && x2 < p && x1 != x2
    requires (a * (x1 - x2) - dy) % p == 0 && (b * (x1 - x2) - dy) % p == 0
    ensures a == b
  {
    hide IsPrime;
    var m, n := MultipleOf(a * (x1 - x2) - dy, p), MultipleOf(b * (x1 - x2) - dy, p);
    if x1 < x2 {
      Opposite(a, x1 - x2);
      Opposite(b, x1 - x2);
      Opposite(m, p);
      Opposite(n, p);
      SlopeStep(p, a, b, x2 - x1, 0 - dy, -m, -n);
    } else {
      SlopeStep(p, a, b, x1 - x2, dy, m, n);
    }
  }

  function MultipleOf(x: int, p: nat): (m: int)
    requires p > 0 && x % p == 0
    ensures x == m * p
  {
    x / p
  }

  lemma {:induction false} Opposite(a: int, d: int)
    ensures a * -d == -(a * d) == -a * d
  {
  }

  lemma {:induction false} SlopeStep(p: nat, a: nat, b: nat, d: nat, e: int, m: int, n: int)
    requires IsPrime(p) && a < p && b < p && 0 < d < p
    requires a * d - e == m * p && b * d - e == n * p
    ensures a == b
  {
    assert d * (a - b) == a * d - b * d == (m - n) * p;
    MultipleMod(m - n, p);
    Euclid(p, d, a - b);
    SmallMultiple(a - b, p);
  }

  lemma {:induction false} SmallMultiple(n: int, p: nat)
    requires p > 0 && 0 < n + p && n < p && n % p == 0
    ensures n == 0
  {
    if n < 0 { DivModUnique(n, p, -1, n + p); } else { DivModUnique(n, p, 0, n); }
  }

  // ---------- the script ----------

  /** Cells in place of the hints, cut up. */
  function Cut(l: seq<int>): (h: AddHints)
    requires |l| == 54
    ensures Sized(h)
  {
    AddHints(l[..9], l[9..18], l[18..27], l[27..36], l[36..45], l[45..])
  }

  lemma {:induction false} CutList(l: seq<int>)
    requires |l| == 54
    ensures HintList(Cut(l)) == l
  {
  }

  lemma {:induction false} ReversedHint(h: seq<int>, l: seq<int>)
    requires Reverse(h) == l
    ensures h == Reverse(l)
  {
    ReverseTwice(h);
  }

  lemma {:induction false} OwnIntercept(alpha: nat, mb: nat, x: nat, y: nat)
    requires mb < P && OnLine(alpha, mb, x, y)
    ensures mb == MinusBias(alpha, x, y)
  {
    Complement(alpha * x - y, mb, P);
  }

  lemma {:induction false} Complement(m: int, mb: nat, p: nat)
    requires mb < p && (mb - m) % p == 0
    ensures mb == m % p
  {
    var k := (mb - m) / p;
    assert mb - m == k * p;
    DivModUnique(m, p, 0 - k, mb);
  }

  /** Right hints are the library's, since there is only one slope. */
  lemma {:induction false} RightIsLibrary<G(!new)>(c: Curve<G>, slope: (G, G) -> nat, t: G, q: G, h: AddHints)
    requires OneSlope(c, slope) && t != c.zero && q != c.zero && !Degenerate(c, t, q) && Sized(h)
    requires RightHints(h, c.x(t), c.y(t), c.x(q), c.y(q))
    ensures h == ChordHints(c, slope(t, q), t, q)
  {
    hide Degenerate;
    hide OnLine;
    hide OnChord;
    hide MinusBias;
    hide ChordX;
    hide Number;
    hide Reverse;
    hide QuotientCells;
    hide QuotientOf;
    hide SpellsElement;
    var alpha, mb := Spelt(h.alpha), Spelt(h.minusBias);
    OwnIntercept(alpha, mb, c.x(t), c.y(t));
    SecondPoint(alpha, c, t, q);
    assert OnChord(c, alpha, t, q);
    ReversedHint(h.alpha, Number(U(), alpha));
    ReversedHint(h.minusBias, Number(U(), mb));
    ReversedHint(h.line2, QuotientCells(QuotientOf(c.x(q), alpha)));
    ReversedHint(h.line1, QuotientCells(QuotientOf(c.x(t), alpha)));
    ReversedHint(h.square, QuotientCells(QuotientOf(alpha, alpha)));
    ReversedHint(h.last, QuotientCells(QuotientOf(ChordX(alpha, c.x(t), c.x(q)), alpha)));
  }

  lemma {:induction false} SecondPoint<G(!new)>(alpha: nat, c: Curve<G>, t: G, q: G)
    ensures OnLine(alpha, MinusBias(alpha, c.x(t), c.y(t)), c.x(q), c.y(q)) <==> OnChord(c, alpha, t, q)
  {
    LineArithmetic(alpha, c.x(t), c.y(t), c.x(q), c.y(q));
  }

  /** No other cells do. */
  lemma {:induction false} OtherHintsFail<G(!new)>(c: Curve<G>, slope: (G, G) -> nat, t: G, q: G, h: seq<int>, l: seq<int>, alt: Stack)
    requires Affine(c, slope) && OneSlope(c, slope) && t != c.zero && q != c.zero && !Degenerate(c, t, q)
    requires |h| == 54 && h != HintList(ChordHints(c, slope(t, q), t, q)) && |l| <= MsmChain.ROOM
    ensures Exec(AddFinite(), Running(Main([c.y(t), c.x(t), c.y(q), c.x(q)], Bottom(l, h)), alt)) == Failed
  {
    hide Exec;
    hide Main;
    hide AddFinite;
    hide Bottom;
    hide HintList;
    hide Cut;
    hide ChordHints;
    hide RightHints;
    hide OneSlope;
    hide Degenerate;
    hide Chord;
    CutList(h);
    if RightHints(Cut(h), c.x(t), c.y(t), c.x(q), c.y(q)) {
      RightIsLibrary(c, slope, t, q, Cut(h));
      assert false;
    }
    AddFiniteRun(c.y(t), c.x(t), c.y(q), c.x(q), Cut(h), l, alt);
  }

  /** A point addition replaces the two points by their sum, and uses up its hints; if there is only one slope, it fails on any
      other cells. */
  lemma {:induction false} AdditionAdds<G(!new)>(c: Curve<G>, slope: (G, G) -> nat, t: G, q: G, strict: bool)
    requires Abelian(c) && Affine(c, slope) && !Degenerate(c, t, q) && (strict ==> OneSlope(c, slope))
    ensures var add := LibraryAddition(c, slope); Adds(add.script(t, q), add.hints(t, q), c, U(), t, q, strict)
  {
    hide Exec;
    hide Main;
    hide AddPoints;
    hide AddFinite;
    hide Bottom;
    hide PointCells;
    hide HintList;
    hide ChordHints;
    hide Chord;
    hide OneSlope;
    hide NLimbs;
    var add := LibraryAddition(c, slope);
    var hints := add.hints(t, q);
    forall l: seq<int>, h: seq<int>, alt: Stack | |l| <= MsmChain.ROOM && |h| == |hints| && (strict || h == hints)
      ensures Exec(AddPoints(), Running(Prepend(PointCells(c, U(), q), Prepend(PointCells(c, U(), t), Bottom(l, h))), alt)) ==
              Ends(h == hints, Running(Prepend(PointCells(c, U(), c.plus(t, q)), Bottom(l, [])), alt))
    {
      PointsAreMain(c, t, q, Bottom(l, h));
      AddPointsRun(c.y(q), c.x(q), c.y(t), c.x(t), Bottom(l, h), alt);
      if q == c.zero {
        PointIsMain(c, t, Bottom(l, []));
      } else if t == c.zero {
        assert c.plus(t, q) == c.plus(q, t) == q;
        PointIsMain(c, q, Bottom(l, []));
      } else if h == hints {
        FiniteSum(c, slope(t, q), t, q, l, alt);
      } else {
        HintCount(c, slope(t, q), t, q);
        OtherHintsFail(c, slope, t, q, h, l, alt);
      }
    }
  }

  lemma {:induction false} HintCount<G(!new)>(c: Curve<G>, alpha: nat, t: G, q: G)
    ensures |HintList(ChordHints(c, alpha, t, q))| == 54
  {
    hide Number;
    hide QuotientHint;
    hide Reverse;
    Facts();
  }

  /** The addition script with the library's hints is the one the chain needs. */
  lemma {:induction false} LibraryIsScripted<G(!new)>(c: Curve<G>, slope: (G, G) -> nat, strict: bool)
    requires Abelian(c) && Affine(c, slope) && (strict ==> OneSlope(c, slope))
    ensures Scripted(c, U(), LibraryAddition(c, slope), strict)
  {
    hide Adds;
    hide Chord;
    hide OneSlope;
    hide LibraryAddition;
    hide NLimbs;
    Facts();
    forall t, q | !Degenerate(c, t, q)
      ensures var add := LibraryAddition(c, slope); Adds(add.script(t, q), add.hints(t, q), c, U(), t, q, strict)
    {
      AdditionAdds(c, slope, t, q, strict);
    }
  }
}
