/** The hinted windowed multiplication of bitvm/src/bn254/fq.rs, one level above the script: accumulators and
    table entries are the signed readings of T-wide big integers, and every addition, doubling and shift carries
    the overflow guard of the signed gadgets. */
module Tmul {
  import opened Arithmetic
  import opened Wrappers
  import opened CompactTarget
  import opened TwosComplement

  /** The modulus of the base field of BN254. */
  const MODULUS: nat := 0x30644e72e131a029b85045b68181585d97816a916871ca8d3c208c16d87cfd47

  /** `fp_lc_mul!`: modulus and width of the operands, window width and number of products; the macro asserts that
      the two window widths agree. */
  datatype Config = Config(p: nat, nBits: nat, width: nat, nLc: nat)

  /** Bits needed to count the products. */
  function LcBits(c: Config): nat
    requires c.nLc > 0
  {
    BitLength(c.nLc - 1)
  }

  /** Width of the accumulator type T. */
  function TBits(c: Config): (r: nat)
    requires c.nLc > 0
    ensures r > 0
  {
    c.nBits + c.width + LcBits(c) + 1
  }

  function NWindows(c: Config): nat
    requires c.width > 0
  {
    DivNonNeg(c.nBits + c.width - 1, c.width);
    (c.nBits + c.width - 1) / c.width
  }

  /** The overflow guard: the script fails where this is None. */
  function Checked(bits: nat, v: int): (r: Option<int>)
    requires bits > 0
  {
    if Fits(bits, v) then Some(v) else None
  }

  /** `init_table`: entries 1 to n; an even entry doubles an earlier one, an odd entry adds the first to the last. */
  function Table(bits: nat, x: int, n: nat): (r: Option<seq<int>>)
    requires bits > 0 && n > 0
    ensures r.Some? ==> |r.value| == n
  {
    if n == 1 then Some([x])
    else match Table(bits, x, n - 1)
      case None => None
      case Some(t) =>
        match Checked(bits, if n % 2 == 0 then t[n / 2 - 1] + t[n / 2 - 1] else t[n - 2] + t[0])
        case None => None
        case Some(v) => Some(t + [v])
  }

  function Tables(bits: nat, xs: seq<nat>, n: nat): (r: Option<seq<seq<int>>>)
    requires bits > 0 && n > 0
    ensures r.Some? ==> |r.value| == |xs|
    ensures r.Some? ==> forall j :: 0 <= j < |xs| ==> |r.value[j]| == n
  {
    if xs == [] then Some([])
    else match (Table(bits, xs[0], n), Tables(bits, xs[1..], n))
      case (Some(t), Some(ts)) => Some([t] + ts)
      case _ => None
  }

  /** The top k windows of v. */
  function Top(c: Config, v: nat, k: nat): nat
    requires c.width > 0 && k <= NWindows(c)
  {
    DivNonNeg(v, Pow2(c.width * (NWindows(c) - k)));
    v / Pow2(c.width * (NWindows(c) - k))
  }

  /** Window k of v, the most significant one first. */
  function Window(c: Config, v: nat, k: nat): (r: nat)
    requires c.width > 0 && k < NWindows(c)
    ensures r < Pow2(c.width)
  {
    Top(c, v, k + 1) % Pow2(c.width)
  }

  /** Adds the table entry of each non-zero window to the accumulator. The very first entry replaces the zero
      accumulator instead. */
  function AddVars(bits: nat, z: int, first: bool, tables: seq<seq<int>>, ws: seq<nat>): (r: Option<int>)
    requires bits > 0 && |tables| == |ws|
    requires forall j :: 0 <= j < |ws| ==> ws[j] <= |tables[j]|
    decreases |ws|
  {
    if ws == [] then Some(z)
    else
      var sum :=
        if ws[0] == 0 then Some(z)
        else if first then Some(tables[0][ws[0] - 1])
        else Checked(bits, z + tables[0][ws[0] - 1]);
      match sum
      case None => None
      case Some(z') => AddVars(bits, z', false, tables[1..], ws[1..])
  }

  function Windows(c: Config, ys: seq<nat>, k: nat): (r: seq<nat>)
    requires c.width > 0 && k < NWindows(c)
    ensures |r| == |ys| && forall j :: 0 <= j < |ys| ==> r[j] == Window(c, ys[j], k)
  {
    seq(|ys|, j requires 0 <= j < |ys| => Window(c, ys[j], k))
  }

  /** One round of the main loop: products, modulus, shift. */
  function Round(c: Config, k: nat, z: int, tables: seq<seq<int>>, qTable: seq<int>, ys: seq<nat>): (r: Option<int>)
    requires c.width > 0 && c.nLc > 0 && k < NWindows(c)
    requires |tables| == |ys| && |qTable| == Pow2(c.width) - 1
    requires forall j :: 0 <= j < |ys| ==> |tables[j]| == Pow2(c.width) - 1
  {
    match AddVars(TBits(c), z, k == 0, tables, Windows(c, ys, k))
    case None => None
    case Some(z1) =>
      var m := Window(c, c.p, k);
      match if m == 0 then Some(z1) else Checked(TBits(c), z1 + qTable[m - 1])
      case None => None
      case Some(z2) =>
        if k + 1 < NWindows(c) then Checked(TBits(c), z2 * Pow2(c.width)) else Some(z2)
  }

  function MainLoop(c: Config, k: nat, z: int, tables: seq<seq<int>>, qTable: seq<int>, ys: seq<nat>): (r: Option<int>)
    requires c.width > 0 && c.nLc > 0 && k <= NWindows(c)
    requires |tables| == |ys| && |qTable| == Pow2(c.width) - 1
    requires forall j :: 0 <= j < |ys| ==> |tables[j]| == Pow2(c.width) - 1
    decreases NWindows(c) - k
  {
    if k == NWindows(c) then Some(z)
    else match Round(c, k, z, tables, qTable, ys)
      case None => None
      case Some(z') => MainLoop(c, k + 1, z', tables, qTable, ys)
  }

  /** `tmul` on operands and a quotient hint; None where the script fails. */
  function TMul(c: Config, xs: seq<nat>, ys: seq<nat>, q: nat): (r: Option<int>)
    requires c.width > 0 && c.nLc > 0 && |xs| == |ys|
  {
    var bits, n := TBits(c), Pow2(c.width) - 1;
    Pow2Mono(1, c.width);
    if !((forall j :: 0 <= j < |xs| ==> xs[j] < c.p && ys[j] < c.p) && q < Pow2(bits)) then None
    else match (Table(bits, Signed(bits, Negation(bits, q)), n), Tables(bits, xs, n))
      case (Some(qTable), Some(tables)) =>
        (match MainLoop(c, 0, 0, tables, qTable, ys)
         case None => None
         case Some(z) => if Unsigned(bits, z) < c.p then Some(z) else None)
      case _ => None
  }

  function Dot(xs: seq<nat>, ys: seq<nat>): (r: nat)
    requires |xs| == |ys|
  {
    if xs == [] then 0 else MulNonNeg(xs[0], ys[0]); xs[0] * ys[0] + Dot(xs[1..], ys[1..])
  }

  /** The quotient that `hinted_mul` and its variants supply. */
  function HonestHint(c: Config, xs: seq<nat>, ys: seq<nat>): nat
    requires |xs| == |ys| && c.p > 0
  {
    DivNonNeg(Dot(xs, ys), c.p);
    Dot(xs, ys) / c.p
  }

  // ---------- tables ----------

  /** Entry k of a table is k times the base, and building it fails exactly when some multiple does not fit. */
  lemma {:induction false} TableEntries(bits: nat, x: int, n: nat)
    requires bits > 0 && n > 0 && Fits(bits, x)
    ensures Table(bits, x, n).Some? <==> Fits(bits, n * x)
    ensures Table(bits, x, n).Some? ==> forall k :: 0 < k <= n ==> Table(bits, x, n).value[k - 1] == k * x
  {
    if n > 1 {
      TableEntries(bits, x, n - 1);
      if Fits(bits, n * x) { SmallerMultipleFits(bits, x, n); }
      if Table(bits, x, n - 1).Some? {
        var t := Table(bits, x, n - 1).value;
        assert t[n - 2] == (n - 1) * x && t[0] == 1 * x;
        if n % 2 == 0 {
          assert t[n / 2 - 1] == n / 2 * x;
          assert n / 2 * x + n / 2 * x == (n / 2 + n / 2) * x;
        }
      }
    }
  }

  lemma {:induction false} SmallerMultipleFits(bits: nat, x: int, n: nat)
    requires bits > 0 && n > 1 && Fits(bits, x) && Fits(bits, n * x)
    ensures Fits(bits, (n - 1) * x)
  {
    if x >= 0 { MulMono(n - 1, n, x); } else { MulMono(n - 1, n, -x); }
  }

  lemma {:induction false} MultipleFits(bits: nat, x: int, k: nat, n: nat)
    requires bits > 0 && k <= n && Fits(bits, n * x)
    ensures Fits(bits, k * x)
  {
    if x >= 0 { MulMono(k, n, x); } else { MulMono(k, n, -x); }
  }

  /** Row j of the tables holds the multiples of x_j, all of which fit. */
  ghost predicate TablesOk(bits: nat, xs: seq<nat>, tables: seq<seq<int>>, n: nat)
    requires bits > 0
  {
    |tables| == |xs| &&
    forall j :: 0 <= j < |xs| ==> RowOk(bits, xs[j], tables[j], n)
  }

  ghost predicate RowOk(bits: nat, x: int, row: seq<int>, n: nat)
    requires bits > 0
  {
    |row| == n && forall k :: 0 < k <= n ==> row[k - 1] == k * x && Fits(bits, k * x)
  }

  lemma {:induction false} TableIsRow(bits: nat, x: int, n: nat)
    requires bits > 0 && n > 0 && Fits(bits, x) && Table(bits, x, n).Some?
    ensures RowOk(bits, x, Table(bits, x, n).value, n)
  {
    TableEntries(bits, x, n);
    forall k | 0 < k <= n ensures Fits(bits, k * x) { MultipleFits(bits, x, k, n); }
  }

  lemma {:induction false} TablesAreOk(bits: nat, xs: seq<nat>, n: nat)
    requires bits > 0 && n > 0 && forall j :: 0 <= j < |xs| ==> Fits(bits, xs[j])
    ensures Tables(bits, xs, n).Some? ==> TablesOk(bits, xs, Tables(bits, xs, n).value, n)
    ensures (forall j :: 0 <= j < |xs| ==> Fits(bits, n * xs[j])) ==> Tables(bits, xs, n).Some?
    decreases |xs|
  {
    if xs != [] {
      TableEntries(bits, xs[0], n);
      if Table(bits, xs[0], n).Some? { TableIsRow(bits, xs[0], n); }
      forall j | 0 <= j < |xs[1..]| ensures Fits(bits, xs[1..][j]) { assert xs[1..][j] == xs[j + 1]; }
      TablesAreOk(bits, xs[1..], n);
    }
  }

  // ---------- products of windows ----------

  /** Whatever the guards let through is the sum; they let it through when neither end leaves the range. */
  lemma {:induction false} AddVarsIsDot(bits: nat, z: int, first: bool, xs: seq<nat>, tables: seq<seq<int>>, ws: seq<nat>, n: nat)
    requires bits > 0 && |xs| == |ws| && TablesOk(bits, xs, tables, n)
    requires forall j :: 0 <= j < |ws| ==> ws[j] <= n
    requires first ==> z == 0
    requires Fits(bits, z)
    ensures AddVars(bits, z, first, tables, ws).Some? ==>
              AddVars(bits, z, first, tables, ws).value == z + Dot(xs, ws) && Fits(bits, z + Dot(xs, ws))
    ensures Fits(bits, z + Dot(xs, ws)) ==> AddVars(bits, z, first, tables, ws).Some?
    decreases |ws|
  {
    if ws != [] {
      assert RowOk(bits, xs[0], tables[0], n);
      MulNonNeg(xs[0], ws[0]);
      var z' := z + ws[0] * xs[0];
      forall j | 0 <= j < |xs| - 1 ensures RowOk(bits, xs[1..][j], tables[1..][j], n) {
        assert RowOk(bits, xs[j + 1], tables[j + 1], n);
      }
      if Fits(bits, z') {
        AddVarsIsDot(bits, z', false, xs[1..], tables[1..], ws[1..], n);
      }
    }
  }

  lemma {:induction false} TopStep(c: Config, v: nat, k: nat)
    requires c.width > 0 && k < NWindows(c)
    ensures Top(c, v, k + 1) == Pow2(c.width) * Top(c, v, k) + Window(c, v, k)
  {
    var d := c.width * (NWindows(c) - k - 1);
    MulNonNeg(c.width, NWindows(c) - k - 1);
    assert c.width * (NWindows(c) - k) == d + c.width;
    Pow2Add(d, c.width);
    DivDiv(v, Pow2(d), Pow2(c.width));
  }

  lemma {:induction false} TopEnds(c: Config, v: nat)
    requires c.width > 0 && v < Pow2(c.nBits)
    ensures Top(c, v, 0) == 0 && Top(c, v, NWindows(c)) == v
  {
    assert Pow2(0) == 1;
    var n := NWindows(c);
    assert c.width * n >= c.nBits by {
      var r := (c.nBits + c.width - 1) % c.width;
      assert c.nBits + c.width - 1 == c.width * n + r;
    }
    Pow2Mono(c.nBits, c.width * n);
    DivModUnique(v, Pow2(c.width * n), 0, v);
    assert c.width * (n - n) == 0;
  }

  function Tops(c: Config, ys: seq<nat>, k: nat): (r: seq<nat>)
    requires c.width > 0 && k <= NWindows(c)
    ensures |r| == |ys|
  {
    seq(|ys|, j requires 0 <= j < |ys| => Top(c, ys[j], k))
  }

  /** Dot products are linear in the second argument. */
  lemma {:induction false} DotLinear(xs: seq<nat>, a: seq<nat>, b: seq<nat>, s: seq<nat>, m: nat)
    requires |xs| == |a| == |b| == |s| && forall j :: 0 <= j < |s| ==> s[j] == m * a[j] + b[j]
    ensures Dot(xs, s) == m * Dot(xs, a) + Dot(xs, b)
  {
    if xs != [] {
      DotLinear(xs[1..], a[1..], b[1..], s[1..], m);
      Distribute(xs[0], m, a[0], b[0], Dot(xs[1..], a[1..]));
    }
  }

  lemma {:induction false} Distribute(x: nat, m: nat, a: nat, b: nat, d: nat)
    ensures x * (m * a + b) + m * d == m * (x * a + d) + x * b
  {
    MulAssoc(x, m, a);
    MulAssoc(m, x, a);
  }

  lemma {:induction false} DotTops(c: Config, xs: seq<nat>, ys: seq<nat>, k: nat)
    requires c.width > 0 && k < NWindows(c) && |xs| == |ys|
    ensures Dot(xs, Tops(c, ys, k + 1)) == Pow2(c.width) * Dot(xs, Tops(c, ys, k)) + Dot(xs, Windows(c, ys, k))
  {
    forall j | 0 <= j < |ys|
      ensures Tops(c, ys, k + 1)[j] == Pow2(c.width) * Tops(c, ys, k)[j] + Windows(c, ys, k)[j]
    {
      TopStep(c, ys[j], k);
    }
    DotLinear(xs, Tops(c, ys, k), Windows(c, ys, k), Tops(c, ys, k + 1), Pow2(c.width));
  }

  // ---------- the main loop ----------

  /** What the accumulator stands for after k rounds: the products of the top windows plus s times the top windows
      of the modulus. */
  function Partial(c: Config, xs: seq<nat>, ys: seq<nat>, s: int, k: nat): int
    requires c.width > 0 && k <= NWindows(c) && |xs| == |ys|
  {
    Dot(xs, Tops(c, ys, k)) + s * Top(c, c.p, k)
  }

  /** The accumulator in round k after the products and before the modulus. */
  function BeforeModulus(c: Config, xs: seq<nat>, ys: seq<nat>, s: int, k: nat): int
    requires c.width > 0 && k < NWindows(c) && |xs| == |ys|
  {
    Pow2(c.width) * Partial(c, xs, ys, s, k) + Dot(xs, Windows(c, ys, k))
  }

  lemma {:induction false} PartialStep(c: Config, xs: seq<nat>, ys: seq<nat>, s: int, k: nat)
    requires c.width > 0 && k < NWindows(c) && |xs| == |ys|
    ensures Partial(c, xs, ys, s, k + 1) == BeforeModulus(c, xs, ys, s, k) + s * Window(c, c.p, k)
  {
    DotTops(c, xs, ys, k);
    TopStep(c, c.p, k);
    hide Top;
    hide Window;
    hide Dot;
    DistributeSigned(s, Pow2(c.width), Top(c, c.p, k), Window(c, c.p, k), Dot(xs, Tops(c, ys, k)));
  }

  lemma {:induction false} DistributeSigned(s: int, m: nat, t: nat, w: nat, d: nat)
    ensures m * d + s * (m * t + w) == m * (d + s * t) + s * w
  {
    MulAssoc(s, m, t);
    MulAssoc(m, s, t);
  }

  /** Everything the loop relies on. */
  ghost predicate LoopOk(c: Config, xs: seq<nat>, ys: seq<nat>, s: int, tables: seq<seq<int>>, qTable: seq<int>)
  {
    c.width > 0 && c.nLc > 0 && |xs| == |ys| &&
    TablesOk(TBits(c), xs, tables, Pow2(c.width) - 1) && RowOk(TBits(c), s, qTable, Pow2(c.width) - 1)
  }

  /** In one round, the guards pass exactly when the two intermediate values and the shifted result fit. */
  lemma {:induction false} RoundIsPartial(c: Config, xs: seq<nat>, ys: seq<nat>, s: int, k: nat, z: int,
                                          tables: seq<seq<int>>, qTable: seq<int>)
    requires LoopOk(c, xs, ys, s, tables, qTable) && k < NWindows(c)
    requires z == Pow2(c.width) * Partial(c, xs, ys, s, k) && Fits(TBits(c), z) && (k == 0 ==> z == 0)
    ensures |tables| == |ys| && |qTable| == Pow2(c.width) - 1
    ensures forall j :: 0 <= j < |ys| ==> |tables[j]| == Pow2(c.width) - 1
    ensures var next := Partial(c, xs, ys, s, k + 1) * (if k + 1 < NWindows(c) then Pow2(c.width) else 1);
            var r := Round(c, k, z, tables, qTable, ys);
            (r.Some? ==> r.value == next && Fits(TBits(c), next)) &&
            ((Fits(TBits(c), BeforeModulus(c, xs, ys, s, k)) && Fits(TBits(c), Partial(c, xs, ys, s, k + 1)) &&
              Fits(TBits(c), next)) ==> r.Some?)
  {
    hide Top;
    hide TBits;
    hide NWindows;
    hide Dot;
    hide Window;
    forall j | 0 <= j < |ys| ensures |tables[j]| == Pow2(c.width) - 1 { assert RowOk(TBits(c), xs[j], tables[j], Pow2(c.width) - 1); }
    AddVarsIsDot(TBits(c), z, k == 0, xs, tables, Windows(c, ys, k), Pow2(c.width) - 1);
    PartialStep(c, xs, ys, s, k);
    var m := Window(c, c.p, k);
    assert m != 0 ==> qTable[m - 1] == m * s;
  }

  lemma {:induction false} TableSizes(c: Config, xs: seq<nat>, ys: seq<nat>, s: int, tables: seq<seq<int>>, qTable: seq<int>)
    requires LoopOk(c, xs, ys, s, tables, qTable)
    ensures c.width > 0 && c.nLc > 0 && |tables| == |xs| == |ys| && |qTable| == Pow2(c.width) - 1
    ensures forall j :: 0 <= j < |ys| ==> |tables[j]| == Pow2(c.width) - 1
  {
    forall j | 0 <= j < |ys| ensures |tables[j]| == Pow2(c.width) - 1 { assert RowOk(TBits(c), xs[j], tables[j], Pow2(c.width) - 1); }
  }

  /** Whatever the loop returns is the full sum. */
  lemma {:induction false} MainLoopSound(c: Config, xs: seq<nat>, ys: seq<nat>, s: int, k: nat, z: int,
                                         tables: seq<seq<int>>, qTable: seq<int>)
    requires LoopOk(c, xs, ys, s, tables, qTable) && k <= NWindows(c)
    requires z == Partial(c, xs, ys, s, k) * (if k < NWindows(c) then Pow2(c.width) else 1)
    requires Fits(TBits(c), z) && (k == 0 ==> z == 0)
    ensures |tables| == |ys| && |qTable| == Pow2(c.width) - 1
    ensures forall j :: 0 <= j < |ys| ==> |tables[j]| == Pow2(c.width) - 1
    ensures MainLoop(c, k, z, tables, qTable, ys).Some? ==>
              MainLoop(c, k, z, tables, qTable, ys).value == Partial(c, xs, ys, s, NWindows(c)) &&
              Fits(TBits(c), Partial(c, xs, ys, s, NWindows(c)))
    decreases NWindows(c) - k
  {
    hide LoopOk;
    hide Round;
    hide Partial;
    hide TBits;
    hide Fits;
    hide NWindows;
    hide Pow2;
    TableSizes(c, xs, ys, s, tables, qTable);
    if k < NWindows(c) {
      RoundIsPartial(c, xs, ys, s, k, z, tables, qTable);
      match Round(c, k, z, tables, qTable, ys)
      case None =>
      case Some(z') => MainLoopSound(c, xs, ys, s, k + 1, z', tables, qTable);
    }
  }

  // ---------- soundness ----------

  /** Room for the modulus and for its windows. */
  ghost predicate Valid(c: Config) {
    c.width > 0 && c.nLc > 0 && 0 < c.p <= Pow2(c.nBits)
  }

  lemma {:induction false} OperandFits(c: Config, x: nat)
    requires Valid(c) && x < c.p
    ensures Fits(TBits(c), x)
  {
    Pow2Mono(c.nBits, TBits(c) - 1);
  }

  lemma {:induction false} PartialEnd(c: Config, xs: seq<nat>, ys: seq<nat>, s: int)
    requires Valid(c) && |xs| == |ys| && forall j :: 0 <= j < |ys| ==> ys[j] < c.p
    ensures c.p < Pow2(c.nBits) ==> Partial(c, xs, ys, s, NWindows(c)) == Dot(xs, ys) + s * c.p
    ensures Partial(c, xs, ys, s, 0) == s * Top(c, c.p, 0)
  {
    forall j | 0 <= j < |ys| ensures Top(c, ys[j], NWindows(c)) == ys[j] && Top(c, ys[j], 0) == 0 { TopEnds(c, ys[j]); }
    assert Tops(c, ys, NWindows(c)) == ys;
    DotZeros(xs, Tops(c, ys, 0));
    if c.p < Pow2(c.nBits) { TopEnds(c, c.p); }
  }

  lemma {:induction false} DotZeros(xs: seq<nat>, ys: seq<nat>)
    requires |xs| == |ys| && forall j :: 0 <= j < |ys| ==> ys[j] == 0
    ensures Dot(xs, ys) == 0
  {
    if xs != [] { DotZeros(xs[1..], ys[1..]); }
  }

  /** A non-negative number reduced below the modulus by multiples of it is its residue, and tells the multiple. */
  lemma {:induction false} ResidueUnique(d: nat, s: int, p: nat, r: int)
    requires p > 0 && r == d + s * p && 0 <= r < p
    ensures r == d % p && -s == d / p
  {
    DivModUnique(d, p, -s, r);
  }

  /** The signed quotient the script works with. */
  function Quotient(c: Config, q: nat): int
    requires c.nLc > 0 && q < Pow2(TBits(c))
  {
    Signed(TBits(c), Negation(TBits(c), q))
  }

  predicate InRange(c: Config, xs: seq<nat>, ys: seq<nat>)
    requires |xs| == |ys|
  {
    forall j :: 0 <= j < |xs| ==> xs[j] < c.p && ys[j] < c.p
  }

  /** The tables of operands in range, when they can be built, are what the loop relies on. */
  lemma {:induction false} TablesForLoop(c: Config, xs: seq<nat>, ys: seq<nat>, q: nat)
    requires Valid(c) && |xs| == |ys| && InRange(c, xs, ys) && q < Pow2(TBits(c))
    ensures Pow2(c.width) - 1 > 0
    ensures var bits, n := TBits(c), Pow2(c.width) - 1;
            (Table(bits, Quotient(c, q), n).Some? && Tables(bits, xs, n).Some?) ==>
            LoopOk(c, xs, ys, Quotient(c, q), Tables(bits, xs, n).value, Table(bits, Quotient(c, q), n).value)
  {
    var bits, n := TBits(c), Pow2(c.width) - 1;
    Pow2Mono(1, c.width);
    SignedFits(bits, Negation(bits, q));
    if Table(bits, Quotient(c, q), n).Some? { TableIsRow(bits, Quotient(c, q), n); }
    forall j | 0 <= j < |xs| ensures Fits(bits, xs[j]) { OperandFits(c, xs[j]); }
    TablesAreOk(bits, xs, n);
  }

  /** The stages of a successful multiplication. */
  lemma {:induction false} Stages(c: Config, xs: seq<nat>, ys: seq<nat>, q: nat)
    requires Valid(c) && |xs| == |ys| && TMul(c, xs, ys, q).Some?
    ensures InRange(c, xs, ys) && q < Pow2(TBits(c)) && Pow2(c.width) - 1 > 0
    ensures var bits, n := TBits(c), Pow2(c.width) - 1;
            Table(bits, Quotient(c, q), n).Some? && Tables(bits, xs, n).Some? &&
            MainLoop(c, 0, 0, Tables(bits, xs, n).value, Table(bits, Quotient(c, q), n).value, ys) == TMul(c, xs, ys, q) &&
            Unsigned(bits, TMul(c, xs, ys, q).value) < c.p
  {
    Pow2Mono(1, c.width);
  }

  /** Any hint with which the script succeeds is the true quotient, and the result is the residue. */
  lemma {:induction false} TMulSound(c: Config, xs: seq<nat>, ys: seq<nat>, q: nat)
    requires Valid(c) && c.p < Pow2(c.nBits) && |xs| == |ys| && TMul(c, xs, ys, q).Some?
    ensures TMul(c, xs, ys, q).value == Dot(xs, ys) % c.p
    ensures q == HonestHint(c, xs, ys)
  {
    Stages(c, xs, ys, q);
    TablesForLoop(c, xs, ys, q);
    hide *;
    WholeLoop(c, xs, ys, Quotient(c, q), Tables(TBits(c), xs, Pow2(c.width) - 1).value,
              Table(TBits(c), Quotient(c, q), Pow2(c.width) - 1).value);
    SoundEnd(c, xs, ys, q, TMul(c, xs, ys, q).value);
  }

  lemma {:induction false} SoundEnd(c: Config, xs: seq<nat>, ys: seq<nat>, q: nat, r: int)
    requires Valid(c) && |xs| == |ys| && q < Pow2(TBits(c))
    requires r == Dot(xs, ys) + Quotient(c, q) * c.p && Fits(TBits(c), r) && Unsigned(TBits(c), r) < c.p
    ensures r == Dot(xs, ys) % c.p && q == HonestHint(c, xs, ys)
  {
    Pow2Mono(c.nBits, TBits(c) - 1);
    FinalCheck(TBits(c), Dot(xs, ys), Quotient(c, q), c.p, r);
    NegReading(TBits(c), q);
  }

  /** The loop over all windows returns the products plus s times the modulus, or fails. */
  lemma {:induction false} WholeLoop(c: Config, xs: seq<nat>, ys: seq<nat>, s: int, tables: seq<seq<int>>, qTable: seq<int>)
    requires Valid(c) && c.p < Pow2(c.nBits) && |xs| == |ys| && InRange(c, xs, ys) && LoopOk(c, xs, ys, s, tables, qTable)
    ensures |tables| == |ys| && |qTable| == Pow2(c.width) - 1
    ensures forall j :: 0 <= j < |ys| ==> |tables[j]| == Pow2(c.width) - 1
    ensures var z := MainLoop(c, 0, 0, tables, qTable, ys);
            z.Some? ==> z.value == Dot(xs, ys) + s * c.p && Fits(TBits(c), z.value)
  {
    PartialEnd(c, xs, ys, s);
    TopEnds(c, c.p);
    MainLoopSound(c, xs, ys, s, 0, 0, tables, qTable);
  }

  /** The comparison of the unsigned reading with the modulus also rules out a negative accumulator. */
  lemma {:induction false} FinalCheck(bits: nat, d: nat, s: int, p: nat, r: int)
    requires bits > 0 && 0 < p <= Pow2(bits - 1) && Fits(bits, r) && r == d + s * p && Unsigned(bits, r) < p
    ensures r == d % p && d / p == 0 - s && s <= 0
  {
    ResidueUnique(d, s, p, r);
    DivNonNeg(d, p);
  }

  // ---------- completeness ----------

  /** The bound that the width formula of T has to meet. */
  ghost predicate Roomy(c: Config)
    requires c.nLc > 0
  {
    c.nLc * Pow2(c.width) * c.p + c.p <= Pow2(TBits(c) - 1)
  }

  function Sum(xs: seq<nat>): nat {
    if xs == [] then 0 else xs[0] + Sum(xs[1..])
  }

  lemma {:induction false} SumBound(xs: seq<nat>, p: nat)
    requires forall j :: 0 <= j < |xs| ==> xs[j] < p
    ensures Sum(xs) <= |xs| * p
  {
    if xs != [] { SumBound(xs[1..], p); }
  }

  lemma {:induction false} DotBound(xs: seq<nat>, ys: seq<nat>, p: nat)
    requires |xs| == |ys| && forall j :: 0 <= j < |xs| ==> xs[j] < p && ys[j] < p
    ensures Dot(xs, ys) <= Sum(xs) * p
  {
    if xs != [] {
      DotBound(xs[1..], ys[1..], p);
      OneBound(xs[0], ys[0], p, Dot(xs[1..], ys[1..]), Sum(xs[1..]));
    }
  }

  lemma {:induction false} OneBound(x: nat, y: nat, p: nat, dot: nat, sum: nat)
    requires y < p && dot <= sum * p
    ensures x * y + dot <= (x + sum) * p
  {
    MulMono(y, p, x);
    assert (x + sum) * p == x * p + sum * p;
  }

  /** Windows cut off after k rounds: d times the top part is at most the number, and misses it by less than d. */
  lemma {:induction false} DotTopsScaled(xs: seq<nat>, ys: seq<nat>, ts: seq<nat>, d: nat)
    requires |xs| == |ys| == |ts| && forall j :: 0 <= j < |ys| ==> ts[j] * d <= ys[j] <= ts[j] * d + d
    ensures d * Dot(xs, ts) <= Dot(xs, ys) <= d * Dot(xs, ts) + d * Sum(xs)
  {
    if xs != [] {
      DotTopsScaled(xs[1..], ys[1..], ts[1..], d);
      OneScaled(d, xs[0], ys[0], ts[0], Dot(xs[1..], ts[1..]), Sum(xs[1..]));
    }
  }

  lemma {:induction false} OneScaled(d: nat, x: nat, y: nat, t: nat, dot: nat, sum: nat)
    requires t * d <= y <= t * d + d
    ensures d * (x * t + dot) <= x * y + d * dot
    ensures x * y + d * dot + d * sum <= d * (x * t + dot) + d * (x + sum)
  {
    MulMono(t * d, y, x);
    MulMono(y, t * d + d, x);
    Reorder2(d, x, t);
  }

  lemma {:induction false} Reorder2(d: nat, x: nat, t: nat)
    ensures d * (x * t) == x * (t * d)
  {
    MulAssoc(d, x, t);
    MulAssoc(x, d, t);
  }

  lemma {:induction false} TopScaled(c: Config, v: nat, k: nat)
    requires c.width > 0 && k <= NWindows(c)
    ensures var d := Pow2(c.width * (NWindows(c) - k)); Top(c, v, k) * d <= v < Top(c, v, k) * d + d
  {
    var d := Pow2(c.width * (NWindows(c) - k));
    assert v == v / d * d + v % d;
  }

  /** The honest quotient is at most the sum of the first operands. */
  lemma {:induction false} HintBound(c: Config, xs: seq<nat>, ys: seq<nat>)
    requires c.p > 0 && |xs| == |ys| && forall j :: 0 <= j < |xs| ==> xs[j] < c.p && ys[j] < c.p
    ensures HonestHint(c, xs, ys) <= Sum(xs) <= |xs| * c.p
  {
    SumBound(xs, c.p);
    DotBound(xs, ys, c.p);
    QuotientAtMost(Dot(xs, ys), Sum(xs), c.p);
  }

  lemma {:induction false} QuotientAtMost(d: nat, n: nat, p: nat)
    requires p > 0 && d <= n * p
    ensures d / p <= n
  {
    var q := d / p;
    assert d == q * p + d % p;
    if q > n { MulMono(n + 1, q, p); }
  }

  /** The inequality behind the lower bound: an accumulator is never below minus the sum of the operands. */
  lemma {:induction false} LowerArith(d: nat, dot: nat, full: nat, sum: nat, q: nat, t: nat, p: nat, r: nat)
    requires d > 0 && full <= d * dot + d * sum && full == q * p + r && t * d <= p
    ensures dot - q * t + sum >= 0
  {
    MulMono(t * d, p, q);
    MulAssoc(q, t, d);
    assert d * (dot - q * t + sum) >= 0 by {
      assert d * (dot - q * t + sum) == d * dot - q * t * d + d * sum;
    }
    if dot - q * t + sum < 0 { MulMono(dot - q * t + sum, -1, d); }
  }

  /** The inequality behind the upper bound, before the modulus is subtracted. */
  lemma {:induction false} UpperArith(d: nat, m: nat, dot: nat, full: nat, q: nat, t: nat, p: nat, r: nat)
    requires d > 0 && m > 0 && d * dot <= full && full == q * p + r && r < p < t * (d * m) + d * m
    ensures dot - q * (m * t) < p + q * m
  {
    MulMono(p, t * (d * m) + d * m, q);
    var v := dot - q * (m * t);
    assert d * v <= r + q * (d * m) by {
      assert d * (q * (m * t)) == q * (t * (d * m)) by { Reorder(d, q, m, t); }
      assert q * (t * (d * m) + d * m) == q * (t * (d * m)) + q * (d * m);
      assert d * v == d * dot - d * (q * (m * t));
    }
    assert q * (d * m) == d * (q * m) by { MulAssoc(q, d, m); MulAssoc(d, q, m); }
    CancelFactor(d, v, p, q * m, r);
  }

  lemma {:induction false} CancelFactor(d: nat, v: int, p: nat, b: nat, r: nat)
    requires d > 0 && r < p && d * v <= r + d * b
    ensures v < p + b
  {
    MulMono(1, d, p);
    if v >= p + b { MulMono(p + b, v, d); }
  }

  lemma {:induction false} Reorder(d: nat, q: nat, m: nat, t: nat)
    ensures d * (q * (m * t)) == q * (t * (d * m))
  {
    MulAssoc(d, q, m * t);
    MulAssoc(q, d, m * t);
    MulAssoc(d, m, t);
  }

  /** With the honest hint every accumulator of the loop stays between minus the operands and the room above. */
  lemma {:induction false} HonestBounds(c: Config, xs: seq<nat>, ys: seq<nat>, k: nat)
    requires Valid(c) && |xs| == |ys| == c.nLc && forall j :: 0 <= j < |xs| ==> xs[j] < c.p && ys[j] < c.p
    requires k <= NWindows(c)
    ensures var s := 0 - HonestHint(c, xs, ys);
            Partial(c, xs, ys, s, k) + c.nLc * c.p >= 0 &&
            (k < NWindows(c) ==> BeforeModulus(c, xs, ys, s, k) < c.p + c.nLc * c.p * Pow2(c.width))
  {
    hide Partial;
    hide BeforeModulus;
    hide NWindows;
    hide Dot;
    var q, full := HonestHint(c, xs, ys), Dot(xs, ys);
    var n := NWindows(c);
    HintBound(c, xs, ys);
    assert full == q * c.p + full % c.p;
    hide HonestHint;
    LowerBound(c, xs, ys, q, full % c.p, k);
    if k < n {
      UpperBound(c, xs, ys, q, full % c.p, k);
      MulMono(q, c.nLc * c.p, Pow2(c.width));
    }
  }

  lemma {:induction false} LowerBound(c: Config, xs: seq<nat>, ys: seq<nat>, q: nat, r: nat, k: nat)
    requires c.width > 0 && |xs| == |ys| && k <= NWindows(c) && Dot(xs, ys) == q * c.p + r
    ensures Partial(c, xs, ys, 0 - q, k) + Sum(xs) >= 0
  {
    var d := Pow2(c.width * (NWindows(c) - k));
    forall j | 0 <= j < |ys| ensures Tops(c, ys, k)[j] * d <= ys[j] <= Tops(c, ys, k)[j] * d + d { TopScaled(c, ys[j], k); }
    DotTopsScaled(xs, ys, Tops(c, ys, k), d);
    TopScaled(c, c.p, k);
    LowerArith(d, Dot(xs, Tops(c, ys, k)), Dot(xs, ys), Sum(xs), q, Top(c, c.p, k), c.p, r);
  }

  lemma {:induction false} UpperBound(c: Config, xs: seq<nat>, ys: seq<nat>, q: nat, r: nat, k: nat)
    requires c.width > 0 && |xs| == |ys| && k < NWindows(c) && Dot(xs, ys) == q * c.p + r && r < c.p
    ensures BeforeModulus(c, xs, ys, 0 - q, k) < c.p + q * Pow2(c.width)
  {
    var m := Pow2(c.width);
    var e := c.width * (NWindows(c) - k - 1);
    MulNonNeg(c.width, NWindows(c) - k - 1);
    var d := Pow2(e);
    assert c.width * (NWindows(c) - (k + 1)) == e && c.width * (NWindows(c) - k) == e + c.width;
    Pow2Add(e, c.width);
    forall j | 0 <= j < |ys| ensures Tops(c, ys, k + 1)[j] * d <= ys[j] <= Tops(c, ys, k + 1)[j] * d + d { TopScaled(c, ys[j], k + 1); }
    DotTopsScaled(xs, ys, Tops(c, ys, k + 1), d);
    TopScaled(c, c.p, k);
    DotTops(c, xs, ys, k);
    hide Top;
    hide Dot;
    var t, dot := Top(c, c.p, k), Dot(xs, Tops(c, ys, k + 1));
    UpperArith(d, m, dot, Dot(xs, ys), q, t, c.p, r);
    DistributeSigned(0 - q, m, t, 0, Dot(xs, Tops(c, ys, k)));
  }

  /** Room for a multiple of an operand, and for a multiple of the quotient. */
  lemma {:induction false} RoomForEntries(n: nat, m: nat, p: nat, b: nat, k: nat, x: nat)
    requires n > 0 && m > 0 && n * m * p + p <= b && k < m
    ensures x < p ==> 0 <= k * x < b
    ensures x <= n * p ==> k * x <= b && x <= b
  {
    NestedProducts(n, m, p);
    MulMono(k, m, x);
    if x < p { MulMono(x, p, m); }
    if x <= n * p { MulMono(x, n * p, m); MulMono(1, m, x); }
  }

  lemma {:induction false} NestedProducts(n: nat, m: nat, p: nat)
    requires n > 0 && m > 0
    ensures n * p * m == n * m * p >= m * p >= 0
    ensures n * m * p >= n * p >= 0
  {
    MulAssoc(n, p, m);
    MulAssoc(n, m, p);
    MulNonNeg(m, p);
    MulMono(1, n, m * p);
    MulNonNeg(n, p);
    MulMono(1, m, n * p);
  }

  /** Room below for an accumulator and for its shift. */
  lemma {:induction false} RoomBelow(n: nat, m: nat, p: nat, b: nat, v: int)
    requires n > 0 && m > 0 && n * m * p + p <= b && v + n * p >= 0
    ensures m * v + b >= 0 && v + b >= 0
  {
    NestedProducts(n, m, p);
    MulMono(0, v + n * p, m);
  }

  /** With the honest hint every guard of the loop passes. */
  lemma {:induction false} MainLoopComplete(c: Config, xs: seq<nat>, ys: seq<nat>, k: nat, z: int,
                                            tables: seq<seq<int>>, qTable: seq<int>)
    requires Valid(c) && Roomy(c) && |xs| == |ys| == c.nLc && InRange(c, xs, ys)
    requires LoopOk(c, xs, ys, 0 - HonestHint(c, xs, ys), tables, qTable) && k <= NWindows(c)
    requires z == Partial(c, xs, ys, 0 - HonestHint(c, xs, ys), k) * (if k < NWindows(c) then Pow2(c.width) else 1)
    requires Fits(TBits(c), z) && (k == 0 ==> z == 0)
    ensures |tables| == |ys| && |qTable| == Pow2(c.width) - 1
    ensures forall j :: 0 <= j < |ys| ==> |tables[j]| == Pow2(c.width) - 1
    ensures MainLoop(c, k, z, tables, qTable, ys).Some?
    decreases NWindows(c) - k
  {
    hide Top;
    hide TBits;
    hide Fits;
    hide HonestHint;
    hide Window;
    hide Dot;
    forall j | 0 <= j < |ys| ensures |tables[j]| == Pow2(c.width) - 1 { assert RowOk(TBits(c), xs[j], tables[j], Pow2(c.width) - 1); }
    if k < NWindows(c) {
      var s := 0 - HonestHint(c, xs, ys);
      RoundIsPartial(c, xs, ys, s, k, z, tables, qTable);
      RoundFits(c, xs, ys, k);
      var next := Partial(c, xs, ys, s, k + 1) * (if k + 1 < NWindows(c) then Pow2(c.width) else 1);
      MainLoopComplete(c, xs, ys, k + 1, next, tables, qTable);
    }
  }

  lemma {:induction false} RoundFits(c: Config, xs: seq<nat>, ys: seq<nat>, k: nat)
    requires Valid(c) && Roomy(c) && |xs| == |ys| == c.nLc && InRange(c, xs, ys) && k < NWindows(c)
    ensures var s := 0 - HonestHint(c, xs, ys);
            Fits(TBits(c), BeforeModulus(c, xs, ys, s, k)) && Fits(TBits(c), Partial(c, xs, ys, s, k + 1)) &&
            (k + 1 < NWindows(c) ==> Fits(TBits(c), Partial(c, xs, ys, s, k + 1) * Pow2(c.width)))
  {
    var s, m, b := 0 - HonestHint(c, xs, ys), Pow2(c.width), Pow2(TBits(c) - 1);
    HonestBounds(c, xs, ys, k);
    HonestBounds(c, xs, ys, k + 1);
    PartialStep(c, xs, ys, s, k);
    var w := Window(c, c.p, k);
    hide Top;
    hide HonestHint;
    hide Window;
    NestedProducts(c.nLc, m, c.p);
    RoomBelow(c.nLc, m, c.p, b, Partial(c, xs, ys, s, k));
    RoomBelow(c.nLc, m, c.p, b, Partial(c, xs, ys, s, k + 1));
    MulMono(0, 0 - s, w);
    assert s * w == 0 - (0 - s) * w;
    assert Partial(c, xs, ys, s, k + 1) * m == m * Partial(c, xs, ys, s, k + 1);
  }

  /** With the honest hint the script succeeds: no table entry, partial sum or shifted accumulator overflows. */
  lemma {:induction false} TMulComplete(c: Config, xs: seq<nat>, ys: seq<nat>)
    requires Valid(c) && c.p < Pow2(c.nBits) && Roomy(c) && |xs| == |ys| == c.nLc && InRange(c, xs, ys)
    ensures TMul(c, xs, ys, HonestHint(c, xs, ys)).Some?
  {
    HonestTables(c, xs, ys);
    TablesForLoop(c, xs, ys, HonestHint(c, xs, ys));
    hide *;
    HonestLoop(c, xs, ys);
  }

  /** With the honest hint all tables can be built. */
  lemma {:induction false} HonestTables(c: Config, xs: seq<nat>, ys: seq<nat>)
    requires Valid(c) && Roomy(c) && |xs| == |ys| == c.nLc && InRange(c, xs, ys)
    ensures Pow2(c.width) - 1 > 0 && HonestHint(c, xs, ys) < Pow2(TBits(c))
    ensures var bits, n, s := TBits(c), Pow2(c.width) - 1, 0 - HonestHint(c, xs, ys);
            Quotient(c, HonestHint(c, xs, ys)) == s && Table(bits, s, n).Some? && Tables(bits, xs, n).Some?
  {
    HonestQuotient(c, xs, ys);
    OperandMultiplesFit(c, xs, ys);
    hide HonestHint;
    hide Table;
    hide Fits;
    hide Pow2;
    hide TBits;
    TablesAreOk(TBits(c), xs, Pow2(c.width) - 1);
  }

  lemma {:induction false} HonestQuotient(c: Config, xs: seq<nat>, ys: seq<nat>)
    requires Valid(c) && Roomy(c) && |xs| == |ys| == c.nLc && InRange(c, xs, ys)
    ensures Pow2(c.width) - 1 > 0 && HonestHint(c, xs, ys) < Pow2(TBits(c))
    ensures Quotient(c, HonestHint(c, xs, ys)) == 0 - HonestHint(c, xs, ys)
    ensures Table(TBits(c), 0 - HonestHint(c, xs, ys), Pow2(c.width) - 1).Some?
  {
    hide HonestHint;
    hide Table;
    hide Roomy;
    hide Signed;
    hide Negation;
    hide Fits;
    hide TBits;
    var bits, n := TBits(c), Pow2(c.width) - 1;
    HonestRoom(c, xs, ys);
    Pow2Mono(bits - 1, bits);
    hide Pow2;
    NegReading(bits, HonestHint(c, xs, ys));
    NegatedFits(bits, n, HonestHint(c, xs, ys));
    TableEntries(bits, 0 - HonestHint(c, xs, ys), n);
  }

  /** The quotient and its multiples stay within half the capacity. */
  lemma {:induction false} HonestRoom(c: Config, xs: seq<nat>, ys: seq<nat>)
    requires Valid(c) && Roomy(c) && |xs| == |ys| == c.nLc && InRange(c, xs, ys)
    ensures Pow2(c.width) - 1 > 0 && HonestHint(c, xs, ys) < Pow2(TBits(c) - 1)
    ensures 0 <= (Pow2(c.width) - 1) * HonestHint(c, xs, ys) <= Pow2(TBits(c) - 1)
  {
    hide HonestHint;
    hide TBits;
    var q, n := HonestHint(c, xs, ys), Pow2(c.width) - 1;
    Pow2Mono(1, c.width);
    assert Pow2(1) == 2;
    HintBound(c, xs, ys);
    hide Pow2;
    RoomForEntries(c.nLc, n + 1, c.p, Pow2(TBits(c) - 1), n, q);
    MulNonNeg(n, q);
    MulNonNeg(c.nLc, n + 1);
    RoomLeft(c.nLc, n + 1, c.p, Pow2(TBits(c) - 1), q);
  }

  lemma {:induction false} RoomLeft(k: nat, m: nat, p: nat, b: nat, q: nat)
    requires k > 0 && m > 0 && p > 0 && k * m * p + p <= b && q <= k * p
    ensures q < b
  {
    NestedProducts(k, m, p);
  }

  lemma {:induction false} NegatedFits(bits: nat, n: nat, q: nat)
    requires bits > 0 && 0 < n && q <= Pow2(bits - 1) && 0 <= n * q <= Pow2(bits - 1)
    ensures Fits(bits, 0 - q) && Fits(bits, n * (0 - q))
  {
    NegatedMultiple(n, q);
  }

  lemma {:induction false} OperandMultiplesFit(c: Config, xs: seq<nat>, ys: seq<nat>)
    requires Valid(c) && Roomy(c) && |xs| == |ys| == c.nLc && InRange(c, xs, ys) && Pow2(c.width) - 1 > 0
    ensures forall j :: 0 <= j < |xs| ==> Fits(TBits(c), xs[j]) && Fits(TBits(c), (Pow2(c.width) - 1) * xs[j])
  {
    var bits, n := TBits(c), Pow2(c.width) - 1;
    forall j | 0 <= j < |xs| ensures Fits(bits, xs[j]) && Fits(bits, n * xs[j]) {
      OperandFits(c, xs[j]);
      RoomForEntries(c.nLc, n + 1, c.p, Pow2(bits - 1), n, xs[j]);
    }
  }

  lemma {:induction false} NegatedMultiple(n: nat, q: nat)
    ensures n * (0 - q) == 0 - n * q
  {
  }

  /** With the honest hint the main loop ends at the residue. */
  lemma {:induction false} HonestMain(c: Config, xs: seq<nat>, ys: seq<nat>, tables: seq<seq<int>>, qTable: seq<int>)
    requires Valid(c) && c.p < Pow2(c.nBits) && Roomy(c) && |xs| == |ys| == c.nLc && InRange(c, xs, ys)
    requires LoopOk(c, xs, ys, 0 - HonestHint(c, xs, ys), tables, qTable)
    ensures |tables| == |ys| && |qTable| == Pow2(c.width) - 1
    ensures forall j :: 0 <= j < |ys| ==> |tables[j]| == Pow2(c.width) - 1
    ensures MainLoop(c, 0, 0, tables, qTable, ys) == Some(Dot(xs, ys) % c.p)
  {
    hide MainLoop;
    hide LoopOk;
    hide Partial;
    hide Top;
    hide Dot;
    hide TBits;
    var s := 0 - HonestHint(c, xs, ys);
    WholeLoop(c, xs, ys, s, tables, qTable);
    PartialEnd(c, xs, ys, s);
    TopEnds(c, c.p);
    MainLoopComplete(c, xs, ys, 0, 0, tables, qTable);
    QuotientAndResidue(Dot(xs, ys), c.p);
  }

  lemma {:induction false} HonestLoop(c: Config, xs: seq<nat>, ys: seq<nat>)
    requires Valid(c) && c.p < Pow2(c.nBits) && Roomy(c) && |xs| == |ys| == c.nLc && InRange(c, xs, ys)
    requires Pow2(c.width) - 1 > 0 && HonestHint(c, xs, ys) < Pow2(TBits(c))
    requires var bits, n, s := TBits(c), Pow2(c.width) - 1, 0 - HonestHint(c, xs, ys);
             Quotient(c, HonestHint(c, xs, ys)) == s && Table(bits, s, n).Some? && Tables(bits, xs, n).Some? &&
             LoopOk(c, xs, ys, s, Tables(bits, xs, n).value, Table(bits, s, n).value)
    ensures TMul(c, xs, ys, HonestHint(c, xs, ys)).Some?
  {
    hide MainLoop;
    hide LoopOk;
    hide Table;
    hide Tables;
    hide Dot;
    hide HonestHint;
    var bits, n, s := TBits(c), Pow2(c.width) - 1, 0 - HonestHint(c, xs, ys);
    HonestMain(c, xs, ys, Tables(bits, xs, n).value, Table(bits, s, n).value);
    QuotientAndResidue(Dot(xs, ys), c.p);
  }

  lemma {:induction false} QuotientAndResidue(d: nat, p: nat)
    requires p > 0
    ensures d + (0 - d / p) * p == d % p && 0 <= d % p < p
  {
    assert d == d / p * p + d % p;
  }

  /** The script succeeds on operands in range with exactly one hint, and then leaves the residue. */
  lemma {:induction false} TMulExact(c: Config, xs: seq<nat>, ys: seq<nat>, q: nat)
    requires Valid(c) && c.p < Pow2(c.nBits) && Roomy(c) && |xs| == |ys| == c.nLc
    ensures TMul(c, xs, ys, q) ==
            if InRange(c, xs, ys) && q == HonestHint(c, xs, ys) then Some(Dot(xs, ys) % c.p) else None
  {
    if TMul(c, xs, ys, q).Some? {
      Stages(c, xs, ys, q);
      TMulSound(c, xs, ys, q);
    } else if InRange(c, xs, ys) {
      TMulComplete(c, xs, ys);
    }
  }

  /** The four instantiations: Mul, Mul2LC, Mul2LCW4 and Mul4LC. */
  predicate Instantiated(c: Config) {
    c.p == MODULUS && c.nBits == 254 &&
    ((c.width == 4 && c.nLc == 1) || (c.width == 3 && c.nLc == 2) ||
     (c.width == 4 && c.nLc == 2) || (c.width == 3 && c.nLc == 4))
  }

  lemma {:induction false} InstantiationsFit(c: Config)
    requires Instantiated(c)
    ensures Valid(c) && c.p < Pow2(c.nBits) && Roomy(c)
  {
    U256Powers();
    Pow2Succ(c.nBits);
    Pow2Succ(c.nBits + 1);
    var extra := c.width + LcBits(c);
    ExtraBits(c);
    hide Pow2;
    hide LcBits;
    Pow2Add(c.nBits, extra);
    var room := Pow2(c.nBits);
    assert 17 * MODULUS <= room * 16 && 33 * MODULUS <= room * 32;
  }

  /** The accumulator's extra bits make room for all products of a window. */
  lemma {:induction false} ExtraBits(c: Config)
    requires Instantiated(c)
    ensures TBits(c) - 1 == c.nBits + (c.width + LcBits(c))
    ensures c.nLc * Pow2(c.width) == Pow2(c.width + LcBits(c)) && Pow2(c.width + LcBits(c)) in {16, 32}
  {
    assert BitLength(0) == 0 && BitLength(1) == 1 && BitLength(3) == 2;
    assert Pow2(3) == 8 && Pow2(4) == 16 && Pow2(5) == 32;
  }

  /** All four multiplications: success exactly with the true quotient, and the exact residue. */
  lemma {:induction false} FqMulExact(c: Config, xs: seq<nat>, ys: seq<nat>, q: nat)
    requires Instantiated(c) && |xs| == |ys| == c.nLc
    ensures TMul(c, xs, ys, q) ==
            if InRange(c, xs, ys) && q == HonestHint(c, xs, ys) then Some(Dot(xs, ys) % MODULUS) else None
  {
    InstantiationsFit(c);
    TMulExact(c, xs, ys, q);
  }
}
