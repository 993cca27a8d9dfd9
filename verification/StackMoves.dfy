/** Moving whole big integers on the stack (bitvm/src/bigint/std.rs, bitvm/src/pseudo.rs). */
module StackMoves {
  import opened Arithmetic
  import opened ScriptMachine
  import opened Limbs

  // ---------- rolling and picking in a list of cells ----------

  lemma {:induction false} RollMid(p: seq<int>, x: int, q: seq<int>, r: Stack, alt: Stack)
    requires |p| <= 0x7FFF_FFFF
    ensures Exec([Num(|p|), Roll], Running(Prepend(p + [x] + q, r), alt)) == Running(Prepend([x] + p + q, r), alt)
  {
    hide Exec;
    PrependAppend(p + [x], q, r);
    PrependAppend(p, [x], Prepend(q, r));
    PrependAppend([x] + p, q, r);
    PrependAppend([x], p, Prepend(q, r));
    RollBelow(p, x, Prepend(q, r), alt);
  }

  lemma {:induction false} PickMid(p: seq<int>, x: int, q: seq<int>, r: Stack, alt: Stack)
    requires |p| <= 0x7FFF_FFFF
    ensures Exec([Num(|p|), Pick], Running(Prepend(p + [x] + q, r), alt)) ==
            Running(Prepend([x] + (p + [x] + q), r), alt)
  {
    hide Exec;
    PrependAppend(p + [x], q, r);
    PrependAppend(p, [x], Prepend(q, r));
    PrependAppend([x], p + [x] + q, r);
    PickBelow(p, x, Prepend(q, r), alt);
  }

  /** Picks item i of a list that lies under a few other cells. */
  lemma {:induction false} PickUnder(t: seq<int>, l: seq<int>, i: nat, r: Stack, alt: Stack)
    requires i < |l| && |t| + |l| <= 0x7FFF_FFFF
    ensures Exec([Num(|t| + i), Pick], Running(Prepend(t, Prepend(l, r)), alt)) ==
            Running(Cell(l[i], Prepend(t, Prepend(l, r))), alt)
  {
    hide Exec;
    hide Prepend;
    var p, x, q := t + l[..i], l[i], l[i + 1..];
    assert t + l == p + [x] + q;
    PrependAppend(t, l, r);
    PickMid(p, x, q, r, alt);
    PrependFirst(x, t + l, r);
  }

  /** The same with the depth already on the stack. */
  lemma {:induction false} PickDeep(t: seq<int>, l: seq<int>, i: nat, r: Stack, alt: Stack)
    requires i < |l| && |t| + |l| <= 0x7FFF_FFFF
    ensures Step(Pick, Running(Cell(|t| + i, Prepend(t, Prepend(l, r))), alt)) ==
            Running(Cell(l[i], Prepend(t, Prepend(l, r))), alt)
  {
    hide Exec;
    hide Step;
    hide Prepend;
    StackRules();
    PickUnder(t, l, i, r, alt);
    Exec2(Num(|t| + i), Pick, Running(Prepend(t, Prepend(l, r)), alt));
  }

  lemma {:induction false} FewCells(x: int, y: int, z: int, r: Stack)
    ensures Prepend([x], r) == Cell(x, r)
    ensures Prepend([x, y], r) == Cell(x, Cell(y, r))
    ensures Prepend([x, y, z], r) == Cell(x, Cell(y, Cell(z, r)))
  {
    assert [x][1..] == [] && [x, y][1..] == [y] && [y][1..] == [] && [x, y, z][1..] == [y, z] && [y, z][1..] == [z] && [z][1..] == [];
    assert Prepend([z], r) == Cell(z, r);
    assert Prepend([y, z], r) == Cell(y, Cell(z, r));
  }

  // ---------- zip ----------

  /** The cells of two numbers interleaved, y above x. */
  function Zipped(xs: seq<int>, ys: seq<int>): (z: seq<int>)
    requires |xs| == |ys|
    ensures |z| == 2 * |xs|
  {
    if xs == [] then [] else [ys[0], xs[0]] + Zipped(xs[1..], ys[1..])
  }

  lemma {:induction false} ZippedAppend(xs: seq<int>, ys: seq<int>, x: int, y: int)
    requires |xs| == |ys|
    ensures Zipped(xs + [x], ys + [y]) == Zipped(xs, ys) + [y, x]
    decreases |xs|
  {
    if xs == [] {
      assert Zipped([], []) == [];
    } else {
      assert (xs + [x])[1..] == xs[1..] + [x] && (ys + [y])[1..] == ys[1..] + [y];
      ZippedAppend(xs[1..], ys[1..], x, y);
    }
  }

  /** The loop of `zip` when the first number is the upper one. */
  function ZipUpper(a: nat, b: nat, i: nat, n: nat): Script
    requires i <= n
    decreases n - i
  {
    if i == n then [] else [Num(a + i), Roll] + [Num(b), Roll] + ZipUpper(a, b, i + 1, n)
  }

  /** The loop of `zip` when the first number is the lower one. */
  function ZipLower(a: nat, b: nat, i: nat, n: nat): Script
    requires i <= n
    decreases n - i
  {
    if i == n then [] else [Num(a), Roll] + [Num(b + i + 1), Roll] + ZipLower(a, b, i + 1, n)
  }

  function Zip(w: Width, a: nat, b: nat): Script
    requires Valid(w) && a != b
  {
    var n := NLimbs(w);
    BlockEnd(a, n);
    BlockEnd(b, n);
    var a', b' := (a + 1) * n - 1, (b + 1) * n - 1;
    if a' < b' then ZipUpper(a', b', 0, n) else ZipLower(a', b', 0, n)
  }

  lemma {:induction false} BlockEnd(a: nat, n: nat)
    requires n > 0
    ensures (a + 1) * n == a * n + n && a * n >= 0
  {
  }

  lemma {:induction false} BlockOrder(a: nat, b: nat, n: nat)
    requires n > 0
    ensures a < b <==> (a + 1) * n - 1 < (b + 1) * n - 1
    ensures a < b ==> (b - a - 1) * n >= 0 && (b + 1) * n == a * n + n + (b - a - 1) * n + n
  {
    SplitProduct(a + 1, n);
    SplitProduct(b + 1, n);
    if a < b {
      MulMono(0, b - a - 1, n);
      Difference(b, a, n);
      SplitProduct(b - a, n);
    } else {
      MulMono(b, a, n);
    }
  }

  lemma {:induction false} Difference(a: int, b: int, n: int)
    ensures (a - b) * n == a * n - b * n
  {
  }

  /** One turn of the upper loop. */
  lemma {:induction false} ZipUpperStep(z: seq<int>, top: seq<int>, xs: seq<int>, x: int, mid: seq<int>, ys: seq<int>,
                                        y: int, r: Stack, alt: Stack)
    requires |z| + |top| + |xs| + |mid| + |ys| < 0x7FFF_FFFF
    ensures Exec([Num(|z| + |top| + |xs|), Roll] + [Num(1 + |z| + |top| + |xs| + |mid| + |ys|), Roll],
                 Running(Prepend(z + top + (xs + [x]) + mid + (ys + [y]), r), alt)) ==
            Running(Prepend([y, x] + z + top + xs + mid + ys, r), alt)
  {
    hide Exec;
    hide Prepend;
    var p := z + top + xs;
    var q := mid + ys + [y];
    var s := Running(Prepend(p + [x] + q, r), alt);
    assert z + top + (xs + [x]) + mid + (ys + [y]) == p + [x] + q;
    RollMid(p, x, q, r, alt);
    var p2 := [x] + p + mid + ys;
    assert [x] + p + q == p2 + [y] + [];
    RollMid(p2, y, [], r, alt);
    assert [y] + p2 + [] == [y, x] + z + top + xs + mid + ys;
    ExecAppend([Num(|p|), Roll], [Num(|p2|), Roll], s);
  }

  /** One turn of the lower loop; here y is the upper number. */
  lemma {:induction false} ZipLowerStep(z: seq<int>, top: seq<int>, ys: seq<int>, y: int, mid: seq<int>, xs: seq<int>,
                                        x: int, r: Stack, alt: Stack)
    requires |z| + |top| + |xs| + |mid| + |ys| < 0x7FFF_FFFF
    ensures Exec([Num(|z| + |top| + |ys| + 1 + |mid| + |xs|), Roll] + [Num(1 + |z| + |top| + |ys|), Roll],
                 Running(Prepend(z + top + (ys + [y]) + mid + (xs + [x]), r), alt)) ==
            Running(Prepend([y, x] + z + top + ys + mid + xs, r), alt)
  {
    hide Exec;
    hide Prepend;
    var p := z + top + ys + [y] + mid + xs;
    var s := Running(Prepend(p + [x] + [], r), alt);
    assert z + top + (ys + [y]) + mid + (xs + [x]) == p + [x] + [];
    RollMid(p, x, [], r, alt);
    var p2 := [x] + z + top + ys;
    var q2 := mid + xs;
    assert [x] + p + [] == p2 + [y] + q2;
    RollMid(p2, y, q2, r, alt);
    assert [y] + p2 + q2 == [y, x] + z + top + ys + mid + xs;
    ExecAppend([Num(|p|), Roll], [Num(|p2|), Roll], s);
  }

  lemma {:induction false} ZipUpperRun(n: nat, i: nat, z: seq<int>, top: seq<int>, xs: seq<int>, mid: seq<int>, ys: seq<int>,
                                       r: Stack, alt: Stack)
    requires n > 0 && i <= n && |xs| == |ys| == n - i && |z| == 2 * i
    requires |top| + |mid| + 2 * n < 0x7FFF_FFFF
    ensures Exec(ZipUpper(|top| + n - 1, |top| + n + |mid| + n - 1, i, n), Running(Prepend(z + top + xs + mid + ys, r), alt)) ==
            Running(Prepend(Zipped(xs, ys) + z + top + mid, r), alt)
    decreases n - i
  {
    hide Exec;
    hide Prepend;
    if i == n {
      Exec0(Running(Prepend(z + top + xs + mid + ys, r), alt));
      assert z + top + xs + mid + ys == Zipped(xs, ys) + z + top + mid;
    } else {
      var m := n - i - 1;
      var a, b := |top| + n - 1, |top| + n + |mid| + n - 1;
      var xs', x, ys', y := xs[..m], xs[m], ys[..m], ys[m];
      assert xs == xs' + [x] && ys == ys' + [y];
      var s := Running(Prepend(z + top + xs + mid + ys, r), alt);
      ExecAppend([Num(a + i), Roll] + [Num(b), Roll], ZipUpper(a, b, i + 1, n), s);
      ZipUpperStep(z, top, xs', x, mid, ys', y, r, alt);
      ZipUpperRun(n, i + 1, [y, x] + z, top, xs', mid, ys', r, alt);
      ZippedAppend(xs', ys', x, y);
      assert Zipped(xs', ys') + ([y, x] + z) + top + mid == Zipped(xs, ys) + z + top + mid;
    }
  }

  lemma {:induction false} ZipLowerRun(n: nat, i: nat, z: seq<int>, top: seq<int>, ys: seq<int>, mid: seq<int>, xs: seq<int>,
                                       r: Stack, alt: Stack)
    requires n > 0 && i <= n && |xs| == |ys| == n - i && |z| == 2 * i
    requires |top| + |mid| + 2 * n < 0x7FFF_FFFF
    ensures Exec(ZipLower(|top| + n + |mid| + n - 1, |top| + n - 1, i, n), Running(Prepend(z + top + ys + mid + xs, r), alt)) ==
            Running(Prepend(Zipped(xs, ys) + z + top + mid, r), alt)
    decreases n - i
  {
    hide Exec;
    hide Prepend;
    if i == n {
      Exec0(Running(Prepend(z + top + ys + mid + xs, r), alt));
      assert z + top + ys + mid + xs == Zipped(xs, ys) + z + top + mid;
    } else {
      var m := n - i - 1;
      var b, a := |top| + n - 1, |top| + n + |mid| + n - 1;
      var xs', x, ys', y := xs[..m], xs[m], ys[..m], ys[m];
      assert xs == xs' + [x] && ys == ys' + [y];
      var s := Running(Prepend(z + top + ys + mid + xs, r), alt);
      ExecAppend([Num(a), Roll] + [Num(b + i + 1), Roll], ZipLower(a, b, i + 1, n), s);
      ZipLowerStep(z, top, ys', y, mid, xs', x, r, alt);
      ZipLowerRun(n, i + 1, [y, x] + z, top, ys', mid, xs', r, alt);
      ZippedAppend(xs', ys', x, y);
      assert Zipped(xs', ys') + ([y, x] + z) + top + mid == Zipped(xs, ys) + z + top + mid;
    }
  }

  // ---------- two numbers on the stack ----------

  function Min(a: nat, b: nat): nat {
    if a < b then a else b
  }

  function Distance(a: nat, b: nat): nat {
    if a < b then b - a else a - b
  }

  /** `top` fills the blocks above both numbers a and b (counted in big integers from the top), `mid` those between. */
  predicate Placed(w: Width, a: nat, b: nat, top: seq<int>, mid: seq<int>)
    requires Valid(w)
  {
    a != b && |top| == Min(a, b) * NLimbs(w) && |mid| == (Distance(a, b) - 1) * NLimbs(w) &&
    |top| + |mid| + 2 * NLimbs(w) < 0x7FFF_FFFF
  }

  /** Cells xs at block a and ys at block b. */
  function Pair(a: nat, b: nat, top: seq<int>, mid: seq<int>, xs: seq<int>, ys: seq<int>, r: Stack): Stack {
    if a < b then Prepend(top + xs + mid + ys, r) else Prepend(top + ys + mid + xs, r)
  }

  /** `zip` interleaves the two numbers and leaves what was above and between them below. */
  lemma {:induction false} ZipRun(w: Width, a: nat, b: nat, top: seq<int>, mid: seq<int>, xs: seq<int>, ys: seq<int>,
                                  r: Stack, alt: Stack)
    requires Valid(w) && Placed(w, a, b, top, mid) && |xs| == |ys| == NLimbs(w)
    ensures Exec(Zip(w, a, b), Running(Pair(a, b, top, mid, xs, ys, r), alt)) ==
            Running(Prepend(Zipped(xs, ys), Prepend(top + mid, r)), alt)
  {
    hide Exec;
    hide Prepend;
    hide NLimbs;
    var n := NLimbs(w);
    var z := Zipped(xs, ys);
    BlockEnd(a, n);
    BlockEnd(b, n);
    PrependAppend(z, top + mid, r);
    assert [] + top == top;
    assert z + [] + top + mid == z + (top + mid);
    if a < b {
      BlockOrder(a, b, n);
      ZipUpperRun(n, 0, [], top, xs, mid, ys, r, alt);
    } else {
      BlockOrder(b, a, n);
      ZipLowerRun(n, 0, [], top, ys, mid, xs, r, alt);
    }
  }
}
