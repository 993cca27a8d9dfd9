/** For which scalars the addition chain of bitvm/src/bn254/msm.rs exists, in a group with a base of known order. */
module MsmExistence {
  import opened Arithmetic
  import opened Limbs
  import opened Msm
  import opened MsmChain

  ghost predicate Inverses<G(!new)>(c: Curve<G>) {
    forall a :: c.plus(a, c.neg(a)) == c.zero
  }

  /** Exactly the multiples of r times the base are the identity. */
  ghost predicate OfOrder<G(!new)>(c: Curve<G>, base: G, r: nat) {
    r > 0 && forall m: nat :: Times(c, m, base) == c.zero <==> m % r == 0
  }

  lemma {:induction false} ZeroIsOpposite<G(!new)>(c: Curve<G>)
    requires Abelian(c) && Inverses(c)
    ensures c.neg(c.zero) == c.zero
  {
    assert c.plus(c.zero, c.neg(c.zero)) == c.zero;
    assert c.plus(c.neg(c.zero), c.zero) == c.neg(c.zero);
  }

  /** A chain that has reached a point other than the identity passes every window that is zero. */
  lemma {:induction false} ZeroWindowPasses<G(!new)>(c: Curve<G>, sum: G, base: G, v: nat, window: nat, i: nat)
    requires Abelian(c) && Inverses(c) && sum != c.zero && v / Weight(window, i) % Pow2(window) == 0
    ensures var q := Times(c, v / Weight(window, i) % Pow2(window), Times(c, Weight(window, i), base));
            q == c.zero && sum != q && sum != c.neg(q)
  {
    hide Weight;
    hide Pow2;
    ZeroIsOpposite(c);
  }

  lemma {:induction false} Cancel<G(!new)>(c: Curve<G>, a: G, b: G)
    requires Abelian(c) && Inverses(c)
    ensures c.plus(a, b) == a ==> b == c.zero
    ensures a == c.neg(b) ==> c.plus(a, b) == c.zero
  {
    if c.plus(a, b) == a {
      assert c.plus(c.plus(a, b), c.neg(a)) == c.zero;
      assert c.plus(c.plus(b, a), c.neg(a)) == c.plus(b, c.plus(a, c.neg(a))) == b;
    }
  }

  /** Different multiples, neither opposite, as long as their factors add up to less than the order. */
  lemma {:induction false} MultiplesApart<G(!new)>(c: Curve<G>, base: G, r: nat, m: nat, n: nat)
    requires Abelian(c) && Inverses(c) && OfOrder(c, base, r) && m != n && m + n < r
    ensures Times(c, m, base) != Times(c, n, base) && Times(c, m, base) != c.neg(Times(c, n, base))
  {
    hide Times;
    hide Abelian;
    hide Inverses;
    hide OfOrder;
    var low, high := if m < n then m else n, if m < n then n else m;
    TimesAdd(c, low, high - low, base);
    Cancel(c, Times(c, low, base), Times(c, high - low, base));
    NotIdentity(c, base, r, high - low);
    TimesAdd(c, m, n, base);
    Cancel(c, Times(c, m, base), Times(c, n, base));
    NotIdentity(c, base, r, m + n);
  }

  lemma {:induction false} NotIdentity<G(!new)>(c: Curve<G>, base: G, r: nat, k: nat)
    requires OfOrder(c, base, r) && 0 < k < r
    ensures Times(c, k, base) != c.zero
  {
    hide Times;
    DivModUnique(k, r, 0, k);
  }

  /** From the identity, a chain for a scalar below the order of the base exists exactly if the lowest window is not zero. */
  lemma {:induction false} ChainFromIdentityExact<G(!new)>(c: Curve<G>, base: G, r: nat, v: nat, window: nat)
    requires Abelian(c) && Inverses(c) && OfOrder(c, base, r) && v < r && window > 0
    ensures (forall i: nat :: i * window < 254 ==>
               var sum := c.plus(c.zero, Times(c, v % Weight(window, i), base));
               var q := Times(c, v / Weight(window, i) % Pow2(window), Times(c, Weight(window, i), base));
               sum != q && sum != c.neg(q)) <==>
            v % Pow2(window) != 0
  {
    hide Times;
    hide OfOrder;
    hide Pow2;
    var t := NumTables(254, window);
    hide NumTables;
    SmoothWritten(c, c.zero, base, v, window);
    FirstWindow(v, window);
    hide Slice;
    if v % Pow2(window) == 0 {
      ZeroFirstWindowIsRefused(c, base, v, window, t);
    } else {
      forall i: nat | i < t ensures !Degenerate(c, Partial(c, c.zero, base, v, window, i), WindowPoint(c, base, v, window, i)) {
        WindowApart(c, base, r, v, window, i);
      }
    }
  }

  lemma {:induction false} FirstWindow(v: nat, window: nat)
    ensures Slice(v, window, 0) == v % Pow2(window)
  {
    hide Pow2;
    assert 0 * window == 0;
    PowerZero();
  }

  lemma {:induction false} PowerZero()
    ensures Pow2(0) == 1
  {
  }

  lemma {:induction false} WindowApart<G(!new)>(c: Curve<G>, base: G, r: nat, v: nat, window: nat, i: nat)
    requires Abelian(c) && Inverses(c) && OfOrder(c, base, r) && v < r && v % Pow2(window) != 0
    ensures !Degenerate(c, Partial(c, c.zero, base, v, window, i), WindowPoint(c, base, v, window, i))
  {
    hide Times;
    hide Pow2;
    hide OfOrder;
    MulNonNeg(i, window);
    var unit, a, low := Pow2(i * window), Slice(v, window, i), LowPart(v, window, i);
    hide Slice;
    MulNonNeg(a, unit);
    NextWindow(v, window, i);
    LowPartBounds(v, window, i);
    LowPartBounds(v, window, i + 1);
    hide LowPart;
    TimesTimes(c, a, unit, base);
    assert Partial(c, c.zero, base, v, window, i) == Times(c, low, base) by { assert c.plus(Times(c, low, base), c.zero) == Times(c, low, base); }
    assert low != a * unit by {
      if a > 0 { MulMono(1, a, unit); }
    }
    MultiplesApart(c, base, r, low, a * unit);
  }

  /** The low windows are a number below their weight, at most the scalar, and not zero if the lowest is not. */
  lemma {:induction false} LowPartBounds(v: nat, window: nat, i: nat)
    requires v % Pow2(window) != 0
    ensures i * window >= 0 && LowPart(v, window, i) < Pow2(i * window) && LowPart(v, window, i) <= v
    ensures i > 0 ==> LowPart(v, window, i) > 0
  {
    hide Pow2;
    MulNonNeg(i, window);
    var unit := Pow2(i * window);
    AtMostWhole(v, unit);
    if i > 0 {
      SplitProduct(i, window);
      MulNonNeg(i - 1, window);
      Pow2Add((i - 1) * window, window);
      NotMultiple(v, unit, Pow2((i - 1) * window), Pow2(window));
    }
  }

  lemma {:induction false} AtMostWhole(v: nat, unit: nat)
    requires unit > 0
    ensures v % unit <= v
  {
    assert v == v / unit * unit + v % unit;
    MulNonNeg(v / unit, unit);
  }

  lemma {:induction false} NotMultiple(v: nat, unit: nat, k: nat, p: nat)
    requires p > 0 && unit == k * p && unit > 0 && v % p != 0
    ensures v % unit > 0
  {
    if v % unit == 0 {
      var q := v / unit;
      assert v == q * unit == q * k * p;
      MulNonNeg(q, k);
      DivModUnique(v, p, q * k, 0);
    }
  }
}
