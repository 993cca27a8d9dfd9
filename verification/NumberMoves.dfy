/** Copying, rolling, dropping and pushing whole numbers (bitvm/src/bigint/std.rs, bitvm/src/pseudo.rs). */
module NumberMoves {
  import opened ScriptMachine
  import opened Limbs
  import opened StackMoves

  // ---------- copy ----------

  /** `copy`: deep operands keep the depth on the stack instead of pushing it for every limb. */
  function CopyNum(w: Width, a: nat): Script
    requires Valid(w)
  {
    BlockEnd(a, NLimbs(w));
    var d := (a + 1) * NLimbs(w) - 1;
    if d < 128 then Repeat([Num(d), Pick], NLimbs(w))
    else [Num(d + 1)] + Repeat([Dup, Pick, Swap], NLimbs(w) - 1) + [Sub1, Pick]
  }

  lemma {:induction false} CopyShallow(n: nat, i: nat, top: seq<int>, xs: seq<int>, r: Stack, alt: Stack)
    requires i <= n == |xs| && 0 < |top| + n < 0x7FFF_FFFF
    ensures Exec(Repeat([Num(|top| + n - 1), Pick], i), Running(Prepend(xs[i..] + top + xs, r), alt)) ==
            Running(Prepend(xs + top + xs, r), alt)
    decreases i
  {
    hide Exec;
    hide Prepend;
    var s := Running(Prepend(xs[i..] + top + xs, r), alt);
    if i == 0 {
      Exec0(s);
      assert xs[0..] == xs;
    } else {
      var p, x, q := xs[i..] + top + xs[..i - 1], xs[i - 1], xs[i..];
      assert xs[i..] + top + xs == p + [x] + q;
      ExecRepeat([Num(|top| + n - 1), Pick], i, s);
      PickMid(p, x, q, r, alt);
      assert [x] + (p + [x] + q) == xs[i - 1..] + top + xs;
      CopyShallow(n, i - 1, top, xs, r, alt);
    }
  }

  lemma {:induction false} DeepTurn(p: seq<int>, x: int, q: seq<int>, r: Stack, alt: Stack)
    requires |p| < 0x7FFF_FFFF
    ensures Exec([Dup, Pick, Swap], Running(Cell(|p| + 1, Prepend(p + [x] + q, r)), alt)) ==
            Running(Cell(|p| + 1, Prepend([x] + (p + [x] + q), r)), alt)
    ensures Exec([Sub1, Pick], Running(Cell(|p| + 1, Prepend(p + [x] + q, r)), alt)) ==
            Running(Prepend([x] + (p + [x] + q), r), alt)
  {
    hide Exec;
    hide Step;
    hide Prepend;
    var l := p + [x] + q;
    var n := |p| + 1;
    var s := Running(Cell(n, Prepend(l, r)), alt);
    PickStep(p, x, q, r, alt);
    StackRules();
    NumberRules();
    PrependFirst(x, l, r);
    Exec3(Dup, Pick, Swap, s);
    Exec2(Sub1, Pick, s);
  }

  lemma {:induction false} PickStep(p: seq<int>, x: int, q: seq<int>, r: Stack, alt: Stack)
    requires |p| < 0x7FFF_FFFF
    ensures Step(Pick, Running(Cell(|p|, Prepend(p + [x] + q, r)), alt)) ==
            Running(Cell(x, Prepend(p + [x] + q, r)), alt)
    ensures Step(Pick, Running(Cell(|p| + 1, Cell(|p| + 1, Prepend(p + [x] + q, r))), alt)) ==
            Running(Cell(x, Cell(|p| + 1, Prepend(p + [x] + q, r))), alt)
  {
    hide Exec;
    hide Prepend;
    var n := |p| + 1;
    PrependAppend(p + [x], q, r);
    PrependAppend(p, [x], Prepend(q, r));
    PrependFirst(x, [], Prepend(q, r));
    NoCells(Prepend(q, r));
    assert [x] + [] == [x];
    ItemBelow(p, x, Prepend(q, r));
    PrependFirst(n, p, Cell(x, Prepend(q, r)));
    ItemBelow([n] + p, x, Prepend(q, r));
  }

  lemma {:induction false} CopyDeep(n: nat, i: nat, top: seq<int>, xs: seq<int>, r: Stack, alt: Stack)
    requires 0 < i <= n == |xs| && |top| + n < 0x7FFF_FFFF
    ensures Exec([Sub1, Pick], Exec(Repeat([Dup, Pick, Swap], i - 1), Running(Cell(|top| + n, Prepend(xs[i..] + top + xs, r)), alt))) ==
            Running(Prepend(xs + top + xs, r), alt)
    decreases i
  {
    hide Exec;
    hide Prepend;
    var s := Running(Cell(|top| + n, Prepend(xs[i..] + top + xs, r)), alt);
    var p, x, q := xs[i..] + top + xs[..i - 1], xs[i - 1], xs[i..];
    assert xs[i..] + top + xs == p + [x] + q;
    DeepTurn(p, x, q, r, alt);
    assert [x] + (p + [x] + q) == xs[i - 1..] + top + xs;
    if i == 1 {
      Exec0(s);
      assert xs[0..] == xs;
    } else {
      ExecRepeat([Dup, Pick, Swap], i - 1, s);
      CopyDeep(n, i - 1, top, xs, r, alt);
    }
  }

  /** Both forms of `copy` leave a copy of the number on top. */
  lemma {:induction false} CopyRun(w: Width, a: nat, top: seq<int>, xs: seq<int>, r: Stack, alt: Stack)
    requires Valid(w) && |top| == a * NLimbs(w) && |xs| == NLimbs(w) && |top| + |xs| < 0x7FFF_FFFF
    ensures Exec(CopyNum(w, a), Running(Prepend(top + xs, r), alt)) == Running(Prepend(xs + top + xs, r), alt)
  {
    hide Exec;
    hide Step;
    hide Prepend;
    hide NLimbs;
    hide Repeat;
    StackRules();
    var n := NLimbs(w);
    BlockEnd(a, n);
    var d := |top| + n - 1;
    assert xs[n..] + top + xs == top + xs;
    var s := Running(Prepend(top + xs, r), alt);
    if d < 128 {
      CopyShallow(n, n, top, xs, r, alt);
    } else {
      ExecAppend3([Num(d + 1)], Repeat([Dup, Pick, Swap], n - 1), [Sub1, Pick], s);
      Exec1(Num(d + 1), s);
      CopyDeep(n, n, top, xs, r, alt);
    }
  }

  // ---------- roll ----------

  function RollNum(w: Width, a: nat): Script
    requires Valid(w)
  {
    BlockEnd(a, NLimbs(w));
    if a == 0 then [] else Repeat([Num((a + 1) * NLimbs(w) - 1), Roll], NLimbs(w))
  }

  lemma {:induction false} RollLoop(n: nat, i: nat, top: seq<int>, xs: seq<int>, r: Stack, alt: Stack)
    requires i <= n == |xs| && 0 < |top| + n < 0x7FFF_FFFF
    ensures Exec(Repeat([Num(|top| + n - 1), Roll], i), Running(Prepend(xs[i..] + top + xs[..i], r), alt)) ==
            Running(Prepend(xs + top, r), alt)
    decreases i
  {
    hide Exec;
    hide Prepend;
    var s := Running(Prepend(xs[i..] + top + xs[..i], r), alt);
    if i == 0 {
      Exec0(s);
      assert xs[0..] + top + xs[..0] == xs + top;
    } else {
      var p, x := xs[i..] + top + xs[..i - 1], xs[i - 1];
      assert xs[i..] + top + xs[..i] == p + [x] + [];
      ExecRepeat([Num(|top| + n - 1), Roll], i, s);
      RollMid(p, x, [], r, alt);
      assert [x] + p + [] == xs[i - 1..] + top + xs[..i - 1];
      RollLoop(n, i - 1, top, xs, r, alt);
    }
  }

  /** `roll` moves the number to the top. */
  lemma {:induction false} RollRun(w: Width, a: nat, top: seq<int>, xs: seq<int>, r: Stack, alt: Stack)
    requires Valid(w) && |top| == a * NLimbs(w) && |xs| == NLimbs(w) && |top| + |xs| < 0x7FFF_FFFF
    ensures Exec(RollNum(w, a), Running(Prepend(top + xs, r), alt)) == Running(Prepend(xs + top, r), alt)
  {
    hide Exec;
    hide Prepend;
    hide NLimbs;
    hide Repeat;
    var n := NLimbs(w);
    BlockEnd(a, n);
    if a == 0 {
      assert top == [];
      assert top + xs == xs + top;
      Exec0(Running(Prepend(top + xs, r), alt));
    } else {
      assert xs[n..] + top + xs[..n] == top + xs;
      RollLoop(n, n, top, xs, r, alt);
    }
  }

  // ---------- drop ----------

  function DropNum(w: Width): Script
    requires Valid(w)
  {
    Repeat([Drop2], NLimbs(w) / 2) + (if NLimbs(w) % 2 == 1 then [Drop] else [])
  }

  lemma {:induction false} DropPairs(l: seq<int>, n: nat, r: Stack, alt: Stack)
    requires 2 * n <= |l|
    ensures Exec(Repeat([Drop2], n), Running(Prepend(l, r), alt)) == Running(Prepend(l[2 * n..], r), alt)
    decreases n
  {
    hide Exec;
    hide Step;
    StackRules();
    var s := Running(Prepend(l, r), alt);
    if n == 0 {
      Exec0(s);
      assert l[0..] == l;
    } else {
      ExecRepeat([Drop2], n, s);
      assert l[1..][1..] == l[2..];
      Exec1(Drop2, s);
      DropPairs(l[2..], n - 1, r, alt);
      assert l[2..][2 * n - 2..] == l[2 * n..];
    }
  }

  /** `drop` removes exactly one number. */
  lemma {:induction false} DropRun(w: Width, xs: seq<int>, r: Stack, alt: Stack)
    requires Valid(w) && |xs| == NLimbs(w)
    ensures Exec(DropNum(w), Running(Prepend(xs, r), alt)) == Running(r, alt)
  {
    hide Exec;
    hide Step;
    hide NLimbs;
    hide Repeat;
    StackRules();
    var n := NLimbs(w);
    var last := if n % 2 == 1 then [Drop] else [];
    ExecAppend(Repeat([Drop2], n / 2), last, Running(Prepend(xs, r), alt));
    DropPairs(xs, n / 2, r, alt);
    var t := xs[2 * (n / 2)..];
    if n % 2 == 1 {
      assert t == [t[0]] && t[1..] == [];
      Exec1(Drop, Running(Prepend(t, r), alt));
    } else {
      Exec0(Running(r, alt));
    }
  }

  // ---------- pushing copies of a small number ----------

  /** `OP_NDUP`. */
  function NDup(n: nat): Script {
    var threes := if n > 3 then (n - 3) / 3 else 0;
    var remaining := if n > 3 then (n - 3) % 3 else 0;
    (if n >= 1 then [Dup] else []) +
    (if n >= 3 then [Dup2] else if n >= 2 then [Dup] else []) +
    Repeat([Dup3], threes) +
    (if remaining == 2 then [Dup2] else if remaining == 1 then [Dup] else [])
  }

  /** `push_to_stack`. */
  function PushCopies(x: nat, n: nat): Script {
    if n >= 1 then [Num(x)] + NDup(n - 1) else []
  }

  function Copies(x: int, n: nat, r: Stack): Stack {
    if n == 0 then r else Cell(x, Copies(x, n - 1, r))
  }

  lemma {:induction false} NoCopies(x: int, r: Stack)
    ensures Copies(x, 0, r) == r
  {
  }

  lemma {:induction false} DupCopies(x: int, n: nat, r: Stack, alt: Stack)
    ensures n >= 1 ==> Exec([Dup], Running(Copies(x, n, r), alt)) == Running(Copies(x, n + 1, r), alt)
    ensures n >= 2 ==> Exec([Dup2], Running(Copies(x, n, r), alt)) == Running(Copies(x, n + 2, r), alt)
  {
    hide Exec;
    hide Step;
    StackRules();
    var s := Running(Copies(x, n, r), alt);
    assert Copies(x, n + 2, r) == Cell(x, Copies(x, n + 1, r));
    if n >= 2 { assert Copies(x, n - 1, r) == Cell(x, Copies(x, n - 2, r)); }
    Exec1(Dup, s);
    Exec1(Dup2, s);
  }

  lemma {:induction false} Dup3Copies(x: int, n: nat, r: Stack, alt: Stack)
    requires n >= 3
    ensures Exec([Dup3], Running(Copies(x, n, r), alt)) == Running(Copies(x, n + 3, r), alt)
  {
    hide Exec;
    hide Step;
    StackRules();
    assert Copies(x, n - 1, r) == Cell(x, Copies(x, n - 2, r));
    assert Copies(x, n - 2, r) == Cell(x, Copies(x, n - 3, r));
    assert Copies(x, n + 3, r) == Cell(x, Copies(x, n + 2, r));
    assert Copies(x, n + 2, r) == Cell(x, Copies(x, n + 1, r));
    Exec1(Dup3, Running(Copies(x, n, r), alt));
  }

  lemma {:induction false} Dup3Loop(x: int, m: nat, n: nat, r: Stack, alt: Stack)
    requires n >= 3
    ensures Exec(Repeat([Dup3], m), Running(Copies(x, n, r), alt)) == Running(Copies(x, n + 3 * m, r), alt)
    decreases m
  {
    hide Exec;
    hide Copies;
    var s := Running(Copies(x, n, r), alt);
    if m == 0 {
      Exec0(s);
    } else {
      ExecRepeat([Dup3], m, s);
      Dup3Copies(x, n, r, alt);
      Dup3Loop(x, m - 1, n + 3, r, alt);
    }
  }

  /** `OP_NDUP(n)` makes n more copies of the top item, whatever n. */
  lemma {:induction false} NDupRun(x: int, n: nat, r: Stack, alt: Stack)
    ensures Exec(NDup(n), Running(Cell(x, r), alt)) == Running(Copies(x, n + 1, r), alt)
  {
    hide Exec;
    hide Repeat;
    var threes := if n > 3 then (n - 3) / 3 else 0;
    var remaining := if n > 3 then (n - 3) % 3 else 0;
    var p1 := if n >= 1 then [Dup] else [];
    var p2 := if n >= 3 then [Dup2] else if n >= 2 then [Dup] else [];
    var p4 := if remaining == 2 then [Dup2] else if remaining == 1 then [Dup] else [];
    var s := Running(Cell(x, r), alt);
    assert Copies(x, 1, r) == Cell(x, Copies(x, 0, r));
    ExecAppend4(p1, p2, Repeat([Dup3], threes), p4, s);
    NDupParts(x, n, threes, remaining, p1, p2, p4, r, alt);
  }

  lemma {:induction false} NDupParts(x: int, n: nat, threes: nat, remaining: nat, p1: Script, p2: Script, p4: Script,
                                     r: Stack, alt: Stack)
    requires threes == (if n > 3 then (n - 3) / 3 else 0) && remaining == (if n > 3 then (n - 3) % 3 else 0)
    requires p1 == if n >= 1 then [Dup] else []
    requires p2 == if n >= 3 then [Dup2] else if n >= 2 then [Dup] else []
    requires p4 == if remaining == 2 then [Dup2] else if remaining == 1 then [Dup] else []
    ensures Exec(p4, Exec(Repeat([Dup3], threes), Exec(p2, Exec(p1, Running(Copies(x, 1, r), alt))))) ==
            Running(Copies(x, n + 1, r), alt)
  {
    hide Exec;
    hide Repeat;
    hide Copies;
    DupCopies(x, 1, r, alt);
    DupCopies(x, 2, r, alt);
    if n < 3 {
      NoTurns([Dup3]);
      Exec0(Running(Copies(x, 1, r), alt));
      Exec0(Running(Copies(x, n + 1, r), alt));
    } else {
      Dup3Loop(x, threes, 4, r, alt);
      DupCopies(x, 4 + 3 * threes, r, alt);
      Exec0(Running(Copies(x, n + 1, r), alt));
      assert n + 1 == 4 + 3 * threes + remaining;
    }
  }

  lemma {:induction false} PushCopiesRun(x: nat, n: nat, r: Stack, alt: Stack)
    ensures Exec(PushCopies(x, n), Running(r, alt)) == Running(Copies(x, n, r), alt)
  {
    hide Exec;
    hide Step;
    hide NDup;
    StackRules();
    if n == 0 {
      Exec0(Running(r, alt));
    } else {
      ExecAppend([Num(x)], NDup(n - 1), Running(r, alt));
      Exec1(Num(x), Running(r, alt));
      NDupRun(x, n - 1, r, alt);
    }
  }

  lemma {:induction false} ZeroStacked(k: nat, b: nat, r: Stack)
    requires b > 0
    ensures Stacked(k, b, 0, r) == Copies(0, k + 1, r)
    decreases k
  {
    SplitUnique(0, b, 0, 0);
    if k > 0 { ZeroStacked(k - 1, b, r); }
  }

  /** `push_zero` pushes the number zero. */
  lemma {:induction false} PushZeroRun(w: Width, r: Stack, alt: Stack)
    requires Valid(w)
    ensures Exec(PushCopies(0, NLimbs(w)), Running(r, alt)) == Running(On(w, 0, r), alt)
  {
    hide Exec;
    hide PushCopies;
    hide NLimbs;
    hide Digits;
    hide Stacked;
    PushCopiesRun(0, NLimbs(w), r, alt);
    DigitsAreStacked(NLimbs(w) - 1, Base(w), 0, r);
    ZeroStacked(NLimbs(w) - 1, Base(w), r);
  }
}
