/** Hints: cells that wait at the bottom of the main stack and are fetched by OP_DEPTH OP_1SUB OP_ROLL
    (bitvm/src/bn254/fq.rs, bitvm/src/bn254/g1.rs). */
module HintMoves {
  import opened ScriptMachine
  import opened LimbIo

  /** The cells of l above hints that are fetched in the order of h: the first one is the deepest cell of the stack. */
  function Bottom(l: seq<int>, h: seq<int>): Stack {
    Prepend(l + Reverse(h), Empty)
  }

  function TakeHints(n: nat): Script {
    Repeat([StackSize, Sub1, Roll], n)
  }

  lemma {:induction false} DepthOfCells(l: seq<int>)
    ensures Depth(Prepend(l, Empty)) == |l|
  {
    if l != [] { DepthOfCells(l[1..]); }
  }

  /** The deepest cell comes to the top. */
  lemma {:induction false} TakeOne(l: seq<int>, x: int, alt: Stack)
    requires |l| < 0x7FFF_FFFF
    ensures Exec([StackSize, Sub1, Roll], Running(Prepend(l + [x], Empty), alt)) == Running(Prepend([x] + l, Empty), alt)
  {
    hide Exec;
    hide Step;
    hide Prepend;
    NumberRules();
    StackRules();
    var s := Prepend(l + [x], Empty);
    DepthOfCells(l + [x]);
    StackSizeStep(s, alt);
    Exec3(StackSize, Sub1, Roll, Running(s, alt));
    PrependLast(l, x, Empty);
    RollBelow(l, x, Empty, alt);
    Exec2(Num(|l|), Roll, Running(s, alt));
    PrependFirst(x, l, Empty);
  }

  lemma {:induction false} ReverseConcat(a: seq<int>, b: seq<int>)
    ensures Reverse(a + b) == Reverse(b) + Reverse(a)
    decreases |a|
  {
    if a == [] {
      assert a + b == b && Reverse(a) == [];
    } else {
      assert (a + b)[1..] == a[1..] + b;
      ReverseConcat(a[1..], b);
    }
  }

  /** Hints of which the first ones are wanted now. */
  lemma {:induction false} LaterHints(l: seq<int>, first: seq<int>, rest: seq<int>)
    ensures Bottom(l, first + rest) == Bottom(l + Reverse(rest), first)
    ensures Bottom(l + Reverse(rest), []) == Bottom(l, rest)
  {
    ReverseConcat(first, rest);
    assert l + (Reverse(rest) + Reverse(first)) == l + Reverse(rest) + Reverse(first);
    assert Reverse([]) == [];
    assert l + Reverse(rest) + [] == l + Reverse(rest);
  }

  lemma {:induction false} TakeCells(l: seq<int>, h: seq<int>, alt: Stack)
    requires |l| + |h| < 0x7FFF_FFFF
    ensures Exec(TakeHints(|h|), Running(Prepend(l + Reverse(h), Empty), alt)) == Running(Prepend(Reverse(h) + l, Empty), alt)
    decreases |h|
  {
    hide Exec;
    hide Prepend;
    var st := Running(Prepend(l + Reverse(h), Empty), alt);
    if h == [] {
      Exec0(st);
      assert Reverse(h) == [] && l + [] == l && [] + l == l;
    } else {
      var rest := Reverse(h[1..]);
      ExecRepeat([StackSize, Sub1, Roll], |h|, st);
      assert l + Reverse(h) == (l + rest) + [h[0]];
      TakeOne(l + rest, h[0], alt);
      assert [h[0]] + (l + rest) == ([h[0]] + l) + rest;
      TakeCells([h[0]] + l, h[1..], alt);
      assert rest + ([h[0]] + l) == Reverse(h) + l;
    }
  }

  /** Fetching hints puts the last one on top of what was there. */
  lemma {:induction false} TakeHintsRun(top: seq<int>, l: seq<int>, h: seq<int>, alt: Stack)
    requires |top| + |l| + |h| < 0x7FFF_FFFF
    ensures Exec(TakeHints(|h|), Running(Prepend(top, Bottom(l, h)), alt)) ==
            Running(Prepend(Reverse(h) + top, Bottom(l, [])), alt)
  {
    hide Exec;
    hide Prepend;
    hide TakeHints;
    PrependAppend(top, l + Reverse(h), Empty);
    assert top + (l + Reverse(h)) == (top + l) + Reverse(h);
    TakeCells(top + l, h, alt);
    assert Reverse([]) == [] && l + [] == l;
    PrependAppend(Reverse(h) + top, l, Empty);
    assert Reverse(h) + (top + l) == Reverse(h) + top + l;
  }
}
