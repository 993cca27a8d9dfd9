/** How `var_windows_script` of `tmul` (bitvm/src/bn254/fq.rs) handles several operands, and that it meets the needs of the
    main loop. */
module TmulExtract {
  import opened Arithmetic
  import opened ScriptMachine
  import opened Limbs
  import opened StackMoves
  import opened LimbIo
  import opened SignedLimbs
  import opened SignedAdd
  import opened TmulTables
  import opened TmulScript
  import opened TmulRounds
  import opened TmulProgram
  import opened TmulWindows
  import T = TransformLimbs
  import M = Tmul

  // ---------- the script ----------

  /** The lowest bit of window k. */
  function Bottom(c: M.Config, k: nat): nat
    requires c.width > 0 && k < M.NWindows(c)
  {
    MulNonNeg(c.width, M.NWindows(c) - k - 1);
    c.width * (M.NWindows(c) - k - 1)
  }

  /** The limb under work: fetched in the first round and after each limb boundary, otherwise waiting on the alt stack. */
  function Load(k: nat, reach: nat, top: nat): Script {
    if k == 0 then [Num(reach + top / LIMB_SIZE), Pick]
    else if (top + 1) % LIMB_SIZE == 0 then [FromAlt, Drop] + [Num(reach + top / LIMB_SIZE), Pick]
    else [FromAlt]
  }

  /** Puts the window and the rest of the limb below the `more` limbs still waiting. */
  function Store(k: nat, more: nat): Script {
    if more == 0 then []
    else if k == 0 then [ToAlt, ToAlt]
    else
      Repeat([FromAlt], more) + [Num(more), Roll, ToAlt] + [Num(more), Roll, ToAlt] + Repeat([ToAlt], more)
  }

  /** Operand j counted from the top of the stack; n is the number of limbs of each. */
  function CutOperand(c: M.Config, k: nat, n: nat, j: nat): Script
    requires c.width > 0 && k < M.NWindows(c) && j < c.nLc
  {
    MulNonNeg(n, j);
    var top := Bottom(c, k) + c.width - 1;
    (Load(k, n + n * j, top) + Cut(c.width, n + n * j, top)) + Store(k, c.nLc - j - 1)
  }

  /** Operand j and all below it. */
  function CutAll(c: M.Config, k: nat, n: nat, j: nat): Script
    requires c.width > 0 && k < M.NWindows(c) && j <= c.nLc
    decreases c.nLc - j
  {
    if j == c.nLc then []
    else
      CutOperand(c, k, n, j) + CutAll(c, k, n, j + 1)
  }

  /** Leaves the windows and sets the rests aside, or drops them after the last round. */
  function Distribute(n: nat, last: bool): Script {
    if n == 0 then []
    else (if n == 1 then [] else [Num(2 * (n - 1)), Roll]) + [if last then Drop else ToAlt] + Distribute(n - 1, last)
  }

  /** `var_windows_script`. */
  function VarWindows(c: M.Config, k: nat): Script
    requires Setup(c) && k < M.NWindows(c)
  {
    CutAll(c, k, NLimbs(AccWidth(c)), 0) + Repeat([FromAlt, FromAlt], c.nLc - 1) + Distribute(c.nLc, k + 1 == M.NWindows(c))
  }

  // ---------- what it works on ----------

  /** The operands, the one on top of the stack first. */
  function Downwards(ys: seq<nat>): (r: seq<nat>)
    ensures |r| == |ys|
  {
    seq(|ys|, j requires 0 <= j < |ys| => ys[|ys| - 1 - j])
  }

  /** What is left of the limb that holds bit `bottom`, for every operand. */
  function Rests(ys: seq<nat>, bottom: nat): (r: seq<nat>)
    ensures |r| == |ys|
  {
    seq(|ys|, j requires 0 <= j < |ys| => Rest(Downwards(ys)[j], bottom / LIMB_SIZE, bottom))
  }

  function Slices(ys: seq<nat>, bottom: nat, width: nat): (r: seq<nat>)
    ensures |r| == |ys|
  {
    seq(|ys|, j requires 0 <= j < |ys| => T.Field(Downwards(ys)[j], bottom, width))
  }

  /** The cells on the alt stack before round k. */
  function Held(c: M.Config, ys: seq<nat>, k: nat): seq<int>
    requires c.width > 0
  {
    if 0 < k < M.NWindows(c) then Rests(ys, Bottom(c, k - 1)) else []
  }

  /** The accumulator above the operands. */
  function WorkStack(c: M.Config, z: int, ys: seq<nat>, r: Stack): Stack
    requires Setup(c)
  {
    SignedOn(AccWidth(c), z, Prepend(Blocks(AccWidth(c), Reverse(ys)), r))
  }

  // ---------- limbs of the operands ----------

  lemma {:induction false} FieldToTop(y: nat, l: nat, len: nat, more: nat)
    requires y < Pow2(l * LIMB_SIZE + len)
    ensures T.Field(y, l * LIMB_SIZE, len) == T.Field(y, l * LIMB_SIZE, len + more)
  {
    Pow2Mono(l * LIMB_SIZE + len, l * LIMB_SIZE + len + more);
    hide Pow2;
    T.HeadIsField(l, LIMB_SIZE, len, y);
    T.HeadIsField(l, LIMB_SIZE, len + more, y);
  }

  lemma {:induction false} LimbIsField(w: Width, y: nat, l: nat)
    requires Valid(w) && w.limb == LIMB_SIZE && y < Capacity(w) && l < NLimbs(w)
    ensures Number(w, y)[l] == T.Field(y, l * LIMB_SIZE, LIMB_SIZE)
  {
    var k := NLimbs(w) - 1;
    DigitAt(k, Base(w), y, l);
    T.HiIsField(l, LIMB_SIZE, y);
    if l == k {
      var h := Head(w);
      assert w.nBits == k * LIMB_SIZE + h;
      T.HeadIsField(k, LIMB_SIZE, h, y);
      FieldToTop(y, k, h, LIMB_SIZE - h);
    }
  }

  lemma {:induction false} OperandCells(c: M.Config, z: int, ys: seq<nat>, r: Stack, j: nat)
    requires Setup(c) && |ys| == c.nLc && j < c.nLc
    ensures var w, vs := AccWidth(c), Reverse(ys);
            WorkStack(c, z, ys, r) ==
            Prepend((SignedNumber(w, z) + Blocks(w, vs[..j])) + SignedNumber(w, Downwards(ys)[j]) + Blocks(w, vs[j + 1..]), r)
  {
    hide Prepend;
    hide Number;
    hide Blocks;
    hide NLimbs;
    hide M.TBits;
    hide Reverse;
    AccWidthIsValid(c);
    var w, vs := AccWidth(c), Reverse(ys);
    ReverseAt(ys, j);
    EntryCells(w, j + 1, vs);
    PrependAppend(SignedNumber(w, z), Blocks(w, vs), r);
    assert SignedNumber(w, z) + Blocks(w, vs) ==
           (SignedNumber(w, z) + Blocks(w, vs[..j])) + SignedNumber(w, Downwards(ys)[j]) + Blocks(w, vs[j + 1..]);
  }

  lemma {:induction false} CellReached(a: seq<int>, x: seq<int>, b: seq<int>, l: nat, r: Stack)
    requires l < |x| && |a| + l < 0x7FFF_FFF0
    ensures Reaches(Prepend(a + x + b, r), |a| + l, x[l])
  {
    var pre, post := a + x[..l], x[l + 1..] + b;
    assert a + x + b == pre + [x[l]] + post;
    PrependAppend(pre + [x[l]], post, r);
    PrependLast(pre, x[l], Prepend(post, r));
    ItemBelow(pre, x[l], Prepend(post, r));
  }

  /** Limb l of operand j, counted from the top of the stack. */
  lemma {:induction false} LimbReached(c: M.Config, z: int, ys: seq<nat>, r: Stack, j: nat, l: nat)
    requires Setup(c) && |ys| == c.nLc && j < c.nLc && l < NLimbs(AccWidth(c)) && AllNumbers(OperandWidth(c), ys)
    ensures var n := NLimbs(AccWidth(c));
            n * j >= 0 && Reaches(WorkStack(c, z, ys, r), n + n * j + l, T.Field(Downwards(ys)[j], l * LIMB_SIZE, LIMB_SIZE))
  {
    hide NLimbs;
    hide Number;
    hide Pow2;
    hide Reaches;
    hide M.TBits;
    hide WorkStack;
    hide Blocks;
    hide Prepend;
    hide Reverse;
    hide T.Field;
    AccWidthIsValid(c);
    var w, n, vs, y := AccWidth(c), NLimbs(AccWidth(c)), Reverse(ys), Downwards(ys)[j];
    WideOperand(c, ys, j);
    LimbIsField(w, y, l);
    SizesBound(c);
    MulMono(j + 1, BlockCount(c), n);
    SplitProduct(j + 1, n);
    OperandCells(c, z, ys, r, j);
    var above := SignedNumber(w, z) + Blocks(w, vs[..j]);
    assert |above| == n + n * j && |above| + l < 0x7FFF_FFF0;
    assert SignedNumber(w, y)[l] == Number(w, y)[l];
    CellReached(above, SignedNumber(w, y), Blocks(w, vs[j + 1..]), l, r);
  }

  lemma {:induction false} WideOperand(c: M.Config, ys: seq<nat>, j: nat)
    requires Setup(c) && j < |ys| && AllNumbers(OperandWidth(c), ys)
    ensures Downwards(ys)[j] < Capacity(AccWidth(c))
  {
    assert Downwards(ys)[j] == ys[|ys| - 1 - j];
    Pow2Mono(c.nBits, AccWidth(c).nBits);
  }

  lemma {:induction false} SizesBound(c: M.Config)
    requires Setup(c)
    ensures BlockCount(c) >= c.nLc
    ensures BlockCount(c) * NLimbs(AccWidth(c)) < 0x7FFF_0000 && NLimbs(AccWidth(c)) < 0x4000
  {
    DepthBounds(c, 0, 0);
    MulNonNeg(c.nLc + 1, TableSize(c));
  }

  // ---------- loading ----------

  /** The limbs still waiting on the alt stack. */
  function Waiting(k: nat, rests: seq<int>, j: nat): seq<int>
    requires k > 0 ==> j <= |rests|
  {
    if k == 0 then [] else rests[j..]
  }

  lemma {:induction false} LoadRun(k: nat, reach: nat, top: nat, y: nat, waiting: seq<int>, s: Stack, alt: Stack)
    requires Reaches(s, reach + top / LIMB_SIZE, T.Field(y, top / LIMB_SIZE * LIMB_SIZE, LIMB_SIZE))
    requires k == 0 ==> y < Pow2(top + 1) && waiting == []
    requires k > 0 ==> waiting != [] && waiting[0] == Rest(y, (top + 1) / LIMB_SIZE, top + 1)
    ensures Exec(Load(k, reach, top), Running(s, Prepend(waiting, alt))) ==
            Running(Cell(Rest(y, top / LIMB_SIZE, top + 1), s), Prepend(if k == 0 then [] else waiting[1..], alt))
  {
    hide Exec;
    hide Step;
    hide Prepend;
    hide Reaches;
    hide T.Field;
    MoreStackRules();
    StackRules();
    var l := top / LIMB_SIZE;
    var limb := T.Field(y, l * LIMB_SIZE, LIMB_SIZE);
    var st := Running(s, Prepend(waiting, alt));
    if k == 0 {
      PickReached(s, 0, reach + l, limb, Prepend(waiting, alt));
      FieldToTop(y, l, top + 1 - l * LIMB_SIZE, (l + 1) * LIMB_SIZE - top - 1);
    } else {
      var alt1 := Prepend(waiting[1..], alt);
      assert waiting == [waiting[0]] + waiting[1..];
      PrependFirst(waiting[0], waiting[1..], alt);
      Exec1(FromAlt, st);
      if (top + 1) % LIMB_SIZE == 0 {
        assert top + 1 - l * LIMB_SIZE == LIMB_SIZE;
        ExecAppend([FromAlt, Drop], [Num(reach + l), Pick], st);
        Exec2(FromAlt, Drop, st);
        PickReached(s, 0, reach + l, limb, alt1);
      } else {
        assert (top + 1) / LIMB_SIZE == l;
      }
    }
  }

  // ---------- storing ----------

  lemma {:induction false} RollAway(l: seq<int>, x: int, s: Stack, alt: Stack)
    requires |l| <= 0x7FFF_FFFF
    ensures Exec([Num(|l|), Roll, ToAlt], Running(Prepend(l, Cell(x, s)), alt)) == Running(Prepend(l, s), Cell(x, alt))
  {
    hide Exec;
    hide Step;
    hide Prepend;
    MoreStackRules();
    var st := Running(Prepend(l, Cell(x, s)), alt);
    RollBelow(l, x, s, alt);
    Exec2(Num(|l|), Roll, st);
    Exec3(Num(|l|), Roll, ToAlt, st);
  }

  lemma {:induction false} StoreRun(k: nat, waiting: seq<int>, a: int, b: int, s: Stack, alt: Stack)
    requires 0 < |waiting| <= 0x7FFF_FFFF && k > 0
    ensures Exec(Store(k, |waiting|), Running(Cell(a, Cell(b, s)), Prepend(waiting, alt))) ==
            Running(s, Prepend(waiting, Cell(b, Cell(a, alt))))
  {
    hide Exec;
    hide Prepend;
    hide PushAll;
    hide Reverse;
    var m, back := |waiting|, Reverse(waiting);
    ExecAppend4(Repeat([FromAlt], m), [Num(m), Roll, ToAlt], [Num(m), Roll, ToAlt], Repeat([ToAlt], m),
                Running(Cell(a, Cell(b, s)), Prepend(waiting, alt)));
    PushReverse(waiting, alt);
    FromAltAll(back, Cell(a, Cell(b, s)), alt);
    RollAway(back, a, Cell(b, s), alt);
    RollAway(back, b, s, Cell(a, alt));
    ToAltAll(back, s, Cell(b, Cell(a, alt)));
    PushReverse(waiting, Cell(b, Cell(a, alt)));
  }

  lemma {:induction false} StoreFirst(more: nat, a: int, b: int, s: Stack, alt: Stack)
    requires more > 0
    ensures Exec(Store(0, more), Running(Cell(a, Cell(b, s)), alt)) == Running(s, Cell(b, Cell(a, alt)))
  {
    hide Exec;
    hide Step;
    MoreStackRules();
    Exec2(ToAlt, ToAlt, Running(Cell(a, Cell(b, s)), alt));
  }

  // ---------- all operands ----------

  /** The first j pairs of rest and window, pushed one after the other. */
  function Pairs(rests: seq<int>, slices: seq<int>, j: nat, alt: Stack): Stack
    requires j <= |rests| == |slices|
  {
    if j == 0 then alt else Cell(slices[j - 1], Cell(rests[j - 1], Pairs(rests, slices, j - 1, alt)))
  }

  /** The same pairs as cells of the main stack. */
  function PairCells(rests: seq<int>, slices: seq<int>, j: nat): (l: seq<int>)
    requires j <= |rests| == |slices|
    ensures |l| == 2 * j
  {
    if j == 0 then [] else PairCells(rests, slices, j - 1) + [rests[j - 1], slices[j - 1]]
  }

  lemma {:induction false} GatherRun(rests: seq<int>, slices: seq<int>, j: nat, s: Stack, alt: Stack)
    requires j <= |rests| == |slices|
    ensures Exec(Repeat([FromAlt, FromAlt], j), Running(s, Pairs(rests, slices, j, alt))) ==
            Running(Prepend(PairCells(rests, slices, j), s), alt)
    decreases j
  {
    hide Exec;
    hide Step;
    hide Prepend;
    MoreStackRules();
    var st := Running(s, Pairs(rests, slices, j, alt));
    if j == 0 {
      Exec0(st);
      NoCells(s);
    } else {
      ExecRepeat([FromAlt, FromAlt], j, st);
      Exec2(FromAlt, FromAlt, st);
      var s1 := Cell(rests[j - 1], Cell(slices[j - 1], s));
      GatherRun(rests, slices, j - 1, s1, alt);
      FewCells(rests[j - 1], slices[j - 1], 0, s);
      PrependAppend(PairCells(rests, slices, j - 1), [rests[j - 1], slices[j - 1]], s);
    }
  }

  lemma {:induction false} DistributeRun(rests: seq<int>, slices: seq<int>, j: nat, last: bool, s: Stack, alt: Stack)
    requires j <= |rests| == |slices| && 2 * j < 0x7FFF_FFFF
    ensures Exec(Distribute(j, last), Running(Prepend(PairCells(rests, slices, j), s), alt)) ==
            Running(Prepend(slices[..j], s), if last then alt else Prepend(rests[..j], alt))
    decreases j
  {
    hide Exec;
    hide Step;
    hide Prepend;
    StackRules();
    MoreStackRules();
    var st := Running(Prepend(PairCells(rests, slices, j), s), alt);
    if j == 0 {
      Exec0(st);
      NoCells(s);
      NoCells(alt);
    } else {
      var a, b, l := rests[j - 1], slices[j - 1], PairCells(rests, slices, j - 1);
      var s1, alt1 := Cell(b, s), if last then alt else Cell(a, alt);
      PrependAppend(l, [a, b], s);
      FewCells(a, b, 0, s);
      var roll := if j == 1 then [] else [Num(2 * (j - 1)), Roll];
      ExecAppend3(roll, [if last then Drop else ToAlt], Distribute(j - 1, last), st);
      RollBelow(l, a, s1, alt);
      Exec0(st);
      NoCells(Cell(a, s1));
      NoCells(s1);
      Exec1(if last then Drop else ToAlt, Running(Cell(a, Prepend(l, s1)), alt));
      DistributeRun(rests, slices, j - 1, last, s1, alt1);
      assert slices[..j] == slices[..j - 1] + [b] && rests[..j] == rests[..j - 1] + [a];
      PrependLast(slices[..j - 1], b, s);
      PrependLast(rests[..j - 1], a, alt);
    }
  }

  lemma {:induction false} WindowFits(c: M.Config, k: nat)
    requires Setup(c) && c.width > 0 && k < M.NWindows(c)
    ensures Bottom(c, k) + c.width - 1 < M.TBits(c)
    ensures k == 0 ==> Bottom(c, k) + c.width >= c.nBits
    ensures k > 0 ==> Bottom(c, k - 1) == Bottom(c, k) + c.width
  {
    hide M.NWindows;
    hide M.TBits;
    hide Setup;
    WindowsCover(c);
    WindowEnds(M.NWindows(c), c.width, k);
  }

  lemma {:induction false} WindowsCover(c: M.Config)
    requires Setup(c) && c.width > 0
    ensures c.nBits <= c.width * M.NWindows(c) <= c.nBits + c.width - 1 < M.TBits(c)
  {
    CeilingMultiple(c.nBits, c.width);
  }

  lemma {:induction false} CeilingMultiple(n: nat, d: nat)
    requires d > 0
    ensures n <= d * ((n + d - 1) / d) <= n + d - 1
  {
    var u := n + d - 1;
    assert u == d * (u / d) + u % d;
  }

  lemma {:induction false} WindowEnds(n: nat, w: nat, k: nat)
    requires k < n
    ensures w * (n - k - 1) + w == w * (n - k) <= w * n
  {
    MulMono(n - k, n, w);
    SplitProduct(n - k, w);
  }

  lemma {:induction false} LimbExists(w: Width, bit: nat)
    requires Valid(w) && w.limb == LIMB_SIZE && bit < w.nBits
    ensures bit / LIMB_SIZE < NLimbs(w)
  {
  }

  /** One operand: its window and what is left of its limb go below the limbs that still wait. */
  lemma {:induction false} CutOneRun(c: M.Config, k: nat, z: int, ys: seq<nat>, j: nat, r: Stack, alt: Stack)
    requires Setup(c) && 2 <= c.width <= 6 && |ys| == c.nLc && AllNumbers(OperandWidth(c), ys) && k < M.NWindows(c) && j < c.nLc
    ensures NLimbs(AccWidth(c)) * j >= 0
    ensures var n, bottom := NLimbs(AccWidth(c)), Bottom(c, k);
            var top := bottom + c.width - 1;
            var rests := if k == 0 then [] else Rests(ys, bottom + c.width);
            var s := WorkStack(c, z, ys, r);
            Exec(Load(k, n + n * j, top) + Cut(c.width, n + n * j, top), Running(s, Prepend(Waiting(k, rests, j), alt))) ==
            Running(Cell(Rests(ys, bottom)[j], Cell(Slices(ys, bottom, c.width)[j], s)), Prepend(Waiting(k, rests, j + 1), alt))
  {
    hide Exec;
    hide Prepend;
    hide Load;
    hide Cut;
    hide NLimbs;
    hide M.TBits;
    hide WorkStack;
    hide Reaches;
    hide T.Field;
    AccWidthIsValid(c);
    var n, bottom := NLimbs(AccWidth(c)), Bottom(c, k);
    var top := bottom + c.width - 1;
    var rests := if k == 0 then [] else Rests(ys, bottom + c.width);
    var s, y := WorkStack(c, z, ys, r), Downwards(ys)[j];
    WindowFits(c, k);
    hide M.NWindows;
    hide Bottom;
    LimbExists(AccWidth(c), top);
    LimbExists(AccWidth(c), bottom);
    LimbReached(c, z, ys, r, j, top / LIMB_SIZE);
    LimbReached(c, z, ys, r, j, bottom / LIMB_SIZE);
    if k == 0 { OperandBelow(c, ys, j, top + 1); }
    var waiting := Waiting(k, rests, j);
    ExecAppend(Load(k, n + n * j, top), Cut(c.width, n + n * j, top), Running(s, Prepend(waiting, alt)));
    LoadRun(k, n + n * j, top, y, waiting, s, alt);
    CutRun(y, c.width, n + n * j, top, s, Prepend(Waiting(k, rests, j + 1), alt));
  }

  lemma {:induction false} OperandBelow(c: M.Config, ys: seq<nat>, j: nat, bits: nat)
    requires AllNumbers(OperandWidth(c), ys) && j < |ys| && bits >= c.nBits
    ensures Downwards(ys)[j] < Pow2(bits)
  {
    assert Downwards(ys)[j] == ys[|ys| - 1 - j];
    Pow2Mono(c.nBits, bits);
  }

  lemma {:induction false} AllStored(k: nat, st: State)
    ensures Exec(Store(k, 0), st) == st
  {
    Exec0(st);
  }

  lemma {:induction false} StoreOne(k: nat, before: seq<int>, j: nat, count: nat, a: int, b: int, s: Stack, alt: Stack)
    requires j + 1 < count <= 0x7FFF_FFFF && (k > 0 ==> |before| == count)
    ensures Exec(Store(k, count - j - 1), Running(Cell(a, Cell(b, s)), Prepend(Waiting(k, before, j + 1), alt))) ==
            Running(s, Prepend(Waiting(k, before, j + 1), Cell(b, Cell(a, alt))))
  {
    hide Exec;
    hide Prepend;
    hide Store;
    if k == 0 {
      NoCells(alt);
      NoCells(Cell(b, Cell(a, alt)));
      StoreFirst(count - j - 1, a, b, s, alt);
    } else {
      StoreRun(k, before[j + 1..], a, b, s, alt);
    }
  }

  /** The limbs that wait before round k. */
  function Before(c: M.Config, k: nat, ys: seq<nat>): (l: seq<int>)
    requires c.width > 0 && k < M.NWindows(c)
    ensures k > 0 ==> |l| == |ys|
  {
    if k == 0 then [] else Rests(ys, Bottom(c, k) + c.width)
  }

  /** The first j operands are done. */
  function CutState(c: M.Config, k: nat, z: int, ys: seq<nat>, j: nat, r: Stack, alt: Stack): State
    requires Setup(c) && c.width > 0 && |ys| == c.nLc && k < M.NWindows(c) && j <= c.nLc
  {
    Running(WorkStack(c, z, ys, r),
            Prepend(Waiting(k, Before(c, k, ys), j), Pairs(Rests(ys, Bottom(c, k)), Slices(ys, Bottom(c, k), c.width), j, alt)))
  }

  /** The state before `store` of operand j. */
  function CutOffState(c: M.Config, k: nat, z: int, ys: seq<nat>, j: nat, r: Stack, alt: Stack): State
    requires Setup(c) && c.width > 0 && |ys| == c.nLc && k < M.NWindows(c) && j < c.nLc
  {
    var rests, slices := Rests(ys, Bottom(c, k)), Slices(ys, Bottom(c, k), c.width);
    Running(Cell(rests[j], Cell(slices[j], WorkStack(c, z, ys, r))),
            Prepend(Waiting(k, Before(c, k, ys), j + 1), Pairs(rests, slices, j, alt)))
  }

  lemma {:induction false} CutOffRun(c: M.Config, k: nat, z: int, ys: seq<nat>, j: nat, r: Stack, alt: Stack)
    requires Setup(c) && 2 <= c.width <= 6 && |ys| == c.nLc && AllNumbers(OperandWidth(c), ys) && k < M.NWindows(c) && j < c.nLc
    ensures Exec(CutOperand(c, k, NLimbs(AccWidth(c)), j), CutState(c, k, z, ys, j, r, alt)) ==
            Exec(Store(k, c.nLc - j - 1), CutOffState(c, k, z, ys, j, r, alt))
  {
    hide Exec;
    hide Prepend;
    hide Load;
    hide Cut;
    hide Store;
    hide NLimbs;
    hide M.TBits;
    hide M.NWindows;
    hide WorkStack;
    hide Bottom;
    hide Rests;
    hide Slices;
    hide AllNumbers;
    AccWidthIsValid(c);
    var n := NLimbs(AccWidth(c));
    var top := Bottom(c, k) + c.width - 1;
    MulNonNeg(n, j);
    ExecAppend(Load(k, n + n * j, top) + Cut(c.width, n + n * j, top), Store(k, c.nLc - j - 1), CutState(c, k, z, ys, j, r, alt));
    CutOneRun(c, k, z, ys, j, r, Pairs(Rests(ys, Bottom(c, k)), Slices(ys, Bottom(c, k), c.width), j, alt));
  }

  lemma {:induction false} StoredState(c: M.Config, k: nat, z: int, ys: seq<nat>, j: nat, r: Stack, alt: Stack)
    requires Setup(c) && c.width > 0 && |ys| == c.nLc <= 0x7FFF_FFFF && k < M.NWindows(c) && j + 1 < c.nLc
    ensures Exec(Store(k, c.nLc - j - 1), CutOffState(c, k, z, ys, j, r, alt)) == CutState(c, k, z, ys, j + 1, r, alt)
  {
    hide Exec;
    hide Prepend;
    hide Store;
    hide Waiting;
    hide NLimbs;
    hide M.TBits;
    hide M.NWindows;
    hide WorkStack;
    hide Bottom;
    hide Rests;
    hide Slices;
    hide Before;
    hide Setup;
    var rests, slices := Rests(ys, Bottom(c, k)), Slices(ys, Bottom(c, k), c.width);
    StoreOne(k, Before(c, k, ys), j, c.nLc, rests[j], slices[j], WorkStack(c, z, ys, r), Pairs(rests, slices, j, alt));
  }

  lemma {:induction false} NoneWaits(c: M.Config, k: nat, ys: seq<nat>, alt: Stack)
    requires c.width > 0 && |ys| == c.nLc && k < M.NWindows(c)
    ensures Prepend(Waiting(k, Before(c, k, ys), c.nLc), alt) == alt
  {
    hide M.NWindows;
    hide Rests;
    hide Bottom;
    assert Waiting(k, Before(c, k, ys), c.nLc) == [];
    NoCells(alt);
  }

  /** All operands from j on: the last window and rest stay on the main stack, the others wait on the alt stack. */
  lemma {:induction false} CutAllRun(c: M.Config, k: nat, z: int, ys: seq<nat>, j: nat, r: Stack, alt: Stack)
    requires Setup(c) && 2 <= c.width <= 6 && |ys| == c.nLc && AllNumbers(OperandWidth(c), ys) && k < M.NWindows(c) && j < c.nLc
    ensures Exec(CutAll(c, k, NLimbs(AccWidth(c)), j), CutState(c, k, z, ys, j, r, alt)) ==
            CutOffState(c, k, z, ys, c.nLc - 1, r, alt)
    decreases c.nLc - j
  {
    hide Exec;
    hide CutOperand;
    hide CutState;
    hide CutOffState;
    hide NLimbs;
    hide M.TBits;
    hide M.NWindows;
    hide AllNumbers;
    AccWidthIsValid(c);
    SizesBound(c);
    FewOperands(c);
    hide Setup;
    var n, st := NLimbs(AccWidth(c)), CutState(c, k, z, ys, j, r, alt);
    var tail := CutAll(c, k, n, j + 1);
    assert CutAll(c, k, n, j) == CutOperand(c, k, n, j) + tail;
    assert j + 1 == c.nLc ==> tail == [];
    hide CutAll;
    ExecAppend(CutOperand(c, k, n, j), tail, st);
    CutOffRun(c, k, z, ys, j, r, alt);
    if j + 1 == c.nLc {
      AllStored(k, CutOffState(c, k, z, ys, j, r, alt));
      Exec0(CutOffState(c, k, z, ys, j, r, alt));
    } else {
      StoredState(c, k, z, ys, j, r, alt);
      CutAllRun(c, k, z, ys, j + 1, r, alt);
    }
  }

  lemma {:induction false} FewOperands(c: M.Config)
    requires Setup(c)
    ensures c.nLc <= 0x7FFF_FFFF && 2 * c.nLc < 0x7FFF_FFFF
  {
    hide Pow2;
    hide M.TBits;
    AccWidthIsValid(c);
    SizesBound(c);
    var n := NLimbs(AccWidth(c));
    MulMono(2, n, c.nLc);
    MulMono(c.nLc, BlockCount(c), n);
  }

  // ---------- the whole script ----------

  lemma {:induction false} SlicesAreWindows(c: M.Config, ys: seq<nat>, k: nat)
    requires c.width > 0 && k < M.NWindows(c)
    ensures Slices(ys, Bottom(c, k), c.width) == Reverse(M.Windows(c, ys, k))
  {
    hide M.NWindows;
    hide Pow2;
    hide Reverse;
    var ws, n := M.Windows(c, ys, k), |ys|;
    forall j | 0 <= j < n ensures Slices(ys, Bottom(c, k), c.width)[j] == Reverse(ws)[j] {
      ReverseAt(ws, j);
      assert Downwards(ys)[j] == ys[n - 1 - j];
    }
  }

  /** `var_windows_script` puts the windows of round k on top, and leaves the rest of both stacks as it was, but for the limbs
      under work. */
  lemma {:induction false} VarWindowsRun(c: M.Config, k: nat, z: int, ys: seq<nat>, r: Stack, alt: Stack)
    requires Setup(c) && 2 <= c.width <= 6 && |ys| == c.nLc && AllNumbers(OperandWidth(c), ys) && k < M.NWindows(c)
    ensures var s := WorkStack(c, z, ys, r);
            Exec(VarWindows(c, k), Running(s, Prepend(Held(c, ys, k), alt))) ==
            Running(Prepend(Reverse(M.Windows(c, ys, k)), s), Prepend(Held(c, ys, k + 1), alt))
  {
    hide Exec;
    hide Prepend;
    hide CutAll;
    hide Distribute;
    hide NLimbs;
    hide M.TBits;
    hide M.Windows;
    hide WorkStack;
    hide Rests;
    hide Slices;
    hide AllNumbers;
    hide Reverse;
    AccWidthIsValid(c);
    WindowFits(c, k);
    FewOperands(c);
    var n, bottom := NLimbs(AccWidth(c)), Bottom(c, k);
    var before := Before(c, k, ys);
    var rests, slices := Rests(ys, bottom), Slices(ys, bottom, c.width);
    var s, last := WorkStack(c, z, ys, r), k + 1 == M.NWindows(c);
    assert Waiting(k, before, 0) == Held(c, ys, k);
    var m := c.nLc - 1;
    ExecAppend3(CutAll(c, k, n, 0), Repeat([FromAlt, FromAlt], m), Distribute(c.nLc, last), Running(s, Prepend(Held(c, ys, k), alt)));
    CutAllRun(c, k, z, ys, 0, r, alt);
    NoneWaits(c, k, ys, Pairs(rests, slices, m, alt));
    var s1 := Cell(rests[m], Cell(slices[m], s));
    GatherRun(rests, slices, m, s1, alt);
    FewCells(rests[m], slices[m], 0, s);
    PrependAppend(PairCells(rests, slices, m), [rests[m], slices[m]], s);
    DistributeRun(rests, slices, c.nLc, last, s, alt);
    assert slices[..c.nLc] == slices && rests[..c.nLc] == rests;
    SlicesAreWindows(c, ys, k);
    NoCells(alt);
    assert Held(c, ys, k + 1) == if last then [] else rests;
  }
}
