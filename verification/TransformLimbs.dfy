/** Re-encoding a number with another limb size (bitvm/src/bigint/std.rs). */
module TransformLimbs {
  import opened Arithmetic
  import opened ScriptMachine
  import opened Limbs
  import opened BitConversion
  import opened SignedLimbs

  /** `TransformStep`. */
  datatype TransformStep = TransformStep(remaining: nat, window: nat, dropLimb: bool, startsLimb: bool)

  // ---------- the steps ----------

  /** The steps from the point where `cur` bits are left in the current source limb with k full ones behind it, and `rem`
      bits are missing in the current target limb with m full ones to follow. */
  function Steps(cur: nat, k: nat, rem: nat, m: nat, first: bool, s: nat, t: nat): seq<TransformStep>
    requires cur > 0 && rem > 0 && s > 0 && t > 0 && cur + k * s == rem + m * t
    decreases k + m
  {
    Balance(cur, k, rem, m, s, t);
    if cur < rem then
      [TransformStep(cur, cur, true, first)] + Steps(s, k - 1, rem - cur, m, false, s, t)
    else if cur == rem then
      [TransformStep(cur, rem, true, first)] + (if k == 0 then [] else Steps(s, k - 1, t, m - 1, true, s, t))
    else
      [TransformStep(cur, rem, false, first)] + Steps(cur - rem, k, t, m - 1, true, s, t)
  }

  /** Source and target bits run out together. */
  lemma {:induction false} Balance(cur: nat, k: nat, rem: nat, m: nat, s: nat, t: nat)
    requires cur > 0 && rem > 0 && s > 0 && t > 0 && cur + k * s == rem + m * t
    ensures k * s >= 0 && m * t >= 0
    ensures cur < rem ==> k > 0 && s + (k - 1) * s == rem - cur + m * t
    ensures cur == rem ==> (k == 0 <==> m == 0) && (k > 0 ==> s + (k - 1) * s == t + (m - 1) * t)
    ensures cur > rem ==> m > 0 && cur - rem + k * s == t + (m - 1) * t
  {
    MulNonNeg(k, s);
    MulNonNeg(m, t);
    SplitProduct(k, s);
    SplitProduct(m, t);
    if k > 0 { MulMono(1, k, s); }
    if m > 0 { MulMono(1, m, t); }
  }

  /** All steps of a transformation of n-bit numbers from limb size s to limb size t. */
  function AllSteps(n: nat, s: nat, t: nat): seq<TransformStep>
    requires 0 < s < n && 0 < t < n
  {
    var from, to := Width(n, s), Width(n, t);
    Steps(Head(from), NLimbs(from) - 1, Head(to), NLimbs(to) - 1, true, s, t)
  }

  function Windows(steps: seq<TransformStep>): nat {
    if steps == [] then 0 else steps[0].window + Windows(steps[1..])
  }

  function Drops(steps: seq<TransformStep>): nat {
    if steps == [] then 0 else (if steps[0].dropLimb then 1 else 0) + Drops(steps[1..])
  }

  function Starts(steps: seq<TransformStep>): nat {
    if steps == [] then 0 else (if steps[0].startsLimb then 1 else 0) + Starts(steps[1..])
  }

  lemma {:induction false} NoSteps()
    ensures Windows([]) == 0 && Drops([]) == 0 && Starts([]) == 0
  {
  }

  lemma {:induction false} CountStep(x: TransformStep, rest: seq<TransformStep>)
    ensures Windows([x] + rest) == x.window + Windows(rest)
    ensures Drops([x] + rest) == (if x.dropLimb then 1 else 0) + Drops(rest)
    ensures Starts([x] + rest) == (if x.startsLimb then 1 else 0) + Starts(rest)
  {
    assert ([x] + rest)[1..] == rest;
  }

  /** The windows cover every bit, every source limb is dropped once and every target limb started once. */
  lemma {:induction false} StepCounts(cur: nat, k: nat, rem: nat, m: nat, first: bool, s: nat, t: nat)
    requires cur > 0 && rem > 0 && s > 0 && t > 0 && cur + k * s == rem + m * t
    ensures var steps := Steps(cur, k, rem, m, first, s, t);
            Windows(steps) == cur + k * s && Drops(steps) == k + 1 && Starts(steps) == m + (if first then 1 else 0) &&
            steps != []
    decreases k + m
  {
    hide Windows;
    hide Drops;
    hide Starts;
    Balance(cur, k, rem, m, s, t);
    if cur < rem {
      CountStep(TransformStep(cur, cur, true, first), Steps(s, k - 1, rem - cur, m, false, s, t));
      StepCounts(s, k - 1, rem - cur, m, false, s, t);
    } else if cur == rem && k == 0 {
      CountStep(TransformStep(cur, rem, true, first), []);
      assert [TransformStep(cur, rem, true, first)] + [] == Steps(cur, k, rem, m, first, s, t);
      NoSteps();
    } else if cur == rem {
      CountStep(TransformStep(cur, rem, true, first), Steps(s, k - 1, t, m - 1, true, s, t));
      StepCounts(s, k - 1, t, m - 1, true, s, t);
    } else {
      CountStep(TransformStep(cur, rem, false, first), Steps(cur - rem, k, t, m - 1, true, s, t));
      StepCounts(cur - rem, k, t, m - 1, true, s, t);
    }
  }

  lemma {:induction false} AllStepsCounts(n: nat, s: nat, t: nat)
    requires 0 < s < n && 0 < t < n
    ensures var steps := AllSteps(n, s, t);
            Windows(steps) == n && Drops(steps) == NLimbs(Width(n, s)) && Starts(steps) == NLimbs(Width(n, t))
  {
    hide NLimbs;
    hide Head;
    hide Steps;
    var from, to := Width(n, s), Width(n, t);
    StepCounts(Head(from), NLimbs(from) - 1, Head(to), NLimbs(to) - 1, true, s, t);
  }

  /** A stack of limb sizes with full limbs below the current one, and as many bits missing on the target side. */
  ghost predicate Pending(sizes: seq<nat>, rem: nat, m: nat, s: nat, t: nat)
    requires s > 0 && t > 0
  {
    sizes != [] && rem > 0 && sizes[|sizes| - 1] > 0 && (forall i :: 0 <= i < |sizes| - 1 ==> sizes[i] == s) &&
    sizes[|sizes| - 1] + (|sizes| - 1) * s == rem + m * t
  }

  /** What was emitted and what is still to come make up the goal. */
  ghost predicate OnTrack(steps: seq<TransformStep>, sizes: seq<nat>, rem: nat, m: nat, first: bool, s: nat, t: nat,
                          goal: seq<TransformStep>)
    requires s > 0 && t > 0
  {
    Pending(sizes, rem, m, s, t) && steps + Steps(sizes[|sizes| - 1], |sizes| - 1, rem, m, first, s, t) == goal
  }

  /** After a target limb is complete: all done, or on track for the next target limb. */
  ghost predicate LimbDone(steps: seq<TransformStep>, sizes: seq<nat>, m: nat, s: nat, t: nat, goal: seq<TransformStep>)
    requires s > 0 && t > 0
  {
    if sizes == [] then steps == goal else m > 0 && OnTrack(steps, sizes, t, m - 1, true, s, t, goal)
  }

  lemma {:induction false} StartsOnTrack(steps: seq<TransformStep>, sizes: seq<nat>, rem: nat, m: nat, first: bool, s: nat, t: nat,
                                         goal: seq<TransformStep>)
    requires s > 0 && t > 0 && Pending(sizes, rem, m, s, t)
    requires steps + Steps(sizes[|sizes| - 1], |sizes| - 1, rem, m, first, s, t) == goal
    ensures OnTrack(steps, sizes, rem, m, first, s, t, goal)
  {
  }

  lemma {:induction false} StillPending(steps: seq<TransformStep>, sizes: seq<nat>, rem: nat, m: nat, first: bool, s: nat, t: nat,
                                        goal: seq<TransformStep>)
    requires s > 0 && t > 0 && OnTrack(steps, sizes, rem, m, first, s, t, goal)
    ensures Pending(sizes, rem, m, s, t) && rem > 0
  {
  }

  lemma {:induction false} NextTarget(steps: seq<TransformStep>, sizes: seq<nat>, m: nat, s: nat, t: nat, goal: seq<TransformStep>)
    requires s > 0 && t > 0 && LimbDone(steps, sizes, m, s, t, goal)
    ensures if sizes == [] then steps == goal else m > 0 && OnTrack(steps, sizes, t, m - 1, true, s, t, goal)
  {
  }

  lemma {:induction false} StepLess(steps: seq<TransformStep>, sizes: seq<nat>, rem: nat, m: nat, first: bool, s: nat, t: nat,
                                    goal: seq<TransformStep>)
    requires s > 0 && t > 0 && OnTrack(steps, sizes, rem, m, first, s, t, goal)
    requires sizes[|sizes| - 1] < rem
    ensures var cur := sizes[|sizes| - 1];
            OnTrack(steps + [TransformStep(cur, cur, true, first)], sizes[..|sizes| - 1], rem - cur, m, false, s, t, goal)
  {
    var cur, k := sizes[|sizes| - 1], |sizes| - 1;
    Balance(cur, k, rem, m, s, t);
    var rest := Steps(s, k - 1, rem - cur, m, false, s, t);
    Regroup(steps, TransformStep(cur, cur, true, first), rest);
  }

  lemma {:induction false} StepEqual(steps: seq<TransformStep>, sizes: seq<nat>, rem: nat, m: nat, first: bool, s: nat, t: nat,
                                     goal: seq<TransformStep>)
    requires s > 0 && t > 0 && OnTrack(steps, sizes, rem, m, first, s, t, goal)
    requires sizes[|sizes| - 1] == rem
    ensures LimbDone(steps + [TransformStep(rem, rem, true, first)], sizes[..|sizes| - 1], m, s, t, goal)
  {
    var k := |sizes| - 1;
    Balance(rem, k, rem, m, s, t);
    if k > 0 {
      Regroup(steps, TransformStep(rem, rem, true, first), Steps(s, k - 1, t, m - 1, true, s, t));
    }
  }

  lemma {:induction false} StepGreater(steps: seq<TransformStep>, sizes: seq<nat>, rem: nat, m: nat, first: bool, s: nat, t: nat,
                                       goal: seq<TransformStep>)
    requires s > 0 && t > 0 && OnTrack(steps, sizes, rem, m, first, s, t, goal)
    requires sizes[|sizes| - 1] > rem
    ensures var cur, k := sizes[|sizes| - 1], |sizes| - 1;
            LimbDone(steps + [TransformStep(cur, rem, false, first)], sizes[k := cur - rem], m, s, t, goal)
  {
    var cur, k := sizes[|sizes| - 1], |sizes| - 1;
    Balance(cur, k, rem, m, s, t);
    Regroup(steps, TransformStep(cur, rem, false, first), Steps(cur - rem, k, t, m - 1, true, s, t));
  }

  lemma {:induction false} Regroup(a: seq<TransformStep>, x: TransformStep, b: seq<TransformStep>)
    ensures a + ([x] + b) == (a + [x]) + b
  {
  }

  /** The generator, with its stack of limb sizes: the last one is the limb being read. */
  method GetTransformSteps(n: nat, s: nat, t: nat) returns (steps: seq<TransformStep>)
    requires 0 < s < n && 0 < t < n
    ensures steps == AllSteps(n, s, t)
  {
    hide Steps;
    hide NLimbs;
    hide Head;
    hide OnTrack;
    hide LimbDone;
    steps := [];
    var targetLimbs := NLimbs(Width(n, t));
    var sourceLimbs := NLimbs(Width(n, s));
    var targetRemaining := Head(Width(n, t));
    var limbSizes: seq<nat> := [];
    var firstIter := true;
    for i := 0 to sourceLimbs - 1
      invariant |limbSizes| == i && forall j :: 0 <= j < i ==> limbSizes[j] == s
    {
      limbSizes := limbSizes + [s];
    }
    limbSizes := limbSizes + [Head(Width(n, s))];
    ghost var m, goal := targetLimbs - 1, AllSteps(n, s, t);
    assert [] + goal == goal;
    StartsOnTrack(steps, limbSizes, targetRemaining, m, true, s, t, goal);
    while limbSizes != []
      invariant if limbSizes == [] then steps == goal
                else firstIter && OnTrack(steps, limbSizes, targetRemaining, m, true, s, t, goal)
      decreases |limbSizes| + m
    {
      ghost var before := |limbSizes|;
      StillPending(steps, limbSizes, targetRemaining, m, true, s, t, goal);
      while targetRemaining > 0
        invariant |limbSizes| <= before
        invariant if targetRemaining > 0 then OnTrack(steps, limbSizes, targetRemaining, m, firstIter, s, t, goal)
                  else LimbDone(steps, limbSizes, m, s, t, goal) && (limbSizes == [] ==> |limbSizes| < before)
        decreases targetRemaining
      {
        StillPending(steps, limbSizes, targetRemaining, m, firstIter, s, t, goal);
        var last := |limbSizes| - 1;
        var sourceRemaining := limbSizes[last];
        if sourceRemaining < targetRemaining {
          StepLess(steps, limbSizes, targetRemaining, m, firstIter, s, t, goal);
          steps := steps + [TransformStep(sourceRemaining, sourceRemaining, true, firstIter)];
          targetRemaining := targetRemaining - sourceRemaining;
          limbSizes := limbSizes[..last];
        } else if sourceRemaining == targetRemaining {
          StepEqual(steps, limbSizes, targetRemaining, m, firstIter, s, t, goal);
          steps := steps + [TransformStep(sourceRemaining, targetRemaining, true, firstIter)];
          targetRemaining := 0;
          limbSizes := limbSizes[..last];
        } else {
          StepGreater(steps, limbSizes, targetRemaining, m, firstIter, s, t, goal);
          steps := steps + [TransformStep(sourceRemaining, targetRemaining, false, firstIter)];
          limbSizes := limbSizes[last := sourceRemaining - targetRemaining];
          targetRemaining := 0;
        }
        firstIter := false;
      }
      NextTarget(steps, limbSizes, m, s, t, goal);
      if limbSizes != [] { m := m - 1; }
      targetRemaining := t;
      firstIter := true;
    }
  }

  // ---------- the program ----------

  function ExtractTurn(p: nat, last: bool): Script {
    [Tuck, Num(p), GreaterThanOrEqual, Tuck, Add] + (if last then [] else Nmul(2)) + [Rot, Rot, If([Num(p), Sub], [])]
  }

  function ExtractTurns(start: nat, window: nat, i: nat): Script
    requires i <= window <= start
    decreases window - i
  {
    if i == window then []
    else ExtractTurn(Pow2(start - i - 1), i + 1 == window) + ExtractTurns(start, window, i + 1)
  }

  /** `extract_digits`: splits the window top bits off a limb of `start` bits. */
  function ExtractDigits(start: nat, window: nat): Script
    requires window <= start
  {
    [Num(0), Swap] + ExtractTurns(start, window, 0)
  }

  function StepScript(x: TransformStep, last: bool): Script
    requires x.window <= x.remaining
  {
    ExtractDigits(x.remaining, x.window) +
    (if x.startsLimb then [] else [Rot] + Repeat([Dup, Add], x.window) + [Rot, Add, Swap]) +
    (if x.dropLimb then [Drop] + (if last then [] else [FromAlt]) else [])
  }

  function EmitSteps(steps: seq<TransformStep>): Script
    requires forall x :: x in steps ==> x.window <= x.remaining
  {
    if steps == [] then [] else StepScript(steps[0], |steps| == 1) + EmitSteps(steps[1..])
  }

  lemma {:induction false} StepsWellFormed(cur: nat, k: nat, rem: nat, m: nat, first: bool, s: nat, t: nat)
    requires cur > 0 && rem > 0 && s > 0 && t > 0 && cur + k * s == rem + m * t
    ensures forall x :: x in Steps(cur, k, rem, m, first, s, t) ==> x.window <= x.remaining
    decreases k + m
  {
    Balance(cur, k, rem, m, s, t);
    if cur < rem {
      StepsWellFormed(s, k - 1, rem - cur, m, false, s, t);
    } else if cur == rem {
      if k > 0 { StepsWellFormed(s, k - 1, t, m - 1, true, s, t); }
    } else {
      StepsWellFormed(cur - rem, k, t, m - 1, true, s, t);
    }
  }

  /** `transform_limbsize` on n-bit numbers. */
  function TransformLimbsize(n: nat, s: nat, t: nat): Script
    requires 0 < s < 32 && 0 < t < 32 && 32 <= n
  {
    if s == t then []
    else
      var from, to := Width(n, s), Width(n, t);
      StepsWellFormed(Head(from), NLimbs(from) - 1, Head(to), NLimbs(to) - 1, true, s, t);
      Repeat([ToAlt], NLimbs(from) - 1) + EmitSteps(AllSteps(n, s, t))
  }

  // ---------- bit fields ----------

  /** Bits lo to lo + len of v. */
  function Field(v: nat, lo: nat, len: nat): (r: nat)
    ensures r < Pow2(len)
  {
    Lo(Up(v, Pow2(lo)), Pow2(len))
  }

  lemma {:induction false} FieldSplit(v: nat, lo: nat, a: nat, b: nat)
    ensures Field(v, lo, a + b) == Field(v, lo + a, b) * Pow2(a) + Field(v, lo, a)
    ensures Up(Field(v, lo, a + b), Pow2(a)) == Field(v, lo + a, b) && Lo(Field(v, lo, a + b), Pow2(a)) == Field(v, lo, a)
  {
    var x, p, q := Pow2(lo), Pow2(a), Pow2(b);
    Pow2Add(a, b);
    Pow2Add(lo, a);
    hide Pow2;
    UpUp(v, x, p);
    var u := Up(v, x);
    ModOfProduct(u, p, q);
    Split(Lo(u, p * q), p);
  }

  // ---------- extracting a window ----------

  lemma {:induction false} ExtractTurnRun(v: nat, acc: nat, p: nat, last: bool, r: Stack, alt: Stack)
    requires v < 2 * p && p <= 0x4000_0000 && acc + 1 <= 0x7FFF_FFFF
    ensures Exec(ExtractTurn(p, last), Running(Cell(v, Cell(acc, r)), alt)) ==
            Running(Cell(Lo(v, p), Cell((if last then 1 else 2) * (acc + Up(v, p)), r)), alt)
  {
    hide Exec;
    hide Step;
    hide Lo;
    hide Up;
    hide Nmul;
    StackRules();
    MoreStackRules();
    NumberRules();
    OneDigit(v, p);
    NmulTwo();
    var f := Up(v, p);
    var st := Running(Cell(v, Cell(acc, r)), alt);
    var twice := if last then [] else Nmul(2);
    ExecAppend3([Tuck, Num(p), GreaterThanOrEqual, Tuck, Add], twice, [Rot, Rot, If([Num(p), Sub], [])], st);
    Exec5(Tuck, Num(p), GreaterThanOrEqual, Tuck, Add, st);
    var a := acc + f;
    assert f + acc == a;
    var st2 := Running(Cell(a, Cell(f, Cell(v, r))), alt);
    Exec2(Dup, Add, st2);
    Exec0(st2);
    RestoreRun(v, f, (if last then 1 else 2) * a, p, r, alt);
  }

  lemma {:induction false} RestoreRun(v: nat, f: int, a: int, p: nat, r: Stack, alt: Stack)
    requires v < 2 * p && p <= 0x4000_0000 && f == Bit(p <= v)
    ensures Exec([Rot, Rot, If([Num(p), Sub], [])], Running(Cell(a, Cell(f, Cell(v, r))), alt)) ==
            Running(Cell(if p <= v then v - p else v, Cell(a, r)), alt)
  {
    hide Exec;
    hide Step;
    StackRules();
    MoreStackRules();
    NumberRules();
    Exec3(Rot, Rot, If([Num(p), Sub], []), Running(Cell(a, Cell(f, Cell(v, r))), alt));
    var st := Running(Cell(v, Cell(a, r)), alt);
    Exec2(Num(p), Sub, st);
    Exec0(st);
  }

  lemma {:induction false} ExtractLoop(c: nat, start: nat, window: nat, i: nat, r: Stack, alt: Stack)
    requires i < window <= start <= 31 && c < Pow2(start)
    ensures Exec(ExtractTurns(start, window, i),
                 Running(Cell(Lo(c, Pow2(start - i)), Cell(2 * Up(c, Pow2(start - i)), r)), alt)) ==
            Running(Cell(Lo(c, Pow2(start - window)), Cell(Up(c, Pow2(start - window)), r)), alt)
    decreases window - i
  {
    hide Exec;
    hide Lo;
    hide Up;
    hide Pow2;
    hide ExtractTurn;
    var p := Pow2(start - i - 1);
    Pow2Succ(start - i - 1);
    SplitTwice(c, p);
    Split(Up(c, p), 2);
    UpNonNeg(c, p);
    UpNonNeg(c, 2 * p);
    PowerIsNum(start - i - 1);
    SmallQuotient(c, start, start - i - 1);
    var st := Running(Cell(Lo(c, 2 * p), Cell(2 * Up(c, 2 * p), r)), alt);
    ExecAppend(ExtractTurn(p, i + 1 == window), ExtractTurns(start, window, i + 1), st);
    PowerBound(start - i - 1);
    ExtractTurnRun(Lo(c, 2 * p), 2 * Up(c, 2 * p), p, i + 1 == window, r, alt);
    if i + 1 == window {
      Exec0(Running(Cell(Lo(c, p), Cell(Up(c, p), r)), alt));
    } else {
      ExtractLoop(c, start, window, i + 1, r, alt);
    }
  }

  lemma {:induction false} SmallQuotient(c: nat, start: nat, i: nat)
    requires i < start <= 31 && c < Pow2(start)
    ensures Up(c, Pow2(i)) < 0x8000_0000
  {
    hide Lo;
    hide Up;
    Pow2Add(i, start - i);
    Split(c, Pow2(i));
    BelowProduct(c, Up(c, Pow2(i)), Lo(c, Pow2(i)), Pow2(i), Pow2(start - i));
    hide Pow2;
    PowerBound(30);
    Pow2Mono(start - i, 31);
    Pow2Succ(30);
  }

  /** `extract_digits` leaves the low bits on top of the window. */
  lemma {:induction false} ExtractDigitsRun(c: nat, start: nat, window: nat, r: Stack, alt: Stack)
    requires 0 < window <= start <= 31 && c < Pow2(start)
    ensures Exec(ExtractDigits(start, window), Running(Cell(c, r), alt)) ==
            Running(Cell(Lo(c, Pow2(start - window)), Cell(Up(c, Pow2(start - window)), r)), alt)
  {
    hide Exec;
    hide Step;
    hide Lo;
    hide Up;
    hide Pow2;
    hide ExtractTurns;
    StackRules();
    ExecAppend([Num(0), Swap], ExtractTurns(start, window, 0), Running(Cell(c, r), alt));
    Exec2(Num(0), Swap, Running(Cell(c, r), alt));
    SplitUnique(c, Pow2(start), 0, c);
    ExtractLoop(c, start, window, 0, r, alt);
  }

  // ---------- one step ----------

  lemma {:induction false} DoubleRepeated(x: nat, n: nat, r: Stack, alt: Stack)
    requires x * Pow2(n) <= 0xFFFF_FFFE
    ensures x * Pow2(n) >= x
    ensures Exec(Repeat([Dup, Add], n), Running(Cell(x, r), alt)) == Running(Cell(x * Pow2(n), r), alt)
    decreases n
  {
    hide Exec;
    hide Step;
    StackRules();
    NumberRules();
    var st := Running(Cell(x, r), alt);
    if n == 0 {
      Exec0(st);
    } else {
      DoublePowerLeft(x, n);
      ExecRepeat([Dup, Add], n, st);
      Exec2(Dup, Add, st);
      DoubleRepeated(x + x, n - 1, r, alt);
    }
  }

  lemma {:induction false} DoublePowerLeft(x: nat, n: nat)
    requires n > 0
    ensures x * Pow2(n) == (x + x) * Pow2(n - 1) >= x + x
  {
    var p := Pow2(n - 1);
    MulAssoc(x, 2, p);
    MulMono(1, p, x + x);
  }

  /** Appending a window to a target limb that already has bits. */
  lemma {:induction false} AppendRun(rest: int, win: nat, acc: nat, w: nat, r: Stack, alt: Stack)
    requires win < Pow2(w) && acc * Pow2(w) + win < 0x8000_0000
    ensures Exec([Rot] + Repeat([Dup, Add], w) + [Rot, Add, Swap], Running(Cell(rest, Cell(win, Cell(acc, r))), alt)) ==
            Running(Cell(rest, Cell(acc * Pow2(w) + win, r)), alt)
  {
    hide Exec;
    hide Step;
    hide Repeat;
    hide Pow2;
    StackRules();
    MoreStackRules();
    NumberRules();
    MulNonNeg(acc, Pow2(w));
    var st := Running(Cell(rest, Cell(win, Cell(acc, r))), alt);
    ExecAppend3([Rot], Repeat([Dup, Add], w), [Rot, Add, Swap], st);
    Exec1(Rot, st);
    DoubleRepeated(acc, w, Cell(rest, Cell(win, r)), alt);
    Exec3(Rot, Add, Swap, Running(Cell(acc * Pow2(w), Cell(rest, Cell(win, r))), alt));
  }

  /** A whole step, in terms of bit fields: q bits of v lie below the current position, `done` bits of the current target
      limb are already there. */
  lemma {:induction false} StepRun(v: nat, x: TransformStep, low: nat, done: nat, last: bool, next: int, r: Stack, alt: Stack)
    requires 0 < x.window <= x.remaining <= 31 && done + x.window <= 31 && (x.startsLimb ==> done == 0)
    requires x.dropLimb ==> x.window == x.remaining
    ensures var at := low + x.remaining;
            var rest := Field(v, low, x.remaining - x.window);
            var limb := Field(v, at - x.window, done + x.window);
            var before := if x.startsLimb then r else Cell(Field(v, at, done), r);
            Exec(StepScript(x, last), Running(Cell(Field(v, low, x.remaining), before), if last then alt else Cell(next, alt))) ==
            if x.dropLimb then
              (if last then Running(Cell(limb, r), alt) else Running(Cell(next, Cell(limb, r)), alt))
            else Running(Cell(rest, Cell(limb, r)), if last then alt else Cell(next, alt))
  {
    hide Exec;
    hide Step;
    hide Field;
    hide Repeat;
    hide ExtractDigits;
    hide Pow2;
    StackRules();
    MoreStackRules();
    var at := low + x.remaining;
    var lowBits := x.remaining - x.window;
    var c := Field(v, low, x.remaining);
    var a := if last then alt else Cell(next, alt);
    var before := if x.startsLimb then r else Cell(Field(v, at, done), r);
    var append := if x.startsLimb then [] else [Rot] + Repeat([Dup, Add], x.window) + [Rot, Add, Swap];
    var drop := if x.dropLimb then [Drop] + (if last then [] else [FromAlt]) else [];
    var st := Running(Cell(c, before), a);
    ExecAppend3(ExtractDigits(x.remaining, x.window), append, drop, st);
    ExtractDigitsRun(c, x.remaining, x.window, before, a);
    FieldSplit(v, low, lowBits, x.window);
    var win := Field(v, at - x.window, x.window);
    var rest := Field(v, low, lowBits);
    FieldSplit(v, at - x.window, x.window, done);
    var limb := Field(v, at - x.window, done + x.window);
    var st2 := Running(Cell(rest, Cell(win, before)), a);
    LimbBound(limb, done + x.window);
    if x.startsLimb {
      Exec0(st2);
    } else {
      AppendRun(rest, win, Field(v, at, done), x.window, r, a);
    }
    var st3 := Running(Cell(rest, Cell(limb, r)), a);
    assert [Drop] + [] == [Drop] && [Drop] + [FromAlt] == [Drop, FromAlt];
    Exec0(st3);
    Exec1(Drop, st3);
    Exec2(Drop, FromAlt, st3);
  }

  lemma {:induction false} LimbBound(v: nat, n: nat)
    requires n <= 31 && v < Pow2(n)
    ensures v < 0x8000_0000
  {
    hide Pow2;
    PowerBound(30);
    Pow2Mono(n, 31);
    Pow2Succ(30);
  }

  // ---------- the whole program ----------

  /** Bits in target limb m of `top`. */
  function LimbSize(m: nat, top: nat, head: nat, t: nat): nat {
    if m == top then head else t
  }

  /** The complete target limbs from limb j up. */
  function Complete(j: nat, top: nat, t: nat, v: nat, r: Stack): Stack {
    if j > top then r else Stacked(top - j, Pow2(t), Hi(j, Pow2(t), v), r)
  }

  lemma {:induction false} HiIsField(j: nat, t: nat, v: nat)
    ensures j * t >= 0
    ensures Lo(Hi(j, Pow2(t), v), Pow2(t)) == Field(v, j * t, t)
    ensures Hi(j, Pow2(t), v) == Up(v, Pow2(j * t))
  {
    MulNonNeg(j, t);
    HiOfLimbs(j, t, v);
    HiIsUp(j * t, v);
  }

  lemma {:induction false} CompleteStep(m: nat, top: nat, head: nat, t: nat, v: nat, r: Stack)
    requires m <= top && v < Pow2(top * t + head) && top * t >= 0
    ensures m * t >= 0
    ensures Complete(m, top, t, v, r) == Cell(Field(v, m * t, LimbSize(m, top, head, t)), Complete(m + 1, top, t, v, r))
  {
    hide Lo;
    hide Up;
    hide Hi;
    hide Pow2;
    HiIsField(m, t, v);
    var b := Pow2(t);
    if m < top {
      HiLast(m + 1, b, v);
    } else {
      Pow2Add(top * t, head);
      var p := Pow2(top * t);
      Split(v, p);
      BelowProduct(v, Up(v, p), Lo(v, p), p, Pow2(head));
      UpNonNeg(v, p);
      SplitUnique(Up(v, p), Pow2(head), 0, Up(v, p));
    }
  }

  lemma {:induction false} NextSourceLimb(k: nat, s: nat, v: nat, alt: Stack)
    requires k > 0
    ensures (k - 1) * s >= 0
    ensures PushAll(Low(k, Pow2(s), v), alt) == Cell(Field(v, (k - 1) * s, s), PushAll(Low(k - 1, Pow2(s), v), alt))
  {
    hide Low;
    hide Hi;
    hide Lo;
    hide Pow2;
    HiIsField(k - 1, s, v);
    HiLast(k, Pow2(s), v);
    PushLast(Low(k - 1, Pow2(s), v), Field(v, (k - 1) * s, s), alt);
  }

  /** The state before the remaining steps. */
  function AtStep(v: nat, cur: nat, k: nat, rem: nat, m: nat, first: bool, s: nat, t: nat, top: nat, head: nat,
                  r: Stack, alt: Stack): State
    requires rem <= LimbSize(m, top, head, t)
  {
    MulNonNeg(k, s);
    var above := Complete(m + 1, top, t, v, r);
    var done := LimbSize(m, top, head, t) - rem;
    Running(Cell(Field(v, k * s, cur), if first then above else Cell(Field(v, k * s + cur, done), above)),
            PushAll(Low(k, Pow2(s), v), alt))
  }

  predicate Consistent(v: nat, cur: nat, k: nat, rem: nat, m: nat, first: bool, s: nat, t: nat, top: nat, head: nat) {
    0 < cur <= s <= 31 && 0 < rem <= LimbSize(m, top, head, t) <= 31 && 0 < head <= t <= 31 && m <= top &&
    cur + k * s == rem + m * t && (first ==> rem == LimbSize(m, top, head, t)) &&
    top * t >= 0 && v < Pow2(top * t + head)
  }

  lemma {:induction false} EmitFirst(x: TransformStep, rest: seq<TransformStep>, st: State)
    requires x.window <= x.remaining && forall y :: y in rest ==> y.window <= y.remaining
    ensures forall y :: y in [x] + rest ==> y.window <= y.remaining
    ensures Exec(EmitSteps([x] + rest), st) == Exec(EmitSteps(rest), Exec(StepScript(x, rest == []), st))
  {
    hide Exec;
    hide StepScript;
    assert ([x] + rest)[1..] == rest;
    ExecAppend(StepScript(x, rest == []), EmitSteps(rest), st);
  }

  /** Running the remaining steps completes all target limbs and uses up the source. */
  lemma {:induction false} TransformRun(v: nat, cur: nat, k: nat, rem: nat, m: nat, first: bool, s: nat, t: nat,
                                        top: nat, head: nat, r: Stack, alt: Stack)
    requires Consistent(v, cur, k, rem, m, first, s, t, top, head)
    ensures forall x :: x in Steps(cur, k, rem, m, first, s, t) ==> x.window <= x.remaining
    ensures Exec(EmitSteps(Steps(cur, k, rem, m, first, s, t)), AtStep(v, cur, k, rem, m, first, s, t, top, head, r, alt)) ==
            Running(Complete(0, top, t, v, r), alt)
    decreases k + m
  {
    hide *;
    ConsistentFacts(v, cur, k, rem, m, first, s, t, top, head);
    Balance(cur, k, rem, m, s, t);
    StepsWellFormed(cur, k, rem, m, first, s, t);
    if cur < rem {
      RunLess(v, cur, k, rem, m, first, s, t, top, head, r, alt);
      TransformRun(v, s, k - 1, rem - cur, m, false, s, t, top, head, r, alt);
      EmitLess(cur, k, rem, m, first, s, t, AtStep(v, cur, k, rem, m, first, s, t, top, head, r, alt));
    } else if cur == rem && k == 0 {
      RunLast(v, cur, rem, first, s, t, top, head, r, alt);
      EmitLast(cur, first, s, t, AtStep(v, cur, k, rem, m, first, s, t, top, head, r, alt));
    } else if cur == rem {
      RunEqual(v, cur, k, rem, m, first, s, t, top, head, r, alt);
      TransformRun(v, s, k - 1, t, m - 1, true, s, t, top, head, r, alt);
      EmitEqual(cur, k, rem, m, first, s, t, AtStep(v, cur, k, rem, m, first, s, t, top, head, r, alt));
    } else {
      RunGreater(v, cur, k, rem, m, first, s, t, top, head, r, alt);
      TransformRun(v, cur - rem, k, t, m - 1, true, s, t, top, head, r, alt);
      EmitGreater(cur, k, rem, m, first, s, t, AtStep(v, cur, k, rem, m, first, s, t, top, head, r, alt));
    }
  }

  /** The emitted program begins with the script of its first step. */
  lemma {:induction false} EmitLess(cur: nat, k: nat, rem: nat, m: nat, first: bool, s: nat, t: nat, st: State)
    requires cur > 0 && rem > 0 && s > 0 && t > 0 && cur + k * s == rem + m * t && cur < rem
    ensures k > 0 && s + (k - 1) * s == rem - cur + m * t
    ensures forall x :: x in Steps(cur, k, rem, m, first, s, t) ==> x.window <= x.remaining
    ensures forall x :: x in Steps(s, k - 1, rem - cur, m, false, s, t) ==> x.window <= x.remaining
    ensures Exec(EmitSteps(Steps(cur, k, rem, m, first, s, t)), st) ==
            Exec(EmitSteps(Steps(s, k - 1, rem - cur, m, false, s, t)), Exec(StepScript(TransformStep(cur, cur, true, first), false), st))
  {
    hide Exec;
    hide StepScript;
    hide EmitSteps;
    Balance(cur, k, rem, m, s, t);
    StepsWellFormed(s, k - 1, rem - cur, m, false, s, t);
    StepCounts(s, k - 1, rem - cur, m, false, s, t);
    EmitFirst(TransformStep(cur, cur, true, first), Steps(s, k - 1, rem - cur, m, false, s, t), st);
  }

  lemma {:induction false} EmitEqual(cur: nat, k: nat, rem: nat, m: nat, first: bool, s: nat, t: nat, st: State)
    requires cur > 0 && rem > 0 && s > 0 && t > 0 && cur + k * s == rem + m * t && cur == rem && k > 0
    ensures m > 0 && s + (k - 1) * s == t + (m - 1) * t
    ensures forall x :: x in Steps(cur, k, rem, m, first, s, t) ==> x.window <= x.remaining
    ensures forall x :: x in Steps(s, k - 1, t, m - 1, true, s, t) ==> x.window <= x.remaining
    ensures Exec(EmitSteps(Steps(cur, k, rem, m, first, s, t)), st) ==
            Exec(EmitSteps(Steps(s, k - 1, t, m - 1, true, s, t)), Exec(StepScript(TransformStep(cur, rem, true, first), false), st))
  {
    hide Exec;
    hide StepScript;
    hide EmitSteps;
    Balance(cur, k, rem, m, s, t);
    StepsWellFormed(s, k - 1, t, m - 1, true, s, t);
    StepCounts(s, k - 1, t, m - 1, true, s, t);
    EmitFirst(TransformStep(cur, rem, true, first), Steps(s, k - 1, t, m - 1, true, s, t), st);
  }

  lemma {:induction false} EmitGreater(cur: nat, k: nat, rem: nat, m: nat, first: bool, s: nat, t: nat, st: State)
    requires cur > 0 && rem > 0 && s > 0 && t > 0 && cur + k * s == rem + m * t && cur > rem
    ensures m > 0 && cur - rem + k * s == t + (m - 1) * t
    ensures forall x :: x in Steps(cur, k, rem, m, first, s, t) ==> x.window <= x.remaining
    ensures forall x :: x in Steps(cur - rem, k, t, m - 1, true, s, t) ==> x.window <= x.remaining
    ensures Exec(EmitSteps(Steps(cur, k, rem, m, first, s, t)), st) ==
            Exec(EmitSteps(Steps(cur - rem, k, t, m - 1, true, s, t)), Exec(StepScript(TransformStep(cur, rem, false, first), false), st))
  {
    hide Exec;
    hide StepScript;
    hide EmitSteps;
    Balance(cur, k, rem, m, s, t);
    StepsWellFormed(cur - rem, k, t, m - 1, true, s, t);
    StepCounts(cur - rem, k, t, m - 1, true, s, t);
    EmitFirst(TransformStep(cur, rem, false, first), Steps(cur - rem, k, t, m - 1, true, s, t), st);
  }

  lemma {:induction false} EmitLast(cur: nat, first: bool, s: nat, t: nat, st: State)
    requires cur > 0 && s > 0 && t > 0
    ensures cur + 0 * s == cur + 0 * t
    ensures forall x :: x in Steps(cur, 0, cur, 0, first, s, t) ==> x.window <= x.remaining
    ensures Exec(EmitSteps(Steps(cur, 0, cur, 0, first, s, t)), st) ==
            Exec(StepScript(TransformStep(cur, cur, true, first), true), st)
  {
    hide Exec;
    hide StepScript;
    var x := TransformStep(cur, cur, true, first);
    EmitFirst(x, [], st);
    assert [x] + [] == Steps(cur, 0, cur, 0, first, s, t);
    Exec0(Exec(StepScript(x, true), st));
  }

  lemma {:induction false} ConsistentFacts(v: nat, cur: nat, k: nat, rem: nat, m: nat, first: bool, s: nat, t: nat,
                                           top: nat, head: nat)
    requires Consistent(v, cur, k, rem, m, first, s, t, top, head)
    ensures 0 < cur <= s && 0 < rem <= LimbSize(m, top, head, t) && 0 < t && cur + k * s == rem + m * t
  {
  }

  lemma {:induction false} RunLess(v: nat, cur: nat, k: nat, rem: nat, m: nat, first: bool, s: nat, t: nat,
                                   top: nat, head: nat, r: Stack, alt: Stack)
    requires Consistent(v, cur, k, rem, m, first, s, t, top, head) && cur < rem && k > 0
    ensures Consistent(v, s, k - 1, rem - cur, m, false, s, t, top, head)
    ensures Exec(StepScript(TransformStep(cur, cur, true, first), false), AtStep(v, cur, k, rem, m, first, s, t, top, head, r, alt)) ==
            AtStep(v, s, k - 1, rem - cur, m, false, s, t, top, head, r, alt)
  {
    hide Exec;
    hide StepScript;
    hide Field;
    hide Complete;
    hide Low;
    hide PushAll;
    hide Pow2;
    Balance(cur, k, rem, m, s, t);
    MulNonNeg(k, s);
    SplitProduct(k, s);
    NextSourceLimb(k, s, v, alt);
    var done := LimbSize(m, top, head, t) - rem;
    StepRun(v, TransformStep(cur, cur, true, first), k * s, done, false, Field(v, (k - 1) * s, s),
            Complete(m + 1, top, t, v, r), PushAll(Low(k - 1, Pow2(s), v), alt));
  }

  lemma {:induction false} RunEqual(v: nat, cur: nat, k: nat, rem: nat, m: nat, first: bool, s: nat, t: nat,
                                    top: nat, head: nat, r: Stack, alt: Stack)
    requires Consistent(v, cur, k, rem, m, first, s, t, top, head) && cur == rem && k > 0 && m > 0
    ensures Consistent(v, s, k - 1, t, m - 1, true, s, t, top, head)
    ensures t <= LimbSize(m - 1, top, head, t)
    ensures Exec(StepScript(TransformStep(cur, rem, true, first), false), AtStep(v, cur, k, rem, m, first, s, t, top, head, r, alt)) ==
            AtStep(v, s, k - 1, t, m - 1, true, s, t, top, head, r, alt)
  {
    hide Exec;
    hide StepScript;
    hide Field;
    hide Complete;
    hide Low;
    hide PushAll;
    hide Pow2;
    Balance(cur, k, rem, m, s, t);
    MulNonNeg(k, s);
    NextSourceLimb(k, s, v, alt);
    CompleteStep(m, top, head, t, v, r);
    var done := LimbSize(m, top, head, t) - rem;
    StepRun(v, TransformStep(cur, rem, true, first), k * s, done, false, Field(v, (k - 1) * s, s),
            Complete(m + 1, top, t, v, r), PushAll(Low(k - 1, Pow2(s), v), alt));
  }

  lemma {:induction false} RunLast(v: nat, cur: nat, rem: nat, first: bool, s: nat, t: nat,
                                   top: nat, head: nat, r: Stack, alt: Stack)
    requires Consistent(v, cur, 0, rem, 0, first, s, t, top, head) && cur == rem
    ensures Exec(StepScript(TransformStep(cur, rem, true, first), true), AtStep(v, cur, 0, rem, 0, first, s, t, top, head, r, alt)) ==
            Running(Complete(0, top, t, v, r), alt)
  {
    hide Exec;
    hide StepScript;
    hide Field;
    hide Complete;
    hide Pow2;
    CompleteStep(0, top, head, t, v, r);
    assert Low(0, Pow2(s), v) == [] && PushAll([], alt) == alt;
    var done := LimbSize(0, top, head, t) - rem;
    StepRun(v, TransformStep(cur, rem, true, first), 0, done, true, 0, Complete(1, top, t, v, r), alt);
  }

  lemma {:induction false} RunGreater(v: nat, cur: nat, k: nat, rem: nat, m: nat, first: bool, s: nat, t: nat,
                                      top: nat, head: nat, r: Stack, alt: Stack)
    requires Consistent(v, cur, k, rem, m, first, s, t, top, head) && cur > rem && m > 0
    ensures Consistent(v, cur - rem, k, t, m - 1, true, s, t, top, head)
    ensures t <= LimbSize(m - 1, top, head, t)
    ensures Exec(StepScript(TransformStep(cur, rem, false, first), false), AtStep(v, cur, k, rem, m, first, s, t, top, head, r, alt)) ==
            AtStep(v, cur - rem, k, t, m - 1, true, s, t, top, head, r, alt)
  {
    hide Exec;
    hide Field;
    hide Complete;
    hide Low;
    hide PushAll;
    hide Pow2;
    hide ExtractDigits;
    hide Repeat;
    Balance(cur, k, rem, m, s, t);
    MulNonNeg(k, s);
    CompleteStep(m, top, head, t, v, r);
    var done := LimbSize(m, top, head, t) - rem;
    var x := TransformStep(cur, rem, false, first);
    assert StepScript(x, false) == StepScript(x, true);
    StepRun(v, x, k * s, done, true, 0, Complete(m + 1, top, t, v, r), PushAll(Low(k, Pow2(s), v), alt));
  }

  /** `transform_limbsize` leaves the same number in limbs of the new size, for all sizes from 1 to 31. */
  lemma {:induction false} TransformCorrect(n: nat, s: nat, t: nat, v: nat, r: Stack, alt: Stack)
    requires 0 < s < 32 && 0 < t < 32 && 32 <= n && v < Pow2(n)
    ensures Exec(TransformLimbsize(n, s, t), Running(On(Width(n, s), v, r), alt)) == Running(On(Width(n, t), v, r), alt)
  {
    hide Exec;
    hide Prepend;
    hide PushAll;
    hide Low;
    hide Hi;
    hide Field;
    hide Pow2;
    hide EmitSteps;
    hide Steps;
    hide Stacked;
    hide NLimbs;
    hide Head;
    hide Repeat;
    var from, to := Width(n, s), Width(n, t);
    var st := Running(On(from, v, r), alt);
    if s == t {
      Exec0(st);
    } else {
      var k, m := NLimbs(from) - 1, NLimbs(to) - 1;
      var cur, head := Head(from), Head(to);
      MulNonNeg(k, s);
      MulNonNeg(m, t);
      StepsWellFormed(cur, k, head, m, true, s, t);
      ExecAppend(Repeat([ToAlt], k), EmitSteps(AllSteps(n, s, t)), st);
      PrependLast(Low(k, Pow2(s), v), Hi(k, Pow2(s), v), r);
      ToAltAll(Low(k, Pow2(s), v), Cell(Hi(k, Pow2(s), v), r), alt);
      HeadIsField(k, s, cur, v);
      assert AtStep(v, cur, k, head, m, true, s, t, m, head, r, alt) ==
             Running(Cell(Hi(k, Pow2(s), v), r), PushAll(Low(k, Pow2(s), v), alt));
      TransformRun(v, cur, k, head, m, true, s, t, m, head, r, alt);
      DigitsAreStacked(m, Pow2(t), v, r);
      NoLimbs(Pow2(t), v);
    }
  }

  lemma {:induction false} HeadIsField(k: nat, s: nat, head: nat, v: nat)
    requires k * s >= 0 && v < Pow2(k * s + head)
    ensures Field(v, k * s, head) == Hi(k, Pow2(s), v)
  {
    hide Lo;
    hide Up;
    hide Hi;
    hide Pow2;
    HiIsField(k, s, v);
    Pow2Add(k * s, head);
    var p := Pow2(k * s);
    Split(v, p);
    BelowProduct(v, Up(v, p), Lo(v, p), p, Pow2(head));
    UpNonNeg(v, p);
    SplitUnique(Up(v, p), Pow2(head), 0, Up(v, p));
  }
}
