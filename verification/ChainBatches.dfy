/** Cutting a list of blocks into two calls of `apply_blocks` (header-chain/src/header_chain.rs): the second call goes on with
    the compact form of the target, the uncut one with the target itself. */
module ChainBatches {
  import opened Arithmetic
  import opened Wrappers
  import opened Hashing
  import opened CompactTarget
  import opened MedianTime
  import opened MmrSpec
  import opened HeaderChain
  import opened ChainRuns

  /** What a batch leaves in its locals. */
  lemma {:induction false} LoopLocals(net: Network, sha: Sha, st: State, hs: seq<Header>)
    requires RunLoop(net, sha, Start(net, st), hs).Some?
    ensures var l := RunLoop(net, sha, Start(net, st), hs).value;
            (net.Regtest? ==> l.target == MaxTarget(net)) &&
            (!net.Regtest? ==> BitsToTarget(l.st.bits) <= l.target) &&
            (!net.Testnet4? ==> l.lastTime == 0) &&
            (hs == [] ==> l == Start(net, st)) &&
            (net.Testnet4? && hs != [] ==> l.lastTime == l.st.times[l.st.height % 11])
  {
    if hs != [] {
      var n := |hs| - 1;
      LoopLocals(net, sha, st, hs[..n]);
      StepTarget(net, sha, RunLoop(net, sha, Start(net, st), hs[..n]).value, hs[n]);
    }
  }

  /** The block that the loop reaches k steps after st closes an epoch. */
  predicate ClosesEpoch(st: State, k: nat) {
    Wrap32(st.height + k) % BLOCKS_PER_EPOCH == BLOCKS_PER_EPOCH - 1
  }

  /** Blocks that do not close an epoch leave the target alone. */
  lemma {:induction false} NoRetargetKeepsTarget(net: Network, sha: Sha, l: Loop, hs: seq<Header>)
    requires RunLoop(net, sha, l, hs).Some?
    requires net.Regtest? || forall k :: 0 < k <= |hs| ==> !ClosesEpoch(l.st, k)
    ensures var l' := RunLoop(net, sha, l, hs).value; l'.target == l.target && l'.st.bits == l.st.bits
  {
    hide ApplyOne;
    hide NextHeight;
    hide Choose;
    hide Merge;
    hide ValidateTimestamp;
    if hs != [] {
      var n := |hs| - 1;
      NoRetargetKeepsTarget(net, sha, l, hs[..n]);
      var before := RunLoop(net, sha, l, hs[..n]).value;
      StepTarget(net, sha, before, hs[n]);
      StepFields(net, sha, before, hs[n]);
      RunHeight(net, sha, l, hs);
      assert net.Regtest? || !ClosesEpoch(l.st, |hs|);
    }
  }

  // ---------- two loops that differ in the target ----------

  /** No block among the next n closes an epoch. */
  predicate Fresh(net: Network, st: State, n: nat) {
    net.Regtest? || forall k :: 0 < k <= n ==> !ClosesEpoch(st, k)
  }

  /** The block is checked against the loop's own target, not against testnet4's minimum difficulty. */
  predicate UsesTarget(net: Network, l: Loop, h: Header) {
    !(net.Testnet4? && h.time > (l.lastTime + 1200) % U32_MODULUS && NextHeight(l.st) % BLOCKS_PER_EPOCH != 0)
  }

  /** Block i of ys is checked against the target that the loop l began with. */
  predicate CarriesTarget(net: Network, sha: Sha, l: Loop, ys: seq<Header>, i: nat)
    requires i < |ys|
  {
    match RunLoop(net, sha, l, ys[..i])
    case None => false
    case Some(m) => Fresh(net, l.st, i) && UsesTarget(net, m, ys[i])
  }

  /** How many blocks are. */
  function Carried(net: Network, sha: Sha, l: Loop, ys: seq<Header>): nat {
    if ys == [] then 0
    else Carried(net, sha, l, ys[..|ys| - 1]) + (if CarriesTarget(net, sha, l, ys, |ys| - 1) then 1 else 0)
  }

  /** All of them meet the target t as well. */
  predicate AllMeet(net: Network, sha: Sha, l: Loop, ys: seq<Header>, t: nat) {
    forall i: nat :: i < |ys| && CarriesTarget(net, sha, l, ys, i) ==> LeValue(BlockHash(sha, ys[i])) <= t
  }

  /** The same fields but for the work. The last block time may differ where the next block opens an epoch and ignores it. */
  predicate Twins(net: Network, a: Loop, b: Loop) {
    b.st == a.st.(work := b.st.work) && b.target <= a.target &&
    (net.Testnet4? ==> a.lastTime == b.lastTime || a.st.height == U32_MODULUS - 1)
  }

  lemma {:induction false} TwinChoice(net: Network, a: Loop, b: Loop, h: Header)
    requires Twins(net, a, b)
    ensures UsesTarget(net, a, h) == UsesTarget(net, b, h)
    ensures Choose(net, a, h).bits == Choose(net, b, h).bits
    ensures if UsesTarget(net, a, h)
            then Choose(net, a, h).target == a.target && Choose(net, a, h).work == CalculateWork(a.target) &&
                 Choose(net, b, h).target == b.target && Choose(net, b, h).work == CalculateWork(b.target)
            else Choose(net, a, h) == Choose(net, b, h)
  {
    hide CalculateWork;
  }

  /** One block: the second loop accepts it when the first does and the hash meets the second target. */
  lemma {:induction false} TwinStep(net: Network, sha: Sha, a: Loop, b: Loop, h: Header)
    requires Twins(net, a, b)
    ensures ApplyOne(net, sha, b, h).Some? <==>
            ApplyOne(net, sha, a, h).Some? && (UsesTarget(net, a, h) ==> LeValue(BlockHash(sha, h)) <= b.target)
    ensures ApplyOne(net, sha, b, h).Some? ==>
            var a', b' := ApplyOne(net, sha, a, h).value, ApplyOne(net, sha, b, h).value;
            Twins(net, a', b') &&
            (if !net.Regtest? && NextHeight(a.st) % BLOCKS_PER_EPOCH == BLOCKS_PER_EPOCH - 1 then a'.target == b'.target
             else a'.target == a.target && b'.target == b.target) &&
            a'.st.work == Wrap256(a.st.work + Choose(net, a, h).work) &&
            b'.st.work == Wrap256(b.st.work + Choose(net, b, h).work)
  {
    hide CalculateWork;
    hide NewDifficulty;
    hide TargetToBits;
    hide Merge;
    hide TrailingOnes;
    hide ValidateTimestamp;
    hide BlockHash;
    hide LeValue;
    hide Wrap256;
    TwinChoice(net, a, b, h);
    hide Choose;
  }

  // ---------- work modulo 2^256 ----------

  lemma {:induction false} SameResidue(x: nat, y: nat, k: nat)
    requires Wrap256(x) == Wrap256(y)
    ensures Wrap256(x + k) == Wrap256(y + k)
  {
    WrapAdd(x, k);
    WrapAdd(y, k);
  }

  lemma {:induction false} CancelResidue(k: nat, x: nat, y: nat)
    requires Wrap256(k + x) == Wrap256(k + y)
    ensures Wrap256(x) == Wrap256(y)
  {
    var q := (k + x) / U256_MODULUS - (k + y) / U256_MODULUS;
    assert x == y + q * U256_MODULUS;
    DivModUnique(x, U256_MODULUS, y / U256_MODULUS + q, y % U256_MODULUS);
  }

  /** The works of two loops that have both counted c blocks, each at its own rate. */
  predicate Balanced(a: nat, b: nat, c: nat, workA: nat, workB: nat) {
    MulNonNeg(c, workA);
    MulNonNeg(c, workB);
    Wrap256(b + c * workA) == Wrap256(a + c * workB)
  }

  lemma {:induction false} BalancedStep(a: nat, b: nat, c: nat, workA: nat, workB: nat, addA: nat, addB: nat, counts: bool)
    requires Balanced(a, b, c, workA, workB) && if counts then addA == workA && addB == workB else addA == addB
    ensures Balanced(Wrap256(a + addA), Wrap256(b + addB), c + (if counts then 1 else 0), workA, workB)
  {
    hide Wrap256;
    MulNonNeg(c, workA);
    MulNonNeg(c, workB);
    var c' := c + (if counts then 1 else 0);
    MulNonNeg(c', workA);
    MulNonNeg(c', workB);
    WrapAdd(b + addB, c' * workA);
    WrapAdd(a + addA, c' * workB);
    if counts {
      OneMore(c, workA);
      OneMore(c, workB);
      SameResidue(b + c * workA, a + c * workB, workA + workB);
    } else {
      SameResidue(b + c * workA, a + c * workB, addA);
    }
  }

  lemma {:induction false} OneMore(c: nat, w: nat)
    ensures (c + 1) * w == c * w + w
  {
  }

  /** Works that balance are equal exactly when the counted blocks weigh the same. */
  lemma {:induction false} BalancedEqual(a: nat, b: nat, c: nat, workA: nat, workB: nat)
    requires Balanced(a, b, c, workA, workB) && a < U256_MODULUS && b < U256_MODULUS
    ensures c * workA >= 0 && c * workB >= 0
    ensures a == b <==> Wrap256(c * workA) == Wrap256(c * workB)
  {
    hide Wrap256;
    MulNonNeg(c, workA);
    MulNonNeg(c, workB);
    Wrap256Small(a);
    Wrap256Small(b);
    if a == b { CancelResidue(a, c * workA, c * workB); }
    if Wrap256(c * workA) == Wrap256(c * workB) {
      SameResidue(c * workA, c * workB, a);
      CancelResidue(c * workA, b, a);
    }
  }

  // ---------- exact composition ----------

  /** What two loops make of the same blocks. */
  predicate TwinOutcome(net: Network, l: Loop, r: Loop, n: nat, c: nat, a: Loop, b: Loop) {
    Twins(net, a, b) &&
    (if Fresh(net, l.st, n) then a.target == l.target && b.target == r.target else a.target == b.target) &&
    Balanced(a.st.work, b.st.work, c, CalculateWork(l.target), CalculateWork(r.target)) &&
    (n > 0 ==> a.st.work < U256_MODULUS && b.st.work < U256_MODULUS)
  }

  lemma {:induction false} TwinTurn(net: Network, sha: Sha, l: Loop, r: Loop, n: nat, c: nat, a: Loop, b: Loop, h: Header)
    requires TwinOutcome(net, l, r, n, c, a, b) && a.st.height == Wrap32(l.st.height + n)
    ensures var carries := Fresh(net, l.st, n) && UsesTarget(net, a, h);
            (ApplyOne(net, sha, b, h).Some? <==>
             ApplyOne(net, sha, a, h).Some? && (carries ==> LeValue(BlockHash(sha, h)) <= r.target)) &&
            (ApplyOne(net, sha, b, h).Some? ==>
             TwinOutcome(net, l, r, n + 1, c + (if carries then 1 else 0), ApplyOne(net, sha, a, h).value, ApplyOne(net, sha, b, h).value))
  {
    hide ApplyOne;
    hide CalculateWork;
    hide Choose;
    hide Balanced;
    hide UsesTarget;
    hide BlockHash;
    hide LeValue;
    hide Wrap32;
    TwinStep(net, sha, a, b, h);
    TwinChoice(net, a, b, h);
    Wrap32Inc(l.st.height + n);
    assert !net.Regtest? ==> (NextHeight(a.st) % BLOCKS_PER_EPOCH == BLOCKS_PER_EPOCH - 1 <==> ClosesEpoch(l.st, n + 1));
    FreshNext(net, l.st, n);
    if ApplyOne(net, sha, a, h).Some? {
      if UsesTarget(net, a, h) && !Fresh(net, l.st, n) { MeetsTarget(net, sha, a, h); }
      if ApplyOne(net, sha, b, h).Some? {
        BalancedStep(a.st.work, b.st.work, c, CalculateWork(l.target), CalculateWork(r.target), Choose(net, a, h).work,
                     Choose(net, b, h).work, Fresh(net, l.st, n) && UsesTarget(net, a, h));
      }
    }
  }

  lemma {:induction false} FreshNext(net: Network, st: State, n: nat)
    ensures Fresh(net, st, n + 1) <==> Fresh(net, st, n) && (net.Regtest? || !ClosesEpoch(st, n + 1))
  {
    hide ClosesEpoch;
  }

  lemma {:induction false} MeetsTarget(net: Network, sha: Sha, l: Loop, h: Header)
    requires ApplyOne(net, sha, l, h).Some? && UsesTarget(net, l, h)
    ensures LeValue(BlockHash(sha, h)) <= l.target
  {
  }

  lemma {:induction false} MeetsPrefix(net: Network, sha: Sha, l: Loop, ys: seq<Header>, t: nat)
    requires ys != []
    ensures AllMeet(net, sha, l, ys, t) <==>
            AllMeet(net, sha, l, ys[..|ys| - 1], t) &&
            (CarriesTarget(net, sha, l, ys, |ys| - 1) ==> LeValue(BlockHash(sha, ys[|ys| - 1])) <= t)
  {
    hide RunLoop;
    hide LeValue;
    hide BlockHash;
    hide Fresh;
    hide UsesTarget;
    var n := |ys| - 1;
    var front := ys[..n];
    forall i: nat | i < n
      ensures CarriesTarget(net, sha, l, front, i) == CarriesTarget(net, sha, l, ys, i) && front[i] == ys[i]
    {
      assert front[..i] == ys[..i];
    }
    if AllMeet(net, sha, l, ys, t) {
      forall i: nat | i < n && CarriesTarget(net, sha, l, front, i) ensures LeValue(BlockHash(sha, front[i])) <= t {
        assert CarriesTarget(net, sha, l, ys, i);
      }
    }
  }

  /** The blocks ys in two loops that begin alike but for the target. */
  lemma {:induction false} TwinRun(net: Network, sha: Sha, l: Loop, r: Loop, ys: seq<Header>)
    requires Twins(net, l, r) && l.st == r.st
    ensures RunLoop(net, sha, r, ys).Some? <==> RunLoop(net, sha, l, ys).Some? && AllMeet(net, sha, l, ys, r.target)
    ensures RunLoop(net, sha, r, ys).Some? ==>
            TwinOutcome(net, l, r, |ys|, Carried(net, sha, l, ys), RunLoop(net, sha, l, ys).value, RunLoop(net, sha, r, ys).value)
    decreases |ys|
  {
    hide ApplyOne;
    hide TwinOutcome;
    hide AllMeet;
    hide Fresh;
    hide UsesTarget;
    hide BlockHash;
    hide LeValue;
    if ys == [] {
      TwinsAtStart(net, l, r);
      NothingToMeet(net, sha, l, r.target);
    } else {
      var n := |ys| - 1;
      TwinRun(net, sha, l, r, ys[..n]);
      MeetsPrefix(net, sha, l, ys, r.target);
      if RunLoop(net, sha, r, ys[..n]).Some? {
        var a, b := RunLoop(net, sha, l, ys[..n]).value, RunLoop(net, sha, r, ys[..n]).value;
        RunHeight(net, sha, l, ys[..n]);
        TwinTurn(net, sha, l, r, n, Carried(net, sha, l, ys[..n]), a, b, ys[n]);
      }
    }
  }

  lemma {:induction false} TwinsAtStart(net: Network, l: Loop, r: Loop)
    requires Twins(net, l, r) && l.st == r.st
    ensures TwinOutcome(net, l, r, 0, 0, l, r)
  {
    hide CalculateWork;
  }

  lemma {:induction false} NothingToMeet(net: Network, sha: Sha, l: Loop, t: nat)
    ensures AllMeet(net, sha, l, [], t)
  {
  }

  lemma {:induction false} ResumedIsTwin(net: Network, sha: Sha, st: State, xs: seq<Header>)
    requires RunLoop(net, sha, Start(net, st), xs).Some?
    ensures var l := RunLoop(net, sha, Start(net, st), xs).value; Twins(net, l, Start(net, l.st)) && Start(net, l.st).st == l.st
  {
    LoopLocals(net, sha, st, xs);
  }

  lemma {:induction false} NothingCarried(net: Network, sha: Sha, l: Loop, r: Loop)
    requires l.st == r.st
    ensures Carried(net, sha, l, []) == 0 && RunLoop(net, sha, l, []) == Some(l) && RunLoop(net, sha, r, []) == Some(r)
  {
  }

  lemma {:induction false} OutcomesEqual(net: Network, l: Loop, r: Loop, n: nat, c: nat, a: Loop, b: Loop)
    requires TwinOutcome(net, l, r, n, c, a, b)
    ensures var w, w' := CalculateWork(l.target), CalculateWork(r.target);
            c * w >= 0 && c * w' >= 0 && (n > 0 ==> (a.st == b.st <==> Wrap256(c * w) == Wrap256(c * w')))
  {
    hide CalculateWork;
    hide Fresh;
    hide Balanced;
    var w, w' := CalculateWork(l.target), CalculateWork(r.target);
    MulNonNeg(c, w);
    MulNonNeg(c, w');
    if n > 0 { BalancedEqual(a.st.work, b.st.work, c, w, w'); }
  }

  function Fields(run: Option<Loop>): Option<State> {
    match run
    case None => None
    case Some(l) => Some(l.st)
  }

  /** The carried blocks meet the other target and weigh the same by it. */
  predicate Interchangeable(net: Network, sha: Sha, l: Loop, ys: seq<Header>, target: nat) {
    var c, w, w' := Carried(net, sha, l, ys), CalculateWork(l.target), CalculateWork(target);
    MulNonNeg(c, w);
    MulNonNeg(c, w');
    AllMeet(net, sha, l, ys, target) && Wrap256(c * w) == Wrap256(c * w')
  }

  lemma {:induction false} TwinsEnd(net: Network, sha: Sha, l: Loop, r: Loop, ys: seq<Header>)
    requires Twins(net, l, r) && l.st == r.st
    ensures Fields(RunLoop(net, sha, l, ys)) == Fields(RunLoop(net, sha, r, ys)) <==>
            (RunLoop(net, sha, l, ys).None? || Interchangeable(net, sha, l, ys, r.target))
  {
    TwinRun(net, sha, l, r, ys);
    if ys == [] {
      NothingCarried(net, sha, l, r);
      NothingToMeet(net, sha, l, r.target);
    }
    hide RunLoop;
    hide AllMeet;
    hide Carried;
    hide CalculateWork;
    if ys != [] && RunLoop(net, sha, r, ys).Some? {
      OutcomesEqual(net, l, r, |ys|, Carried(net, sha, l, ys), RunLoop(net, sha, l, ys).value, RunLoop(net, sha, r, ys).value);
    }
  }

  /** Cutting an accepted list xs off a longer list changes nothing exactly when the rest fails anyway, or every block that the
      uncut loop checks against the target it had after xs also meets the compact form of that target, and the work of these
      blocks is the same by either target, modulo 2^256. */
  lemma {:induction false} CompositionExact(net: Network, sha: Sha, st: State, xs: seq<Header>, ys: seq<Header>)
    requires RunLoop(net, sha, Start(net, st), xs).Some?
    ensures var l := RunLoop(net, sha, Start(net, st), xs).value;
            ApplyBlocks(net, sha, st, xs + ys) == ApplyBlocks(net, sha, l.st, ys) <==>
            (RunLoop(net, sha, l, ys).None? || Interchangeable(net, sha, l, ys, Start(net, l.st).target))
  {
    RunSplit(net, sha, Start(net, st), xs, ys);
    ResumedIsTwin(net, sha, st, xs);
    hide RunLoop;
    hide Start;
    hide Interchangeable;
    var l := RunLoop(net, sha, Start(net, st), xs).value;
    TwinsEnd(net, sha, l, Start(net, l.st), ys);
  }

  /** In particular when the target survives its compact form, whatever follows. */
  lemma {:induction false} BatchComposition(net: Network, sha: Sha, st: State, xs: seq<Header>, ys: seq<Header>)
    requires match RunLoop(net, sha, Start(net, st), xs) case None => true case Some(l) => Start(net, l.st).target == l.target
    ensures ApplyBlocks(net, sha, st, xs + ys) ==
            match ApplyBlocks(net, sha, st, xs) case None => None case Some(mid) => ApplyBlocks(net, sha, mid, ys)
  {
    RunSplit(net, sha, Start(net, st), xs, ys);
    match RunLoop(net, sha, Start(net, st), xs)
    case None =>
    case Some(l) =>
      CompositionExact(net, sha, st, xs, ys);
      if RunLoop(net, sha, l, ys).Some? { CarriedMeet(net, sha, l, ys); }
  }

  lemma {:induction false} CarriedMeet(net: Network, sha: Sha, l: Loop, ys: seq<Header>)
    requires RunLoop(net, sha, l, ys).Some?
    ensures AllMeet(net, sha, l, ys, l.target)
  {
    hide AllMeet;
    TwinRun(net, sha, l, l, ys);
  }

  /** A single block after the cut. */
  lemma {:induction false} NextBlockExact(net: Network, sha: Sha, st: State, xs: seq<Header>, h: Header)
    requires RunLoop(net, sha, Start(net, st), xs).Some?
    ensures var l := RunLoop(net, sha, Start(net, st), xs).value;
            var t' := Start(net, l.st).target;
            ApplyBlocks(net, sha, st, xs + [h]) == ApplyBlocks(net, sha, l.st, [h]) <==>
            (ApplyOne(net, sha, l, h).None? || !UsesTarget(net, l, h) ||
             (LeValue(BlockHash(sha, h)) <= t' && CalculateWork(l.target) == CalculateWork(t')))
  {
    var l := RunLoop(net, sha, Start(net, st), xs).value;
    var t' := Start(net, l.st).target;
    CompositionExact(net, sha, st, xs, [h]);
    OneBlock(net, sha, l, h);
    OneCarried(net, sha, l, h, t');
    WorkIsResidue(l.target);
    WorkIsResidue(t');
  }

  lemma {:induction false} OneCarried(net: Network, sha: Sha, l: Loop, h: Header, t: nat)
    ensures Carried(net, sha, l, [h]) == if UsesTarget(net, l, h) then 1 else 0
    ensures AllMeet(net, sha, l, [h], t) <==> (UsesTarget(net, l, h) ==> LeValue(BlockHash(sha, h)) <= t)
  {
    hide LeValue;
    hide BlockHash;
    hide UsesTarget;
    assert [h][..0] == [];
    assert RunLoop(net, sha, l, []) == Some(l);
    hide RunLoop;
    assert CarriesTarget(net, sha, l, [h], 0) == UsesTarget(net, l, h);
    assert Carried(net, sha, l, []) == 0;
  }

  lemma {:induction false} WorkIsResidue(target: nat)
    ensures Wrap256(CalculateWork(target)) == CalculateWork(target) < U256_MODULUS
  {
    var d := Saturated(target + 1);
    var q := (U256_MODULUS - 1) / d;
    assert q <= U256_MODULUS - 1 by { MulMono(1, d, q); }
    Wrap256Small(q);
  }

  lemma {:induction false} OneBlock(net: Network, sha: Sha, l: Loop, h: Header)
    ensures RunLoop(net, sha, l, [h]) == ApplyOne(net, sha, l, h)
  {
    assert [h][..0] == [];
    assert RunLoop(net, sha, l, []) == Some(l);
  }

  /** Always on regtest, and when xs closes no epoch after a state whose own target is compact. */
  lemma {:induction false} NoRetargetComposes(net: Network, sha: Sha, st: State, xs: seq<Header>, ys: seq<Header>)
    requires Fresh(net, st, |xs|)
    ensures ApplyBlocks(net, sha, st, xs + ys) ==
            match ApplyBlocks(net, sha, st, xs) case None => None case Some(mid) => ApplyBlocks(net, sha, mid, ys)
  {
    if RunLoop(net, sha, Start(net, st), xs).Some? {
      NoRetargetKeepsTarget(net, sha, Start(net, st), xs);
      hide RunLoop;
    }
    BatchComposition(net, sha, st, xs, ys);
  }
}
