/** The rules of the header chain read off the headers alone, without the state that header-chain/src/header_chain.rs keeps: the
    headers that `apply_blocks` accepts from the initial state are exactly those, and its fields are what the headers say. */
module ChainRules {
  import opened Arithmetic
  import opened Wrappers
  import opened Hashing
  import opened CompactTarget
  import opened MedianTime
  import opened MmrSpec
  import opened HeaderChain
  import opened ChainRuns

  function TipOf(sha: Sha, hs: seq<Header>): Digest {
    if hs == [] then ZeroDigest() else sha(sha(Serialized(hs[|hs| - 1])))
  }

  /** The time of the k-th latest header; zero stands for those before the first. */
  function RecentTime(hs: seq<Header>, k: nat): nat {
    if k < |hs| then hs[|hs| - 1 - k].time else 0
  }

  /** The last eleven timestamps, the latest first. */
  function LastEleven(hs: seq<Header>): (r: Ring) {
    seq(11, k requires 0 <= k < 11 => RecentTime(hs, k))
  }

  /** The block after these opens an epoch other than the first. */
  predicate NewEpoch(net: Network, hs: seq<Header>) {
    !net.Regtest? && |hs| > 0 && |hs| % 2016 == 0
  }

  /** The old target scaled by the timespan of the epoch, a 32-bit difference clamped to a quarter and four times two weeks. */
  function Rescaled(net: Network, old': nat, first: U32, last: U32): (r: nat)
    ensures r <= MaxTarget(net)
  {
    var span := Clamp((last - first) % 0x1_0000_0000, 302400, 4838400);
    MulNonNeg(old', span);
    Min(MaxTarget(net), old' * span / 1209600)
  }

  function Compact(target: nat): U32
    requires target < U256_MODULUS
  {
    match TargetToBits(target)
    case None => 0
    case Some(bits) => CompactFits(target); bits
  }

  /** The compact target that the next block is due. */
  function DueBits(net: Network, hs: seq<Header>): U32
    decreases |hs|, 1
  {
    if NewEpoch(net, hs) then Compact(DueTarget(net, hs))
    else if hs == [] then MaxBits(net) else DueBits(net, hs[..|hs| - 1])
  }

  /** Its target: after a whole epoch, the one due before its last block, rescaled by the first and last times of the epoch. */
  function DueTarget(net: Network, hs: seq<Header>): (r: nat)
    ensures r <= MaxTarget(net) < U256_MODULUS - 1
    decreases |hs|, 0
  {
    if NewEpoch(net, hs) then
      Rescaled(net, BitsToTarget(DueBits(net, hs[..|hs| - 1])), hs[|hs| - 2016].time, hs[|hs| - 1].time)
    else if hs == [] then MaxTarget(net) else DueTarget(net, hs[..|hs| - 1])
  }

  /** On testnet4 a block that opens no epoch and is dated more than 20 minutes after its predecessor. */
  predicate Late(net: Network, hs: seq<Header>, h: Header) {
    net.Testnet4? && |hs| % 2016 != 0 && h.time > (hs[|hs| - 1].time + 1200) % 0x1_0000_0000
  }

  /** The next block links, carries the compact target due, meets the target due, and is later than the median of the last eleven;
      and if it closes an epoch, the encoder does not panic on the target that follows. */
  predicate ValidNext(net: Network, sha: Sha, hs: seq<Header>, h: Header) {
    h.prevBlockHash == TipOf(sha, hs) &&
    h.bits == (if Late(net, hs, h) then MaxBits(net) else DueBits(net, hs)) &&
    LeValue(sha(sha(Serialized(h)))) <= (if Late(net, hs, h) then MaxTarget(net) else DueTarget(net, hs)) &&
    h.time > Median(LastEleven(hs)) &&
    (NewEpoch(net, hs + [h]) ==> DueTarget(net, hs + [h]) >= 0x8000)
  }

  function WorkOf(net: Network, hs: seq<Header>, h: Header): nat {
    if Late(net, hs, h) then 0x1_0001_0001
    else
      DivNonNeg(U256_MODULUS - 1, DueTarget(net, hs) + 1);
      (U256_MODULUS - 1) / (DueTarget(net, hs) + 1)
  }

  function WorkSum(net: Network, hs: seq<Header>): nat {
    if hs == [] then 0 else WorkSum(net, hs[..|hs| - 1]) + WorkOf(net, hs[..|hs| - 1], hs[|hs| - 1])
  }

  /** The time of the first block of the epoch of the latest one. */
  function EpochStart(net: Network, hs: seq<Header>): nat {
    if net.Regtest? || hs == [] then 0 else hs[(|hs| - 1) / 2016 * 2016].time
  }

  // ---------- what the state holds ----------

  /** The fields that the headers determine. */
  ghost predicate Described(net: Network, sha: Sha, hs: seq<Header>, st: State) {
    st.height == (if hs == [] then U32_MAX else |hs| - 1) && st.best == TipOf(sha, hs) && st.bits == DueBits(net, hs) &&
    st.work == WorkSum(net, hs) % U256_MODULUS && st.epochStart == EpochStart(net, hs) &&
    st.subroots == Peaks(sha, Hashes(sha, hs)) && st.size == |hs| && Recent(hs, st.times)
  }

  /** The ring is the list of the last eleven timestamps, turned, and holds as many above any bound. */
  ghost predicate Recent(hs: seq<Header>, times: Ring) {
    (forall j: nat :: j < 11 ==> times[j] == LastEleven(hs)[(|hs| + 10 - j) % 11]) &&
    (forall v: nat :: Above(times, v) == Above(LastEleven(hs), v))
  }

  /** And the locals of the loop. */
  ghost predicate DescribedLoop(net: Network, sha: Sha, hs: seq<Header>, l: Loop) {
    Described(net, sha, hs, l.st) && l.target == DueTarget(net, hs) && BitsToTarget(l.st.bits) <= l.target &&
    (net.Testnet4? && hs != [] ==> l.lastTime == hs[|hs| - 1].time)
  }

  // ---------- one block more ----------

  lemma {:induction false} AboveDropsLast(s: seq<nat>, v: nat)
    requires s != []
    ensures Above(s, v) == Above(s[..|s| - 1], v) + if s[|s| - 1] > v then 1 else 0
  {
    if |s| > 1 {
      AboveDropsLast(s[1..], v);
      assert s[1..][..|s| - 2] == s[..|s| - 1][1..];
    }
  }

  lemma {:induction false} ElevenStep(hs: seq<Header>, h: Header)
    ensures LastEleven(hs + [h]) == [h.time] + LastEleven(hs)[..10]
  {
  }

  lemma {:induction false} TurnStep(n: nat, j: nat)
    requires j < 11
    ensures if j == n % 11 then (n + 11 - j) % 11 == 0 && (n + 10 - j) % 11 == 10
            else (n + 11 - j) % 11 == (n + 10 - j) % 11 + 1
  {
  }

  lemma {:induction false} RecentStep(hs: seq<Header>, times: Ring, h: Header)
    requires Recent(hs, times)
    ensures Recent(hs + [h], times[|hs| % 11 := h.time])
  {
    hide Above;
    hide LastEleven;
    var n, before, after := |hs|, LastEleven(hs), LastEleven(hs + [h]);
    var times' := times[n % 11 := h.time];
    ElevenStep(hs, h);
    forall j: nat | j < 11 ensures times'[j] == after[(n + 1 + 10 - j) % 11] { TurnStep(n, j); }
    forall v: nat ensures Above(times', v) == Above(after, v) {
      TurnStep(n, n % 11);
      AboveUpdate(times, n % 11, h.time, v);
      AboveDropsLast(before, v);
      AboveFirst(h.time, before[..10], v);
    }
  }

  lemma {:induction false} AboveFirst(x: nat, s: seq<nat>, v: nat)
    ensures Above([x] + s, v) == Above(s, v) + if x > v then 1 else 0
  {
    assert ([x] + s)[1..] == s;
  }

  /** The median sees only how many entries are above each bound. */
  lemma {:induction false} SameMedian(a: Ring, b: Ring)
    requires forall v: nat :: Above(a, v) == Above(b, v)
    ensures Median(a) == Median(b)
  {
    hide Above;
    hide Median;
    MedianAbove(a, Median(b));
    MedianAbove(b, Median(b));
    MedianAbove(a, Median(a));
    MedianAbove(b, Median(a));
  }

  lemma {:induction false} NothingRecent()
    ensures Recent([], seq(11, _ => 0))
  {
    assert LastEleven([]) == seq(11, _ => 0);
  }

  lemma {:induction false} DescribesGenesis(net: Network, sha: Sha)
    ensures DescribedLoop(net, sha, [], Start(net, Genesis(net)))
  {
    hide BitsToTarget;
    hide Recent;
    hide MaxTarget;
    hide MaxBits;
    MaxBitsDecode(net);
    NothingRecent();
    assert Hashes(sha, []) == [];
  }

  /** The loop body accepts exactly the headers that the rules allow. */
  lemma {:induction false} AcceptsValid(net: Network, sha: Sha, hs: seq<Header>, l: Loop, h: Header)
    requires DescribedLoop(net, sha, hs, l) && |hs| < U32_MAX
    ensures NextHeight(l.st) == |hs| && TrailingOnes(l.st.size) <= |l.st.subroots|
    ensures var c := Choose(net, l, h);
            c.target == (if Late(net, hs, h) then MaxTarget(net) else DueTarget(net, hs)) && c.work == WorkOf(net, hs, h)
    ensures Accepts1(net, sha, l, h) <==>
            h.prevBlockHash == TipOf(sha, hs) &&
            h.bits == (if Late(net, hs, h) then MaxBits(net) else DueBits(net, hs)) &&
            LeValue(sha(sha(Serialized(h)))) <= (if Late(net, hs, h) then MaxTarget(net) else DueTarget(net, hs)) &&
            h.time > Median(LastEleven(hs))
  {
    hide Serialized;
    hide LeValue;
    hide Median;
    hide Above;
    hide LastEleven;
    hide Peaks;
    hide TrailingOnes;
    hide DueBits;
    hide DueTarget;
    hide BitsToTarget;
    hide WorkSum;
    SameMedian(l.st.times, LastEleven(hs));
    MergeIsAppend(sha, Hashes(sha, hs), ZeroDigest());
    RegtestBits(net, hs);
  }

  lemma {:induction false} RegtestBits(net: Network, hs: seq<Header>)
    ensures net.Regtest? ==> DueBits(net, hs) == MaxBits(net)
    decreases |hs|
  {
    if hs != [] { RegtestBits(net, hs[..|hs| - 1]); }
  }

  lemma {:induction false} WithoutLast(hs: seq<Header>, h: Header)
    ensures |hs + [h]| == |hs| + 1 && (hs + [h])[..|hs|] == hs && (hs + [h])[|hs|] == h
  {
  }

  lemma {:induction false} EpochStep(net: Network, hs: seq<Header>, h: Header)
    ensures EpochStart(net, hs + [h]) ==
            if !net.Regtest? && |hs| % 2016 == 0 then h.time else EpochStart(net, hs)
  {
    var n := |hs|;
    if !net.Regtest? && n > 0 {
      EpochIndex(n);
      assert n / 2016 * 2016 <= n;
      if n % 2016 != 0 { assert (hs + [h])[n / 2016 * 2016] == hs[n / 2016 * 2016]; }
    }
  }

  lemma {:induction false} EpochIndex(n: nat)
    requires n > 0
    ensures n % 2016 == 0 ==> n / 2016 * 2016 == n
    ensures n % 2016 != 0 ==> (n - 1) / 2016 == n / 2016 && n / 2016 * 2016 < n
  {
  }

  /** The fields after an accepted block, before any retarget. */
  lemma {:induction false} RecordedDescribed(net: Network, sha: Sha, hs: seq<Header>, l: Loop, h: Header)
    requires DescribedLoop(net, sha, hs, l) && |hs| < U32_MAX && Accepts1(net, sha, l, h)
    ensures var st := Recorded(net, sha, l, h);
            st.height == |hs| && st.best == TipOf(sha, hs + [h]) && st.bits == DueBits(net, hs) &&
            st.work == WorkSum(net, hs + [h]) % U256_MODULUS && st.epochStart == EpochStart(net, hs + [h]) &&
            st.subroots == Peaks(sha, Hashes(sha, hs + [h])) && st.size == |hs| + 1 && Recent(hs + [h], st.times)
  {
    hide Accepts1;
    hide Serialized;
    hide Recent;
    hide Peaks;
    hide Merge;
    hide DueBits;
    hide DueTarget;
    hide BitsToTarget;
    hide WorkOf;
    hide Choose;
    hide EpochStart;
    WithoutLast(hs, h);
    AcceptsValid(net, sha, hs, l, h);
    WorkStep(net, hs, h);
    EpochStep(net, hs, h);
    RecentStep(hs, l.st.times, h);
    HashesSnoc(sha, hs + [h]);
    MergeIsAppend(sha, Hashes(sha, hs), BlockHash(sha, h));
  }

  lemma {:induction false} WorkStep(net: Network, hs: seq<Header>, h: Header)
    ensures Wrap256(WorkSum(net, hs) % U256_MODULUS + WorkOf(net, hs, h)) == WorkSum(net, hs + [h]) % U256_MODULUS
  {
    hide WorkOf;
    WithoutLast(hs, h);
    WrapAdd(WorkSum(net, hs), WorkOf(net, hs, h));
  }

  /** What the retarget makes of the fields is what the headers say. */
  lemma {:induction false} RetargetDue(net: Network, hs: seq<Header>, h: Header, bits: U32, epochStart: U32)
    requires NewEpoch(net, hs + [h]) && bits == DueBits(net, hs) && epochStart == EpochStart(net, hs + [h])
    requires BitsToTarget(bits) <= MaxTarget(net)
    ensures NewDifficulty(net, epochStart, h.time, bits) == DueTarget(net, hs + [h])
  {
    hide DueBits;
    hide Retargeted;
    hide BitsToTarget;
    WithoutLast(hs, h);
    var n := |hs|;
    assert n / 2016 * 2016 == n - 2015;
    assert epochStart == (hs + [h])[|hs + [h]| - 2016].time;
    ScaleIsRetarget(net, BitsToTarget(bits), Timespan(epochStart, h.time));
  }

  lemma {:induction false} DueStep(net: Network, hs: seq<Header>, h: Header)
    ensures !NewEpoch(net, hs + [h]) ==> DueBits(net, hs + [h]) == DueBits(net, hs) && DueTarget(net, hs + [h]) == DueTarget(net, hs)
    ensures NewEpoch(net, hs + [h]) ==> DueBits(net, hs + [h]) == Compact(DueTarget(net, hs + [h]))
  {
    WithoutLast(hs, h);
    hide NewEpoch;
  }

  lemma {:induction false} CapBelowHalf(net: Network)
    ensures MaxTarget(net) < U256_HALF
  {
  }

  /** Where no epoch ends, an accepted header needs no more. */
  lemma {:induction false} DescribesPlain(net: Network, sha: Sha, hs: seq<Header>, l: Loop, h: Header)
    requires DescribedLoop(net, sha, hs, l) && |hs| < U32_MAX && Accepts1(net, sha, l, h) && !NewEpoch(net, hs + [h])
    ensures ApplyOne(net, sha, l, h).Some? && DescribedLoop(net, sha, hs + [h], ApplyOne(net, sha, l, h).value)
  {
    hide *;
    UnfoldDescribed(net, sha, hs, l);
    WithoutLast(hs, h);
    DueStep(net, hs, h);
    RecordedDescribed(net, sha, hs, l, h);
    PlainOne(net, sha, hs, l, h);
    FoldDescribed(net, sha, hs + [h], ApplyOne(net, sha, l, h).value);
  }

  lemma {:induction false} UnfoldDescribed(net: Network, sha: Sha, hs: seq<Header>, l: Loop)
    requires DescribedLoop(net, sha, hs, l)
    ensures Described(net, sha, hs, l.st) && l.target == DueTarget(net, hs) && BitsToTarget(l.st.bits) <= l.target &&
            l.st.bits == DueBits(net, hs) && (net.Testnet4? && hs != [] ==> l.lastTime == hs[|hs| - 1].time)
  {
    hide BitsToTarget;
    hide DueTarget;
    hide DueBits;
  }

  lemma {:induction false} FoldDescribed(net: Network, sha: Sha, hs: seq<Header>, l: Loop)
    requires hs != [] && l.st.height == |hs| - 1 && l.st.best == TipOf(sha, hs) && l.st.bits == DueBits(net, hs)
    requires l.st.work == WorkSum(net, hs) % U256_MODULUS && l.st.epochStart == EpochStart(net, hs)
    requires l.st.subroots == Peaks(sha, Hashes(sha, hs)) && l.st.size == |hs| && Recent(hs, l.st.times)
    requires l.target == DueTarget(net, hs) && BitsToTarget(l.st.bits) <= l.target
    requires net.Testnet4? ==> l.lastTime == hs[|hs| - 1].time
    ensures DescribedLoop(net, sha, hs, l)
  {
    hide BitsToTarget;
    hide DueTarget;
    hide DueBits;
    hide WorkSum;
    hide Recent;
    hide Peaks;
  }

  lemma {:induction false} PlainOne(net: Network, sha: Sha, hs: seq<Header>, l: Loop, h: Header)
    requires Accepts1(net, sha, l, h) && !NewEpoch(net, hs + [h]) && Recorded(net, sha, l, h).height == |hs| < U32_MAX
    ensures ApplyOne(net, sha, l, h) == Some(Loop(Recorded(net, sha, l, h), l.target, if net.Testnet4? then h.time else l.lastTime))
  {
    hide Accepts1;
    hide Recorded;
    hide NewDifficulty;
    hide TargetToBits;
    WithoutLast(hs, h);
  }

  lemma {:induction false} LastOne(net: Network, sha: Sha, hs: seq<Header>, l: Loop, h: Header, target: nat)
    requires Accepts1(net, sha, l, h) && NewEpoch(net, hs + [h]) && Recorded(net, sha, l, h).height == |hs| < U32_MAX
    requires target == NewDifficulty(net, Recorded(net, sha, l, h).epochStart, h.time, Recorded(net, sha, l, h).bits)
    requires target < U256_MODULUS
    ensures ApplyOne(net, sha, l, h).Some? <==> TargetToBits(target).Some?
    ensures TargetToBits(target).Some? ==>
              ApplyOne(net, sha, l, h) ==
              Some(Loop(Recorded(net, sha, l, h).(bits := Compact(target)), target, if net.Testnet4? then h.time else l.lastTime))
  {
    hide Accepts1;
    hide Recorded;
    hide NewDifficulty;
    hide TargetToBits;
    WithoutLast(hs, h);
    if TargetToBits(target).Some? { CompactFits(target); }
  }

  lemma {:induction false} CompactIs(target: nat)
    requires target < U256_HALF
    ensures target < U256_MODULUS && (TargetToBits(target).Some? <==> target >= 0x8000)
    ensures target >= 0x8000 ==> Compact(target) == TargetToBits(target).value && BitsToTarget(Compact(target)) <= target
  {
    hide TargetToBits;
    hide BitsToTarget;
    EncoderDomain(target);
    if target >= 0x8000 { EncodeThenDecode(target); }
  }

  /** Where an epoch ends, it needs a target that the encoder takes. */
  lemma {:induction false} DescribesLast(net: Network, sha: Sha, hs: seq<Header>, l: Loop, h: Header)
    requires DescribedLoop(net, sha, hs, l) && |hs| < U32_MAX && Accepts1(net, sha, l, h) && NewEpoch(net, hs + [h])
    ensures ApplyOne(net, sha, l, h).Some? <==> DueTarget(net, hs + [h]) >= 0x8000
    ensures ApplyOne(net, sha, l, h).Some? ==> DescribedLoop(net, sha, hs + [h], ApplyOne(net, sha, l, h).value)
  {
    hide *;
    UnfoldDescribed(net, sha, hs, l);
    WithoutLast(hs, h);
    DueStep(net, hs, h);
    RecordedDescribed(net, sha, hs, l, h);
    var st, target := Recorded(net, sha, l, h), DueTarget(net, hs + [h]);
    RetargetDue(net, hs, h, st.bits, st.epochStart);
    LastOne(net, sha, hs, l, h, target);
    CapBelowHalf(net);
    CompactIs(target);
    if target >= 0x8000 { FoldDescribed(net, sha, hs + [h], ApplyOne(net, sha, l, h).value); }
  }

  lemma {:induction false} OnlyAccepted(net: Network, sha: Sha, l: Loop, h: Header)
    ensures ApplyOne(net, sha, l, h).Some? ==> Accepts1(net, sha, l, h)
  {
    hide Accepts1;
  }

  /** One iteration of the loop accepts exactly the valid headers, and keeps the description. */
  lemma {:induction false} DescribesNext(net: Network, sha: Sha, hs: seq<Header>, l: Loop, h: Header)
    requires DescribedLoop(net, sha, hs, l) && |hs| < U32_MAX
    ensures ApplyOne(net, sha, l, h).Some? <==> ValidNext(net, sha, hs, h)
    ensures ApplyOne(net, sha, l, h).Some? ==> DescribedLoop(net, sha, hs + [h], ApplyOne(net, sha, l, h).value)
  {
    hide Accepts1;
    hide ApplyOne;
    hide DescribedLoop;
    hide Choose;
    hide Serialized;
    hide LeValue;
    hide Median;
    hide LastEleven;
    hide DueBits;
    hide DueTarget;
    hide NewEpoch;
    hide TipOf;
    hide Late;
    AcceptsValid(net, sha, hs, l, h);
    OnlyAccepted(net, sha, l, h);
    if Accepts1(net, sha, l, h) {
      if NewEpoch(net, hs + [h]) { DescribesLast(net, sha, hs, l, h); } else { DescribesPlain(net, sha, hs, l, h); }
    }
  }

  // ---------- whole runs ----------

  /** Every accepted run leaves what the headers say. */
  lemma {:induction false} RunDescribed(net: Network, sha: Sha, hs: seq<Header>)
    requires |hs| <= U32_MAX && FromGenesis(net, sha, hs).Some?
    ensures DescribedLoop(net, sha, hs, FromGenesis(net, sha, hs).value)
  {
    hide DescribedLoop;
    hide ApplyOne;
    hide Start;
    hide ValidNext;
    if hs == [] {
      DescribesGenesis(net, sha);
    } else {
      var n := |hs| - 1;
      assert hs == hs[..n] + [hs[n]];
      RunDescribed(net, sha, hs[..n]);
      DescribesNext(net, sha, hs[..n], FromGenesis(net, sha, hs[..n]).value, hs[n]);
    }
  }

  /** A header list is accepted from the initial state exactly when every header is valid after those before it. */
  lemma {:induction false} AcceptanceExact(net: Network, sha: Sha, hs: seq<Header>)
    requires |hs| <= U32_MAX
    ensures ApplyBlocks(net, sha, Genesis(net), hs).Some? <==> forall i: nat :: i < |hs| ==> ValidNext(net, sha, hs[..i], hs[i])
  {
    hide ApplyOne;
    hide Start;
    hide ValidNext;
    hide DescribedLoop;
    if hs != [] {
      var n := |hs| - 1;
      var before := hs[..n];
      AcceptanceExact(net, sha, before);
      assert forall i: nat :: i < n ==> before[..i] == hs[..i] && before[i] == hs[i];
      if FromGenesis(net, sha, before).Some? {
        RunDescribed(net, sha, before);
        DescribesNext(net, sha, before, FromGenesis(net, sha, before).value, hs[n]);
      }
      assert (forall i: nat :: i < |hs| ==> ValidNext(net, sha, hs[..i], hs[i])) <==>
             (forall i: nat :: i < n ==> ValidNext(net, sha, before[..i], before[i])) && ValidNext(net, sha, before, hs[n]);
    }
  }

  /** And then every field is what the headers say. */
  lemma {:induction false} FieldsExact(net: Network, sha: Sha, hs: seq<Header>)
    requires |hs| <= U32_MAX && ApplyBlocks(net, sha, Genesis(net), hs).Some?
    ensures Described(net, sha, hs, ApplyBlocks(net, sha, Genesis(net), hs).value)
  {
    hide Described;
    RunDescribed(net, sha, hs);
  }

  /** A call that resumes the stored state starts from the compact target and, on testnet4, the last timestamp. */
  lemma {:induction false} ResumedFrom(net: Network, sha: Sha, hs: seq<Header>)
    requires |hs| <= U32_MAX && ApplyBlocks(net, sha, Genesis(net), hs).Some?
    ensures var l := Start(net, ApplyBlocks(net, sha, Genesis(net), hs).value);
            l.st == ApplyBlocks(net, sha, Genesis(net), hs).value &&
            l.target == (if net.Regtest? then MaxTarget(net) else BitsToTarget(DueBits(net, hs))) &&
            l.lastTime == (if net.Testnet4? && hs != [] then hs[|hs| - 1].time else 0)
  {
    hide DueBits;
    hide BitsToTarget;
    hide Recent;
    hide Peaks;
    hide WorkSum;
    hide EpochStart;
    hide TipOf;
    hide ApplyBlocks;
    FieldsExact(net, sha, hs);
    if hs != [] { LatestTime(hs, ApplyBlocks(net, sha, Genesis(net), hs).value.times); }
  }

  lemma {:induction false} LatestTime(hs: seq<Header>, times: Ring)
    requires hs != [] && Recent(hs, times)
    ensures times[(|hs| - 1) % 11] == hs[|hs| - 1].time
  {
    hide Above;
    LatestSlot(|hs|);
  }

  lemma {:induction false} LatestSlot(n: nat)
    requires n > 0
    ensures (n + 10 - (n - 1) % 11) % 11 == 0
  {
  }
}
