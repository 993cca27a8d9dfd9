/** Runs from the initial state that show where the promises of the header chain (header-chain/src/header_chain.rs) end. */
module ChainExamples {
  import opened Arithmetic
  import opened Wrappers
  import opened Hashing
  import opened CompactTarget
  import opened MedianTime
  import opened MmrSpec
  import opened HeaderChain
  import opened ChainRuns
  import opened ChainBatches

  // ---------- the slowest clock ----------

  /** A hash function with a single value, whose little-endian reading is n. */
  function ConstantSha(n: nat): Sha
    requires n < U256_MODULUS
  {
    var digest: Digest := Mirrored(ToBytes(n));
    (_: seq<Byte>) => digest
  }

  lemma {:induction false} ConstantShaValue(n: nat, h: Header)
    requires n < U256_MODULUS
    ensures BlockHash(ConstantSha(n), h) == Mirrored(ToBytes(n)) && LeValue(BlockHash(ConstantSha(n), h)) == n
  {
    assert Mirrored(Mirrored(ToBytes(n))) == ToBytes(n);
  }

  /** The digest that block i must name as its predecessor. */
  function Tip(v: nat, i: nat): Digest
    requires v < U256_MODULUS
  {
    if i == 0 then ZeroDigest() else Mirrored(ToBytes(v))
  }

  /** Timestamps that never exceed the median by more than one: six blocks with each. */
  function SlowHeader(net: Network, v: nat, i: nat): Header
    requires v < U256_MODULUS && i < U32_MODULUS
  {
    Header(0, Tip(v, i), ZeroDigest(), i / 6 + 1, MaxBits(net), 0)
  }

  function SlowHeaders(net: Network, v: nat, n: nat): (r: seq<Header>)
    requires v < U256_MODULUS && n < U32_MODULUS
    ensures |r| == n
  {
    seq(n, i requires 0 <= i < n => SlowHeader(net, v, i))
  }

  /** After n such blocks. */
  ghost predicate SlowInv(net: Network, n: nat, l: Loop) {
    l.target == MaxTarget(net) && l.st.bits == MaxBits(net) && l.st.epochStart == (if net.Regtest? || n == 0 then 0 else 1) &&
    (forall i :: 0 <= i < 11 ==> l.st.times[i] <= (n + 5) / 6) && (forall i :: n <= i < 11 ==> l.st.times[i] == 0) &&
    Above(l.st.times, n / 6) == n % 6
  }

  lemma {:induction false} AboveNone(s: seq<nat>, v: nat)
    requires forall i :: 0 <= i < |s| ==> s[i] <= v
    ensures Above(s, v) == 0
  {
    if s != [] { AboveNone(s[1..], v); }
  }

  /** The sixth block at one time lets the clock move on. */
  lemma {:induction false} SlowRing(n: nat, before: Ring, after: Ring)
    requires n < U32_MODULUS && after == before[n % 11 := n / 6 + 1]
    requires (forall i :: 0 <= i < 11 ==> before[i] <= (n + 5) / 6) && (forall i :: n <= i < 11 ==> before[i] == 0)
    requires Above(before, n / 6) == n % 6 && before[n % 11] <= n / 6
    ensures (forall i :: 0 <= i < 11 ==> after[i] <= (n + 6) / 6) && (forall i :: n < i < 11 ==> after[i] == 0)
    ensures Above(after, (n + 1) / 6) == (n + 1) % 6
    ensures ValidateTimestamp(n / 6 + 1, before)
  {
    hide Above;
    MedianAbove(before, n / 6);
    AboveUpdate(before, n % 11, n / 6 + 1, n / 6);
    assert (n + 6) / 6 == n / 6 + 1;
    if n % 6 == 5 { AboveNone(after, (n + 1) / 6); } else { assert (n + 1) / 6 == n / 6; }
  }

  lemma {:induction false} SlowStart(net: Network)
    requires !net.Testnet4?
    ensures SlowInv(net, 0, Start(net, Genesis(net)))
  {
    MaxBitsDecode(net);
    AboveConstant(11, 0, 0);
  }

  /** A block that closes no epoch is recorded, and nothing else happens. */
  lemma {:induction false} PlainBlock(net: Network, sha: Sha, l: Loop, h: Header)
    requires Accepts1(net, sha, l, h) && !net.Testnet4?
    requires net.Regtest? || NextHeight(l.st) % BLOCKS_PER_EPOCH != BLOCKS_PER_EPOCH - 1
    ensures ApplyOne(net, sha, l, h) == Some(Loop(Recorded(net, sha, l, h), l.target, l.lastTime))
  {
    hide Accepts1;
    hide Choose;
    hide Merge;
    hide BlockHash;
    hide NewDifficulty;
    hide TargetToBits;
  }

  /** The fields that matter to the next block. */
  lemma {:induction false} RecordedFields(net: Network, sha: Sha, l: Loop, h: Header)
    requires Accepts1(net, sha, l, h)
    ensures var st := Recorded(net, sha, l, h);
            st.height == NextHeight(l.st) && st.bits == l.st.bits && st.times == l.st.times[NextHeight(l.st) % 11 := h.time] &&
            st.epochStart == if !net.Regtest? && NextHeight(l.st) % BLOCKS_PER_EPOCH == 0 then h.time else l.st.epochStart
  {
    hide Accepts1;
    hide Choose;
    hide Merge;
    hide BlockHash;
  }

  lemma {:induction false} MeetsAll(net: Network, sha: Sha, l: Loop, h: Header)
    requires !net.Testnet4? && h.prevBlockHash == l.st.best && h.bits == MaxBits(net) == l.st.bits
    requires LeValue(BlockHash(sha, h)) <= l.target && ValidateTimestamp(h.time, l.st.times)
    requires TrailingOnes(l.st.size) <= |l.st.subroots|
    ensures Accepts1(net, sha, l, h)
  {
    hide LeValue;
    hide BlockHash;
    hide ValidateTimestamp;
    hide TrailingOnes;
    hide CalculateWork;
    hide MaxBits;
  }

  /** The next block of the slow run is accepted: what it takes is a low hash and a stack of peaks. */
  lemma {:induction false} SlowBlock(net: Network, v: nat, n: nat, l: Loop)
    requires !net.Testnet4? && v <= MaxTarget(net) && v < U256_MODULUS && n < U32_MODULUS && SlowInv(net, n, l)
    requires net.Regtest? || n < 2015
    requires l.st.best == Tip(v, n) && NextHeight(l.st) == n && TrailingOnes(l.st.size) <= |l.st.subroots|
    requires l.st.times[n % 11] <= n / 6
    ensures var next := ApplyOne(net, ConstantSha(v), l, SlowHeader(net, v, n)); next.Some? && SlowInv(net, n + 1, next.value)
  {
    hide Accepts1;
    hide Recorded;
    hide ApplyOne;
    hide ConstantSha;
    hide Tip;
    hide LeValue;
    hide BlockHash;
    hide TrailingOnes;
    hide Above;
    hide ValidateTimestamp;
    hide MaxTarget;
    hide MaxBits;
    hide NextHeight;
    var sha, h := ConstantSha(v), SlowHeader(net, v, n);
    ConstantShaValue(v, h);
    SlowRing(n, l.st.times, l.st.times[n % 11 := n / 6 + 1]);
    MeetsAll(net, sha, l, h);
    assert !net.Regtest? ==> n % BLOCKS_PER_EPOCH == n;
    PlainBlock(net, sha, l, h);
    RecordedFields(net, sha, l, h);
    assert (n + 1 + 5) / 6 == (n + 6) / 6;
  }

  /** The slot about to be overwritten holds an old timestamp or none. */
  lemma {:induction false} OldSlot(net: Network, v: nat, n: nat)
    requires v < U256_MODULUS && n < U32_MODULUS && FromGenesis(net, ConstantSha(v), SlowHeaders(net, v, n)).Some?
    requires SlowInv(net, n, FromGenesis(net, ConstantSha(v), SlowHeaders(net, v, n)).value)
    ensures FromGenesis(net, ConstantSha(v), SlowHeaders(net, v, n)).value.st.times[n % 11] <= n / 6
  {
    hide ConstantSha;
    hide FromGenesis;
    hide Above;
    if n >= 11 {
      RingHoldsLatest(net, ConstantSha(v), SlowHeaders(net, v, n), n - 11);
      assert (n - 11) % 11 == n % 11;
      assert (n - 11) / 6 + 1 <= n / 6;
    }
  }

  /** The slow run from the initial state, as far as no retarget and no wrap of the height interferes. */
  lemma {:induction false} SlowRun(net: Network, v: nat, n: nat)
    requires !net.Testnet4? && v <= MaxTarget(net) && v < U256_MODULUS
    requires if net.Regtest? then n < U32_MODULUS else n <= 2015
    ensures var run := FromGenesis(net, ConstantSha(v), SlowHeaders(net, v, n));
            run.Some? && SlowInv(net, n, run.value)
  {
    hide SlowInv;
    hide ConstantSha;
    hide SlowHeader;
    hide ApplyOne;
    hide Start;
    hide Peaks;
    hide Tip;
    hide BlockHash;
    hide MaxTarget;
    var sha, hs := ConstantSha(v), SlowHeaders(net, v, n);
    if n == 0 {
      SlowStart(net);
    } else {
      var m := n - 1;
      SlowRun(net, v, m);
      assert hs[..m] == SlowHeaders(net, v, m);
      var l := FromGenesis(net, sha, hs[..m]).value;
      RunTip(net, v, hs[..m]);
      OldSlot(net, v, m);
      SlowBlock(net, v, m, l);
    }
  }

  /** Tip, height and peaks of a run with this hash function. */
  lemma {:induction false} RunTip(net: Network, v: nat, hs: seq<Header>)
    requires v < U256_MODULUS && |hs| <= U32_MAX && FromGenesis(net, ConstantSha(v), hs).Some?
    ensures var st := FromGenesis(net, ConstantSha(v), hs).value.st;
            st.best == Tip(v, |hs|) && NextHeight(st) == st.size == |hs| && |st.subroots| == Ones(|hs|) &&
            TrailingOnes(st.size) <= |st.subroots|
  {
    var sha, n := ConstantSha(v), |hs|;
    RunState(net, sha, hs);
    if n > 0 { ConstantShaValue(v, hs[n - 1]); }
    hide FromGenesis;
    hide ConstantSha;
    hide Peaks;
    hide Ones;
    PeakCount(sha, Hashes(sha, hs));
    TrailingOnesAreOnes(n);
  }

  // ---------- a cut at a retarget block ----------

  /** The target after an epoch of this run whose last block is 609525 seconds late, and its compact form. */
  const LATE: nat := 609526
  const UNCUT: nat := 0x80FF_7F00_0000_0000_0000_0000_0000_0000_0000_0000_0000_0000_0000_0000
  const CUT: nat := 0x80FF_0000_0000_0000_0000_0000_0000_0000_0000_0000_0000_0000_0000_0000
  const CUT_BITS: U32 := 0x1D00_80FF

  lemma {:induction false} LateScaling()
    ensures MaxTarget(Mainnet) * 609525 == UNCUT * EXPECTED_EPOCH_TIMESPAN < U256_MODULUS
  {
  }

  lemma {:induction false} LateRetarget()
    ensures NewDifficulty(Mainnet, 1, LATE, MaxBits(Mainnet)) == UNCUT
  {
    MaxBitsDecode(Mainnet);
    LateScaling();
    assert Timespan(1, LATE) == 609525;
    hide BitsToTarget;
    hide Timespan;
    Wrap256Small(MaxTarget(Mainnet) * 609525);
    hide Wrap256;
    DivModUnique(UNCUT * EXPECTED_EPOCH_TIMESPAN, EXPECTED_EPOCH_TIMESPAN, UNCUT, 0);
  }

  lemma {:induction false} UncutForms()
    ensures UNCUT == 0x80FF7F * Pow2(200) && CUT == 0x80FF * Pow2(208) && Pow2(208) == 0x100 * Pow2(200)
  {
    hide Pow2;
    Pow2Of32();
    Pow2Small();
    Pow2Add(32, 32);
    Pow2Add(64, 64);
    Pow2Add(128, 64);
    Pow2Add(192, 8);
    Pow2Add(200, 8);
  }

  lemma {:induction false} UncutEncodes()
    ensures TargetToBits(UNCUT) == Some(CUT_BITS) && BitsToTarget(CUT_BITS) == CUT
  {
    hide Pow2;
    hide BitsToTarget;
    hide BitLength;
    UncutForms();
    DecodeParts(29, 0x80FF);
    UncutLength();
    DivModUnique(UNCUT, Pow2(208), 0x80FF, 0x7F * Pow2(200));
  }

  lemma {:induction false} UncutLength()
    ensures BitLength(UNCUT) == 224
  {
    hide Pow2;
    hide BitLength;
    UncutForms();
    Pow2Small();
    Pow2Add(200, 23);
    Pow2Add(200, 24);
    BitLengthUnique(UNCUT, 224);
  }

  lemma {:induction false} WorksDiffer()
    ensures CalculateWork(UNCUT) == 8523476009 && CalculateWork(CUT) == 8523604055
  {
    DivModUnique(U256_MODULUS - 1, UNCUT + 1, 8523476009, U256_MODULUS - 1 - 8523476009 * (UNCUT + 1));
    DivModUnique(U256_MODULUS - 1, CUT + 1, 8523604055, U256_MODULUS - 1 - 8523604055 * (CUT + 1));
  }

  /** The block that closes the epoch, and the next one. */
  function ClosingHeader(v: nat): Header
    requires v < U256_MODULUS
  {
    Header(0, Mirrored(ToBytes(v)), ZeroDigest(), LATE, MaxBits(Mainnet), 0)
  }

  function OpeningHeader(v: nat): Header
    requires v < U256_MODULUS
  {
    Header(0, Mirrored(ToBytes(v)), ZeroDigest(), LATE + 1, CUT_BITS, 0)
  }

  /** The first epoch. */
  function FirstEpoch(v: nat): (r: seq<Header>)
    requires v < U256_MODULUS
    ensures |r| == 2016
  {
    SlowHeaders(Mainnet, v, 2015) + [ClosingHeader(v)]
  }

  lemma {:induction false} ClosingBlock(v: nat, l: Loop)
    requires v <= MaxTarget(Mainnet) && v < U256_MODULUS && SlowInv(Mainnet, 2015, l)
    requires l.st.best == Mirrored(ToBytes(v)) && NextHeight(l.st) == 2015 && TrailingOnes(l.st.size) <= |l.st.subroots|
    ensures var next := ApplyOne(Mainnet, ConstantSha(v), l, ClosingHeader(v));
            next.Some? && next.value.target == UNCUT && next.value.st.bits == CUT_BITS &&
            Median(next.value.st.times) <= LATE && next.value.st.height == 2015
  {
    hide Accepts1;
    hide Recorded;
    hide ApplyOne;
    hide ConstantSha;
    hide LeValue;
    hide BlockHash;
    hide TrailingOnes;
    hide Above;
    hide Median;
    hide MaxTarget;
    hide MaxBits;
    hide NextHeight;
    var sha, h := ConstantSha(v), ClosingHeader(v);
    ConstantShaValue(v, h);
    var times := l.st.times[2015 % 11 := LATE];
    MedianAbove(l.st.times, 2015 / 6);
    AboveNone(times, LATE);
    MedianAbove(times, LATE);
    MeetsAll(Mainnet, sha, l, h);
    RecordedFields(Mainnet, sha, l, h);
    LateRetarget();
    UncutEncodes();
    LastOfEpoch(sha, l, h, UNCUT, CUT_BITS);
  }

  lemma {:induction false} LastOfEpoch(sha: Sha, l: Loop, h: Header, target: nat, bits: U32)
    requires Accepts1(Mainnet, sha, l, h) && NextHeight(l.st) == 2015 && Recorded(Mainnet, sha, l, h).height == 2015
    requires NewDifficulty(Mainnet, Recorded(Mainnet, sha, l, h).epochStart, h.time, Recorded(Mainnet, sha, l, h).bits) == target
    requires TargetToBits(target) == Some(bits)
    ensures ApplyOne(Mainnet, sha, l, h) == Some(Loop(Recorded(Mainnet, sha, l, h).(bits := bits), target, l.lastTime))
  {
    hide Accepts1;
    hide Recorded;
    hide NewDifficulty;
    hide TargetToBits;
  }

  lemma {:induction false} OpeningBlock(v: nat, l: Loop)
    requires v <= UNCUT && v < U256_MODULUS && l.target == UNCUT && l.st.bits == CUT_BITS && l.st.height == 2015
    requires Median(l.st.times) <= LATE && l.st.best == Mirrored(ToBytes(v)) && TrailingOnes(l.st.size) <= |l.st.subroots|
    ensures ApplyOne(Mainnet, ConstantSha(v), l, OpeningHeader(v)).Some?
    ensures Start(Mainnet, l.st).target == CUT && UsesTarget(Mainnet, l, OpeningHeader(v))
  {
    hide BitsToTarget;
    hide TargetToBits;
    hide ConstantSha;
    hide LeValue;
    hide BlockHash;
    hide TrailingOnes;
    hide Median;
    hide CalculateWork;
    hide Accepts1;
    hide ToBytes;
    hide Mirrored;
    var sha, h := ConstantSha(v), OpeningHeader(v);
    ConstantShaValue(v, h);
    UncutEncodes();
    OpeningMeets(sha, l, h);
    PlainBlock(Mainnet, sha, l, h);
  }

  lemma {:induction false} OpeningMeets(sha: Sha, l: Loop, h: Header)
    requires h.prevBlockHash == l.st.best && h.bits == l.st.bits && LeValue(BlockHash(sha, h)) <= l.target
    requires ValidateTimestamp(h.time, l.st.times) && TrailingOnes(l.st.size) <= |l.st.subroots|
    ensures Accepts1(Mainnet, sha, l, h)
  {
    hide LeValue;
    hide BlockHash;
    hide ValidateTimestamp;
    hide TrailingOnes;
    hide CalculateWork;
  }

  lemma {:induction false} EpochRun(v: nat)
    requires v <= UNCUT && v < U256_MODULUS
    ensures UNCUT < MaxTarget(Mainnet)
    ensures var run := FromGenesis(Mainnet, ConstantSha(v), FirstEpoch(v));
            run.Some? && run.value.target == UNCUT && run.value.st.bits == CUT_BITS && run.value.st.height == 2015 &&
            Median(run.value.st.times) <= LATE && run.value.st.best == Mirrored(ToBytes(v)) &&
            TrailingOnes(run.value.st.size) <= |run.value.st.subroots|
  {
    hide SlowInv;
    hide ConstantSha;
    hide SlowHeaders;
    hide ClosingHeader;
    hide ApplyOne;
    hide Start;
    hide Peaks;
    hide BlockHash;
    hide Median;
    hide Ones;
    hide TrailingOnes;
    var sha, hs := ConstantSha(v), FirstEpoch(v);
    SlowRun(Mainnet, v, 2015);
    RunTip(Mainnet, v, SlowHeaders(Mainnet, v, 2015));
    assert hs[..2015] == SlowHeaders(Mainnet, v, 2015);
    ClosingBlock(v, FromGenesis(Mainnet, sha, hs[..2015]).value);
    RunState(Mainnet, sha, hs);
    ConstantShaValue(v, hs[2015]);
    PeakCount(sha, Hashes(sha, hs));
    TrailingOnesAreOnes(2016);
  }

  /** Cutting the first epoch off a run at its last block changes the outcome, whatever the hashes: one between the two targets
      is refused after the cut, and a lower one is counted with more work. */
  lemma {:induction false} CutAtRetargetDiffers(v: nat)
    requires v <= UNCUT && v < U256_MODULUS
    ensures var sha, xs, h := ConstantSha(v), FirstEpoch(v), OpeningHeader(v);
            ApplyBlocks(Mainnet, sha, Genesis(Mainnet), xs).Some? && ApplyBlocks(Mainnet, sha, Genesis(Mainnet), xs + [h]).Some? &&
            var whole, mid := ApplyBlocks(Mainnet, sha, Genesis(Mainnet), xs + [h]).value, ApplyBlocks(Mainnet, sha, Genesis(Mainnet), xs).value;
            if v > CUT then ApplyBlocks(Mainnet, sha, mid, [h]).None?
            else ApplyBlocks(Mainnet, sha, mid, [h]).Some? && ApplyBlocks(Mainnet, sha, mid, [h]).value.work != whole.work
  {
    hide ConstantSha;
    hide FirstEpoch;
    hide OpeningHeader;
    hide ApplyOne;
    hide Peaks;
    hide BlockHash;
    hide Median;
    hide TrailingOnes;
    hide CalculateWork;
    hide LeValue;
    var sha, xs, h := ConstantSha(v), FirstEpoch(v), OpeningHeader(v);
    EpochRun(v);
    var l := FromGenesis(Mainnet, sha, xs).value;
    OpeningBlock(v, l);
    ConstantShaValue(v, h);
    WorksDiffer();
    RunSplit(Mainnet, sha, Start(Mainnet, Genesis(Mainnet)), xs, [h]);
    OneBlock(Mainnet, sha, l, h);
    OneBlock(Mainnet, sha, Start(Mainnet, l.st), h);
    NextBlockExact(Mainnet, sha, Genesis(Mainnet), xs, h);
    ResumedIsTwin(Mainnet, sha, Genesis(Mainnet), xs);
    hide RunLoop;
    TwinStep(Mainnet, sha, l, Start(Mainnet, l.st), h);
  }

  // ---------- nine blocks across the wrap of the height ----------

  /** Four blocks before the 32-bit height wraps. The slots of the next nine are 0, 1, 2, 3 and, because 2^32 is not a multiple
      of eleven, 0, 1, 2, 3, 4 again. */
  const NEAR: nat := U32_MODULUS - 4

  function WrapSlot(j: nat): nat {
    if j < 4 then j else j - 4
  }

  function WrapHeader(): Header {
    Header(0, Mirrored(ToBytes(0)), ZeroDigest(), NEAR / 6 + 1, MaxBits(Regtest), 0)
  }

  /** The number of peaks after j of these blocks; the size wraps with the height. */
  function WrapPeaks(j: nat): nat {
    if j == 0 then 30 else if j <= 2 then 31 else if j == 3 then 32
    else if j == 4 then 1 else if j == 7 || j == 9 then 3 else 2
  }

  /** After j of these blocks the six slots that none of them uses hold no later time than before. */
  ghost predicate WrapInv(j: nat, l: Loop)
    requires j <= 9
  {
    l.target == MaxTarget(Regtest) && l.st.bits == MaxBits(Regtest) && l.st.best == Mirrored(ToBytes(0)) &&
    NextHeight(l.st) == l.st.size == (if j < 4 then NEAR + j else j - 4) &&
    (forall i :: 5 <= i < 11 ==> l.st.times[i] <= NEAR / 6) && |l.st.subroots| == WrapPeaks(j)
  }

  lemma {:induction false} AboveBounded(s: seq<nat>, k: nat, v: nat)
    requires k <= |s| && forall i :: k <= i < |s| ==> s[i] <= v
    ensures Above(s, v) <= k
  {
    if k == 0 { AboveNone(s, v); } else { AboveBounded(s[1..], k - 1, v); }
  }

  lemma {:induction false} OnesBelow(k: nat)
    ensures Ones(Pow2(k) - 1) == k && TrailingOnes(Pow2(k) - 1) == k
  {
    if k > 0 {
      assert (Pow2(k) - 1) / 2 == Pow2(k - 1) - 1 && (Pow2(k) - 1) % 2 == 1;
      OnesBelow(k - 1);
    }
  }

  lemma {:induction false} NearOnes()
    ensures Ones(NEAR) == 30 && TrailingOnes(NEAR) == 0
    ensures TrailingOnes(NEAR + 1) == 1 && TrailingOnes(NEAR + 2) == 0 && TrailingOnes(NEAR + 3) == 32
  {
    hide Pow2;
    hide Ones;
    hide TrailingOnes;
    Pow2Of32();
    Pow2Succ(30);
    Pow2Succ(31);
    OnesBelow(32);
    OnesBelow(30);
    LowBits(0x3FFF_FFFF);
    LowBits(0x7FFF_FFFE);
    LowBits(0x7FFF_FFFF);
  }

  lemma {:induction false} FirstOnes()
    ensures TrailingOnes(0) == 0 && TrailingOnes(1) == 1 && TrailingOnes(2) == 0 && TrailingOnes(3) == 2 && TrailingOnes(4) == 0
  {
    hide TrailingOnes;
    LowBits(0);
    LowBits(1);
    LowBits(2);
  }

  lemma {:induction false} LowBits(h: nat)
    ensures Ones(2 * h + 1) == Ones(h) + 1 && Ones(2 * h) == Ones(h)
    ensures TrailingOnes(2 * h + 1) == TrailingOnes(h) + 1 && TrailingOnes(2 * h) == 0
  {
    assert (2 * h + 1) / 2 == h && 2 * h / 2 == h && 2 * h % 2 == 0 && (2 * h + 1) % 2 == 1;
    if h == 0 { assert Ones(0) == 0; }
  }

  lemma {:induction false} MergeLength(sha: Sha, subroots: seq<Digest>, size: nat, current: Digest)
    requires TrailingOnes(size) <= |subroots|
    ensures |Merge(sha, subroots, size, current)| == |subroots| - TrailingOnes(size) + 1
    decreases size
  {
    if size % 2 == 1 { MergeLength(sha, subroots[..|subroots| - 1], size / 2, HashPair(sha, subroots[|subroots| - 1], current)); }
  }

  lemma {:induction false} WrapStart()
    ensures var run := FromGenesis(Regtest, ConstantSha(0), SlowHeaders(Regtest, 0, NEAR));
            run.Some? && WrapInv(0, run.value) && Median(run.value.st.times) == NEAR / 6
  {
    hide ConstantSha;
    hide FromGenesis;
    hide SlowHeaders;
    hide Above;
    hide Median;
    hide Ones;
    hide TrailingOnes;
    hide ToBytes;
    hide MaxBits;
    hide MaxTarget;
    SlowRun(Regtest, 0, NEAR);
    RunTip(Regtest, 0, SlowHeaders(Regtest, 0, NEAR));
    NearOnes();
    WrapTimes();
  }

  /** Six of the eleven latest timestamps of the slow run just before the wrap are the median, and none is later. */
  lemma {:induction false} WrapTimes()
    requires FromGenesis(Regtest, ConstantSha(0), SlowHeaders(Regtest, 0, NEAR)).Some?
    requires SlowInv(Regtest, NEAR, FromGenesis(Regtest, ConstantSha(0), SlowHeaders(Regtest, 0, NEAR)).value)
    ensures var times := FromGenesis(Regtest, ConstantSha(0), SlowHeaders(Regtest, 0, NEAR)).value.st.times;
            (forall i :: 5 <= i < 11 ==> times[i] <= NEAR / 6) && Median(times) == NEAR / 6
  {
    hide ConstantSha;
    hide FromGenesis;
    hide Median;
    hide Above;
    hide MaxBits;
    hide MaxTarget;
    hide ToBytes;
    hide Tip;
    var q := NEAR / 6;
    var sha, hs := ConstantSha(0), SlowHeaders(Regtest, 0, NEAR);
    var times := FromGenesis(Regtest, sha, hs).value.st.times;
    forall i: nat | 5 <= i < 11 ensures times[i] == q {
      RingHoldsLatest(Regtest, sha, hs, NEAR - 11 + i);
      NearSlot(i);
    }
    hide SlowHeaders;
    MedianAbove(times, q);
    assert Above(times, q) == 0;
    AtLeastSix(times, q - 1);
    MedianAbove(times, q - 1);
  }

  lemma {:induction false} NearSlot(i: nat)
    requires 5 <= i < 11
    ensures (NEAR - 11 + i) % 11 == i && (NEAR - 11 + i) / 6 + 1 == NEAR / 6
  {
  }

  lemma {:induction false} AtLeastSix(s: seq<nat>, v: nat)
    requires |s| == 11 && forall i :: 5 <= i < 11 ==> s[i] > v
    ensures Above(s, v) >= 6
  {
    AboveTail(s, 5, v);
  }

  lemma {:induction false} AboveTail(s: seq<nat>, k: nat, v: nat)
    requires k <= |s| && forall i :: k <= i < |s| ==> s[i] > v
    ensures Above(s, v) >= |s| - k
  {
    if s != [] { AboveTail(s[1..], if k == 0 then 0 else k - 1, v); }
  }

  lemma {:induction false} WrapBlock(j: nat, l: Loop)
    requires j < 9 && WrapInv(j, l)
    ensures var next := ApplyOne(Regtest, ConstantSha(0), l, WrapHeader()); next.Some? && WrapInv(j + 1, next.value)
  {
    hide Accepts1;
    hide ApplyOne;
    hide ConstantSha;
    hide LeValue;
    hide BlockHash;
    hide TrailingOnes;
    hide Merge;
    hide Above;
    hide ToBytes;
    hide Mirrored;
    hide Choose;
    hide MaxTarget;
    hide MaxBits;
    var sha, h := ConstantSha(0), WrapHeader();
    ConstantShaValue(0, h);
    AboveBounded(l.st.times, 5, NEAR / 6);
    MedianAbove(l.st.times, NEAR / 6);
    NearOnes();
    FirstOnes();
    MeetsAll(Regtest, sha, l, h);
    PlainBlock(Regtest, sha, l, h);
    RecordedFields(Regtest, sha, l, h);
    StepFields(Regtest, sha, l, h);
    MergeLength(sha, l.st.subroots, l.st.size, BlockHash(sha, h));
    assert NextHeight(l.st) % 11 == WrapSlot(j);
    hide Recorded;
  }

  lemma {:induction false} WrapRun(l: Loop, j: nat)
    requires j <= 9 && WrapInv(0, l)
    ensures var run := RunLoop(Regtest, ConstantSha(0), l, seq(j, _ => WrapHeader())); run.Some? && WrapInv(j, run.value)
  {
    hide WrapInv;
    hide ApplyOne;
    hide ConstantSha;
    hide WrapHeader;
    var hs := seq(j, _ => WrapHeader());
    if j == 0 {
      assert hs == [];
    } else {
      WrapRun(l, j - 1);
      assert hs[..j - 1] == seq(j - 1, _ => WrapHeader());
      WrapBlock(j - 1, RunLoop(Regtest, ConstantSha(0), l, hs[..j - 1]).value);
    }
  }

  /** In a run from the initial state, nine accepted blocks across the wrap of the height may leave the median where it was. */
  lemma {:induction false} NineAcrossWrapMayNotRaiseMedian()
    ensures FromGenesis(Regtest, ConstantSha(0), SlowHeaders(Regtest, 0, NEAR)).Some?
    ensures var l := FromGenesis(Regtest, ConstantSha(0), SlowHeaders(Regtest, 0, NEAR)).value;
            var run := RunLoop(Regtest, ConstantSha(0), l, seq(9, _ => WrapHeader()));
            run.Some? && Median(run.value.st.times) == Median(l.st.times)
  {
    hide ConstantSha;
    hide SlowHeaders;
    hide WrapHeader;
    hide Above;
    hide Median;
    WrapStart();
    hide FromGenesis;
    var l := FromGenesis(Regtest, ConstantSha(0), SlowHeaders(Regtest, 0, NEAR)).value;
    WrapRun(l, 9);
    var hs := seq(9, _ => WrapHeader());
    MedianMonotone(Regtest, ConstantSha(0), l, hs);
    var after := RunLoop(Regtest, ConstantSha(0), l, hs).value.st.times;
    hide RunLoop;
    AboveBounded(after, 5, NEAR / 6);
    MedianAbove(after, NEAR / 6);
  }
}
