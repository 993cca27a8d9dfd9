/** An epoch that ends before it starts (header-chain/src/header_chain.rs): its first header is dated far ahead, which the
    median of the others does not notice, and its last one is not. */
module BackwardsEpoch {
  import opened Hashing
  import opened CompactTarget
  import opened MedianTime
  import opened MmrSpec
  import opened HeaderChain
  import opened ChainRuns
  import opened ChainExamples

  function EpochHeader(v: nat, high: U32, i: nat): Header
    requires v < U256_MODULUS && i < 2016
  {
    Header(0, Tip(v, i), ZeroDigest(), if i == 0 then high else i, MaxBits(Mainnet), 0)
  }

  function EpochHeaders(v: nat, high: U32, n: nat): (r: seq<Header>)
    requires v < U256_MODULUS && n <= 2016
    ensures |r| == n
  {
    seq(n, i requires 0 <= i < n => EpochHeader(v, high, i))
  }

  /** After n of them every slot but the first holds an earlier time than the next one's. */
  ghost predicate EpochInv(high: U32, n: nat, l: Loop) {
    l.target == MaxTarget(Mainnet) && l.st.bits == MaxBits(Mainnet) && (n > 0 ==> l.st.epochStart == high) &&
    forall i :: 1 <= i < 11 ==> l.st.times[i] <= if n == 0 then 0 else n - 1
  }

  lemma {:induction false} EpochStart(high: U32)
    ensures EpochInv(high, 0, Start(Mainnet, Genesis(Mainnet)))
  {
    MaxBitsDecode(Mainnet);
  }

  lemma {:induction false} EpochAccepts(v: nat, high: U32, n: nat, l: Loop)
    requires v <= MaxTarget(Mainnet) && v < U256_MODULUS && n < 2016 && high > 0 && EpochInv(high, n, l)
    requires l.st.best == Tip(v, n) && NextHeight(l.st) == n && TrailingOnes(l.st.size) <= |l.st.subroots|
    ensures var sha, h := ConstantSha(v), EpochHeader(v, high, n);
            Accepts1(Mainnet, sha, l, h) && Recorded(Mainnet, sha, l, h).height == n &&
            EpochInv(high, n + 1, Loop(Recorded(Mainnet, sha, l, h), l.target, l.lastTime))
  {
    hide Accepts1;
    hide Recorded;
    hide ConstantSha;
    hide Tip;
    hide LeValue;
    hide BlockHash;
    hide TrailingOnes;
    hide Above;
    hide Median;
    hide MaxTarget;
    hide MaxBits;
    hide NextHeight;
    var sha, h := ConstantSha(v), EpochHeader(v, high, n);
    var bound := if n == 0 then 0 else n - 1;
    ConstantShaValue(v, h);
    AboveBounded(l.st.times, 1, bound);
    MedianAbove(l.st.times, bound);
    MeetsAll(Mainnet, sha, l, h);
    RecordedFields(Mainnet, sha, l, h);
  }

  /** All but the last block. */
  lemma {:induction false} EpochRun(v: nat, high: U32, n: nat)
    requires v <= MaxTarget(Mainnet) && v < U256_MODULUS && n <= 2015 && high > 0
    ensures var run := FromGenesis(Mainnet, ConstantSha(v), EpochHeaders(v, high, n));
            run.Some? && EpochInv(high, n, run.value)
  {
    hide EpochInv;
    hide ConstantSha;
    hide EpochHeader;
    hide ApplyOne;
    hide Accepts1;
    hide Recorded;
    hide Start;
    hide Peaks;
    hide Tip;
    hide BlockHash;
    hide MaxTarget;
    hide TrailingOnes;
    var sha, hs := ConstantSha(v), EpochHeaders(v, high, n);
    if n == 0 {
      EpochStart(high);
    } else {
      var m := n - 1;
      EpochRun(v, high, m);
      assert hs[..m] == EpochHeaders(v, high, m);
      var l := FromGenesis(Mainnet, sha, hs[..m]).value;
      RunTip(Mainnet, v, hs[..m]);
      EpochAccepts(v, high, m, l);
      PlainBlock(Mainnet, sha, l, hs[m]);
    }
  }

  /** What the retarget makes of it. */
  lemma {:induction false} EpochTarget(high: U32)
    requires 2015 < high
    ensures var target, e := NewDifficulty(Mainnet, high, 2015, MaxBits(Mainnet)), EXPECTED_EPOCH_TIMESPAN;
            0x8000 <= target < U256_HALF &&
            (target == MaxTarget(Mainnet) / 4 <==> high - 2015 >= U32_MODULUS - e / 4) &&
            (target == MaxTarget(Mainnet) <==> high - 2015 <= U32_MODULUS - e)
  {
    MaxBitsDecode(Mainnet);
    TimespanExact(high, 2015);
    var ts := Timespan(high, 2015);
    hide Timespan;
    hide BitsToTarget;
    hide MaxBits;
    ScaleIsRetarget(Mainnet, MaxTarget(Mainnet), ts);
    hide Retargeted;
    ScaledCap(ts);
  }

  lemma {:induction false} ScaledCap(ts: nat)
    requires EXPECTED_EPOCH_TIMESPAN / 4 <= ts <= 4 * EXPECTED_EPOCH_TIMESPAN
    ensures MaxTarget(Mainnet) * ts >= 0
    ensures var cap, e := MaxTarget(Mainnet), EXPECTED_EPOCH_TIMESPAN; var scaled := cap * ts / e;
            0x8000 <= Min(cap, scaled) < U256_HALF && (Min(cap, scaled) == cap / 4 <==> ts == e / 4) &&
            (Min(cap, scaled) == cap <==> ts >= e)
  {
  }

  /** The whole epoch is accepted, and its target goes up as far as the cap allows, where the clamp would take it down to a
      quarter; that happens only if the first header is dated nearly 2^32 seconds ahead. */
  lemma {:induction false} BackwardsEpochRun(v: nat, high: U32)
    requires v <= MaxTarget(Mainnet) && v < U256_MODULUS && 2015 < high
    ensures var hs := EpochHeaders(v, high, 2016);
            hs[0].time == high && hs[2015].time == 2015 && FromGenesis(Mainnet, ConstantSha(v), hs).Some? &&
            var l := FromGenesis(Mainnet, ConstantSha(v), hs).value;
            l.st.epochStart == high &&
            (l.target == MaxTarget(Mainnet) / 4 <==> high - 2015 >= U32_MODULUS - EXPECTED_EPOCH_TIMESPAN / 4) &&
            (l.target == MaxTarget(Mainnet) <==> high - 2015 <= U32_MODULUS - EXPECTED_EPOCH_TIMESPAN)
  {
    hide ConstantSha;
    hide ApplyOne;
    hide Accepts1;
    hide Recorded;
    hide Start;
    hide Peaks;
    hide Tip;
    hide BlockHash;
    hide MaxTarget;
    hide TrailingOnes;
    hide NewDifficulty;
    hide TargetToBits;
    hide BitsToTarget;
    var sha, hs := ConstantSha(v), EpochHeaders(v, high, 2016);
    EpochRun(v, high, 2015);
    assert hs[..2015] == EpochHeaders(v, high, 2015);
    assert hs[2015] == EpochHeader(v, high, 2015) && hs[0] == EpochHeader(v, high, 0);
    var l := FromGenesis(Mainnet, sha, hs[..2015]).value;
    RunTip(Mainnet, v, hs[..2015]);
    EpochAccepts(v, high, 2015, l);
    EpochTarget(high);
    var target := NewDifficulty(Mainnet, high, 2015, MaxBits(Mainnet));
    EncodeThenDecode(target);
    CompactFits(target);
    LastOfEpoch(sha, l, hs[2015], target, TargetToBits(target).value);
  }
}
