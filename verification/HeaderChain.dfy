/** The header-chain state machine of header-chain/src/header_chain.rs. */
module HeaderChain {
  import opened Arithmetic
  import opened Wrappers
  import opened Hashing
  import opened CompactTarget
  import opened MedianTime
  import opened MmrSpec

  datatype Network = Mainnet | Testnet4 | Signet | Regtest

  const U32_MODULUS: nat := 0x1_0000_0000
  const EXPECTED_EPOCH_TIMESPAN: nat := 60 * 60 * 24 * 14
  const BLOCKS_PER_EPOCH: nat := 2016
  const MINIMUM_WORK_TESTNET: nat := 0x1_0001_0001

  function MaxBits(net: Network): U32 {
    match net
    case Signet => 0x1E03_77AE
    case Regtest => 0x207F_FFFF
    case _ => 0x1D00_FFFF
  }

  function MaxTarget(net: Network): nat {
    match net
    case Signet => 0x377_AE00_0000_0000_0000_0000_0000_0000_0000_0000_0000_0000_0000_0000_0000
    case Regtest => 0x7FFF_FF00_0000_0000_0000_0000_0000_0000_0000_0000_0000_0000_0000_0000_0000_0000
    case _ => 0xFFFF_0000_0000_0000_0000_0000_0000_0000_0000_0000_0000_0000_0000_0000
  }

  datatype Header = Header(version: I32, prevBlockHash: Digest, merkleRoot: Digest, time: U32, bits: U32, nonce: U32)

  /** The 80 bytes of a header. */
  function Serialized(h: Header): (r: seq<Byte>)
    ensures |r| == 80
  {
    Le32(h.version % U32_MODULUS) + h.prevBlockHash + h.merkleRoot + Le32(h.time) + Le32(h.bits) + Le32(h.nonce)
  }

  function BlockHash(sha: Sha, h: Header): Digest {
    DoubleSha(sha, Serialized(h))
  }

  /** The bytes written out, numbers as little-endian words. */
  lemma {:induction false} HeaderWritten(h: Header)
    ensures var s := Serialized(h);
            LeValue(s[..4]) == (if h.version < 0 then h.version + U32_MODULUS else h.version) &&
            s[4..36] == h.prevBlockHash && s[36..68] == h.merkleRoot && LeValue(s[68..72]) == h.time &&
            LeValue(s[72..76]) == h.bits && LeValue(s[76..]) == h.nonce
  {
    hide LeValue;
    hide LeBytes;
    var s := Serialized(h);
    Pow2Of32();
    hide Pow2;
    LeRoundTrip(h.version % U32_MODULUS, 4);
    LeRoundTrip(h.time, 4);
    LeRoundTrip(h.bits, 4);
    LeRoundTrip(h.nonce, 4);
    assert s[..4] == Le32(h.version % U32_MODULUS) && s[68..72] == Le32(h.time);
    assert s[72..76] == Le32(h.bits) && s[76..] == Le32(h.nonce);
  }

  /** The hash of those bytes, hashed again. */
  lemma {:induction false} BlockHashWritten(sha: Sha, h: Header)
    ensures BlockHash(sha, h) == sha(sha(Serialized(h)))
  {
  }

  type Ring = s: seq<nat> | |s| == 11 witness seq(11, _ => 0)

  /** The fields of ChainState. */
  datatype State = State(height: U32, work: nat, best: Digest, bits: U32, epochStart: U32, times: Ring,
                         subroots: seq<Digest>, size: U32)

  /** The fields together with the two locals of the block loop: the uncompressed target and the last block time. */
  datatype Loop = Loop(st: State, target: nat, lastTime: nat)

  datatype Choice = Choice(target: nat, bits: U32, work: nat)

  /** The state before any block; the height counter wraps to zero on the genesis block. */
  function Genesis(net: Network): State {
    State(U32_MODULUS - 1, 0, ZeroDigest(), MaxBits(net), 0, seq(11, _ => 0), [], 0)
  }

  /** What the loop starts from when it resumes a stored state. */
  function Start(net: Network, st: State): Loop {
    Loop(st,
         if net.Regtest? then MaxTarget(net) else BitsToTarget(st.bits),
         if net.Testnet4? && st.height != U32_MODULUS - 1 then st.times[st.height % 11] else 0)
  }

  function CalculateWork(target: nat): nat {
    (U256_MODULUS - 1) / Saturated(target + 1)
  }

  function Saturated(n: nat): (r: nat)
    ensures n > 0 ==> r > 0
  {
    if n < U256_MODULUS then n else U256_MODULUS - 1
  }

  /** Work is the number of hashes below 2^256 for each one that meets the target, rounded down; the greatest target counts once. */
  lemma {:induction false} WorkWritten(target: nat)
    requires target < U256_MODULUS
    ensures target + 1 < U256_MODULUS ==>
              CalculateWork(target) * (target + 1) < U256_MODULUS <= (CalculateWork(target) + 1) * (target + 1)
    ensures target + 1 == U256_MODULUS ==> CalculateWork(target) == 1
  {
    if target + 1 < U256_MODULUS { Quotient(U256_MODULUS - 1, target + 1); }
  }

  lemma {:induction false} Quotient(n: nat, d: nat)
    requires d > 0
    ensures n / d * d <= n < (n / d + 1) * d
  {
  }

  /** The constant of testnet4 is the work of its cap. */
  lemma {:induction false} MinimumWork()
    ensures CalculateWork(MaxTarget(Testnet4)) == MINIMUM_WORK_TESTNET
  {
    var t := MaxTarget(Testnet4) + 1;
    DivModUnique(U256_MODULUS - 1, t, MINIMUM_WORK_TESTNET, U256_MODULUS - 1 - MINIMUM_WORK_TESTNET * t);
  }

  function NextHeight(st: State): U32 {
    WrappingInc(st.height)
  }

  /** Target, expected bits and work for one block; on testnet4 a block more than 20 minutes late may use the
      minimum difficulty unless it opens an epoch. */
  function Choose(net: Network, l: Loop, h: Header): Choice {
    if net.Testnet4? && h.time > (l.lastTime + 1200) % U32_MODULUS && NextHeight(l.st) % BLOCKS_PER_EPOCH != 0
    then Choice(MaxTarget(net), MaxBits(net), MINIMUM_WORK_TESTNET)
    else Choice(l.target, l.st.bits, CalculateWork(l.target))
  }

  /** Elapsed time as the 32-bit subtraction yields it, clamped to a factor of four around the expected one. */
  function Timespan(epochStart: U32, last: U32): nat {
    var actual := (last - epochStart) % U32_MODULUS;
    if actual < EXPECTED_EPOCH_TIMESPAN / 4 then EXPECTED_EPOCH_TIMESPAN / 4
    else if actual > EXPECTED_EPOCH_TIMESPAN * 4 then EXPECTED_EPOCH_TIMESPAN * 4
    else actual
  }

  function Retargeted(net: Network, current: nat, timespan: nat): (r: nat)
    ensures r <= MaxTarget(net) < U256_MODULUS
  {
    MulNonNeg(current, timespan);
    var scaled := Wrap256(current * timespan) / EXPECTED_EPOCH_TIMESPAN;
    if scaled > MaxTarget(net) then MaxTarget(net) else scaled
  }

  function NewDifficulty(net: Network, epochStart: U32, last: U32, bits: U32): (r: nat)
    ensures r <= MaxTarget(net) < U256_MODULUS
  {
    Retargeted(net, BitsToTarget(bits), Timespan(epochStart, last))
  }

  /** Why the loop body panics, if it does. */
  predicate Accepts1(net: Network, sha: Sha, l: Loop, h: Header) {
    var c := Choose(net, l, h);
    h.prevBlockHash == l.st.best &&
    h.bits == (if net.Regtest? then MaxBits(net) else c.bits) &&
    LeValue(BlockHash(sha, h)) <= c.target &&
    ValidateTimestamp(h.time, l.st.times) &&
    TrailingOnes(l.st.size) <= |l.st.subroots|
  }

  /** The state after the bookkeeping of an accepted block, before any retarget. */
  function Recorded(net: Network, sha: Sha, l: Loop, h: Header): State
    requires Accepts1(net, sha, l, h)
  {
    var st := l.st;
    var height := NextHeight(st);
    var hash := BlockHash(sha, h);
    State(height, Wrap256(st.work + Choose(net, l, h).work), hash, st.bits,
          if !net.Regtest? && height % BLOCKS_PER_EPOCH == 0 then h.time else st.epochStart,
          st.times[height % 11 := h.time],
          Merge(sha, st.subroots, st.size, hash), WrappingInc(st.size))
  }

  /** One iteration of the block loop; None where the source panics. */
  function ApplyOne(net: Network, sha: Sha, l: Loop, h: Header): Option<Loop> {
    if !Accepts1(net, sha, l, h) then None
    else
      var st := Recorded(net, sha, l, h);
      var lastTime := if net.Testnet4? then h.time else l.lastTime;
      if !net.Regtest? && st.height % BLOCKS_PER_EPOCH == BLOCKS_PER_EPOCH - 1 then
        var target := NewDifficulty(net, st.epochStart, h.time, st.bits);
        match TargetToBits(target)
        case None => None
        case Some(bits) => CompactFits(target); Some(Loop(st.(bits := bits), target, lastTime))
      else Some(Loop(st, l.target, lastTime))
  }

  lemma {:induction false} CompactFits(target: nat)
    requires target < U256_MODULUS && TargetToBits(target).Some?
    ensures TargetToBits(target).value < U32_MODULUS
  {
  }

  function RunLoop(net: Network, sha: Sha, l: Loop, hs: seq<Header>): Option<Loop> {
    if hs == [] then Some(l)
    else match RunLoop(net, sha, l, hs[..|hs| - 1])
      case None => None
      case Some(before) => ApplyOne(net, sha, before, hs[|hs| - 1])
  }

  function ApplyBlocks(net: Network, sha: Sha, st: State, hs: seq<Header>): Option<State> {
    match RunLoop(net, sha, Start(net, st), hs)
    case None => None
    case Some(l) => Some(l.st)
  }

  lemma {:induction false} RunSplit(net: Network, sha: Sha, l: Loop, xs: seq<Header>, ys: seq<Header>)
    ensures RunLoop(net, sha, l, xs + ys) ==
            match RunLoop(net, sha, l, xs) case None => None case Some(mid) => RunLoop(net, sha, mid, ys)
  {
    if ys == [] {
      assert xs + ys == xs;
    } else {
      assert (xs + ys)[..|xs + ys| - 1] == xs + ys[..|ys| - 1];
      RunSplit(net, sha, l, xs, ys[..|ys| - 1]);
    }
  }
}
