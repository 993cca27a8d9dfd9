/** Properties of whole runs of the header chain. */
module ChainRuns {
  import opened Arithmetic
  import opened Wrappers
  import opened Hashing
  import opened CompactTarget
  import opened MedianTime
  import opened MmrSpec
  import opened HeaderChain

  function Hashes(sha: Sha, hs: seq<Header>): (r: seq<Digest>)
    ensures |r| == |hs|
  {
    seq(|hs|, i requires 0 <= i < |hs| => BlockHash(sha, hs[i]))
  }

  /** The run of a header list from the initial state. */
  function FromGenesis(net: Network, sha: Sha, hs: seq<Header>): Option<Loop> {
    RunLoop(net, sha, Start(net, Genesis(net)), hs)
  }

  /** Sum of the work of every block of an accepted run, without reduction. */
  function TotalWork(net: Network, sha: Sha, hs: seq<Header>): nat
    requires FromGenesis(net, sha, hs).Some?
  {
    if hs == [] then 0
    else TotalWork(net, sha, hs[..|hs| - 1]) +
         Choose(net, FromGenesis(net, sha, hs[..|hs| - 1]).value, hs[|hs| - 1]).work
  }

  lemma {:induction false} HashesSnoc(sha: Sha, hs: seq<Header>)
    requires hs != []
    ensures Hashes(sha, hs) == Hashes(sha, hs[..|hs| - 1]) + [BlockHash(sha, hs[|hs| - 1])]
  {
  }

  /** An accepted block changes the recorded fields, and nothing else but the compact target. */
  lemma {:induction false} StepIsRecorded(net: Network, sha: Sha, l: Loop, h: Header)
    requires ApplyOne(net, sha, l, h).Some?
    ensures Accepts1(net, sha, l, h)
    ensures var st := ApplyOne(net, sha, l, h).value.st; st == Recorded(net, sha, l, h).(bits := st.bits)
  {
  }

  /** The fields after an accepted block, one by one. */
  lemma {:induction false} StepFields(net: Network, sha: Sha, l: Loop, h: Header)
    requires ApplyOne(net, sha, l, h).Some?
    ensures TrailingOnes(l.st.size) <= |l.st.subroots| && ValidateTimestamp(h.time, l.st.times)
    ensures var st := ApplyOne(net, sha, l, h).value.st;
            st.height == NextHeight(l.st) && st.best == BlockHash(sha, h) &&
            st.subroots == Merge(sha, l.st.subroots, l.st.size, BlockHash(sha, h)) &&
            st.size == WrappingInc(l.st.size) &&
            st.work == Wrap256(l.st.work + Choose(net, l, h).work) &&
            st.times == l.st.times[NextHeight(l.st) % 11 := h.time]
  {
    StepIsRecorded(net, sha, l, h);
    hide ApplyOne;
    hide Choose;
  }

  /** An accepted block after `leaves` accepted ones. */
  lemma {:induction false} StepAfter(net: Network, sha: Sha, l: Loop, h: Header, leaves: seq<Digest>)
    requires ApplyOne(net, sha, l, h).Some?
    requires l.st.subroots == Peaks(sha, leaves) && l.st.size == |leaves| < U32_MAX
    requires NextHeight(l.st) == |leaves|
    ensures var st := ApplyOne(net, sha, l, h).value.st;
            st.height == |leaves| && st.best == BlockHash(sha, h) &&
            st.subroots == Peaks(sha, leaves + [BlockHash(sha, h)]) && st.size == |leaves| + 1 &&
            NextHeight(st) == |leaves| + 1
  {
    StepFields(net, sha, l, h);
    hide ApplyOne;
    MergeIsAppend(sha, leaves, BlockHash(sha, h));
  }

  /** Height, tip and accumulated hashes after any accepted run. */
  lemma {:induction false} RunState(net: Network, sha: Sha, hs: seq<Header>)
    requires FromGenesis(net, sha, hs).Some? && |hs| <= U32_MAX
    ensures var st := FromGenesis(net, sha, hs).value.st;
            NextHeight(st) == |hs| && (hs != [] ==> st.height == |hs| - 1) &&
            st.best == (if hs == [] then ZeroDigest() else BlockHash(sha, hs[|hs| - 1])) &&
            st.subroots == Peaks(sha, Hashes(sha, hs)) && st.size == |hs|
  {
    hide ApplyOne;
    hide Choose;
    if hs == [] {
      assert Hashes(sha, hs) == [];
    } else {
      var n := |hs| - 1;
      var before := FromGenesis(net, sha, hs[..n]).value;
      RunState(net, sha, hs[..n]);
      StepAfter(net, sha, before, hs[n], Hashes(sha, hs[..n]));
      HashesSnoc(sha, hs);
    }
  }

  lemma {:induction false} LastBlock(net: Network, sha: Sha, hs: seq<Header>)
    requires FromGenesis(net, sha, hs).Some? && hs != []
    ensures FromGenesis(net, sha, hs[..|hs| - 1]).Some?
    ensures FromGenesis(net, sha, hs) ==
            ApplyOne(net, sha, FromGenesis(net, sha, hs[..|hs| - 1]).value, hs[|hs| - 1])
    ensures TotalWork(net, sha, hs) == TotalWork(net, sha, hs[..|hs| - 1]) +
                                       Choose(net, FromGenesis(net, sha, hs[..|hs| - 1]).value, hs[|hs| - 1]).work
  {
    hide ApplyOne;
    hide Choose;
    hide Start;
  }

  lemma {:induction false} NoBlocks(net: Network, sha: Sha)
    ensures FromGenesis(net, sha, []).Some? && FromGenesis(net, sha, []).value.st.work == Wrap256(TotalWork(net, sha, []))
  {
    hide ApplyOne;
    hide BitsToTarget;
    hide Choose;
    Wrap256Small(0);
  }

  /** The stored work is the sum of the works modulo 2^256. */
  lemma {:induction false} RunWork(net: Network, sha: Sha, hs: seq<Header>)
    requires FromGenesis(net, sha, hs).Some?
    ensures FromGenesis(net, sha, hs).value.st.work == Wrap256(TotalWork(net, sha, hs))
  {
    hide *;
    if hs == [] {
      NoBlocks(net, sha);
    } else {
      var n := |hs| - 1;
      LastBlock(net, sha, hs);
      RunWork(net, sha, hs[..n]);
      var before := FromGenesis(net, sha, hs[..n]).value;
      StepFields(net, sha, before, hs[n]);
      WrapAdd(TotalWork(net, sha, hs[..n]), Choose(net, before, hs[n]).work);
    }
  }

  /** What an accepted block satisfies, given the tip and the loop state before it: it links, it carries the compact target due,
      its hash meets the target due, and its time is above the median. A testnet4 block more than 20 minutes late that opens no
      epoch is due the network's cap, as every regtest block is. */
  predicate BlockMeets(net: Network, sha: Sha, tip: Digest, l: Loop, h: Header) {
    var late := net.Testnet4? && h.time > (l.lastTime + 1200) % U32_MODULUS && NextHeight(l.st) % BLOCKS_PER_EPOCH != 0;
    h.prevBlockHash == tip && h.bits == (if net.Regtest? || late then MaxBits(net) else l.st.bits) &&
    LeValue(BlockHash(sha, h)) <= (if late then MaxTarget(net) else l.target) && h.time > Median(l.st.times)
  }

  function TipBefore(sha: Sha, hs: seq<Header>, i: nat): Digest
    requires i < |hs|
  {
    if i == 0 then ZeroDigest() else BlockHash(sha, hs[i - 1])
  }

  predicate BlockOk(net: Network, sha: Sha, hs: seq<Header>, i: nat)
    requires i < |hs|
  {
    FromGenesis(net, sha, hs[..i]).Some? &&
    BlockMeets(net, sha, TipBefore(sha, hs, i), FromGenesis(net, sha, hs[..i]).value, hs[i])
  }

  lemma {:induction false} EveryBlockOk(net: Network, sha: Sha, hs: seq<Header>, i: nat)
    requires FromGenesis(net, sha, hs).Some? && i < |hs| <= U32_MAX
    ensures BlockOk(net, sha, hs, i)
  {
    hide FromGenesis;
    hide ApplyOne;
    hide Accepts1;
    hide BlockMeets;
    hide Peaks;
    PrefixRuns(net, sha, hs, i + 1);
    LastBlock(net, sha, hs[..i + 1]);
    assert hs[..i + 1][..i] == hs[..i];
    RunState(net, sha, hs[..i]);
    assert i > 0 ==> hs[..i][i - 1] == hs[i - 1];
    var before := FromGenesis(net, sha, hs[..i]).value;
    StepIsRecorded(net, sha, before, hs[i]);
    AcceptedMeets(net, sha, before, hs[i]);
  }

  lemma {:induction false} PrefixRuns(net: Network, sha: Sha, hs: seq<Header>, i: nat)
    requires FromGenesis(net, sha, hs).Some? && i <= |hs|
    ensures FromGenesis(net, sha, hs[..i]).Some?
  {
    hide RunLoop;
    hide Start;
    assert hs == hs[..i] + hs[i..];
    RunSplit(net, sha, Start(net, Genesis(net)), hs[..i], hs[i..]);
  }

  lemma {:induction false} AcceptedMeets(net: Network, sha: Sha, l: Loop, h: Header)
    requires Accepts1(net, sha, l, h)
    ensures BlockMeets(net, sha, l.st.best, l, h)
  {
    hide LeValue;
    hide BlockHash;
    hide Median;
    hide CalculateWork;
  }

  /** Any accepted run from the initial state: headers link, each hash meets its target, each time is above the
      median, the height counts blocks, work adds up modulo 2^256, and the accumulator holds the block hashes in
      order. */
  lemma {:induction false} AcceptedRun(net: Network, sha: Sha, hs: seq<Header>)
    requires 0 < |hs| <= U32_MAX && ApplyBlocks(net, sha, Genesis(net), hs).Some?
    ensures FromGenesis(net, sha, hs).Some?
    ensures var st := ApplyBlocks(net, sha, Genesis(net), hs).value;
            st.height == |hs| - 1 && st.best == BlockHash(sha, hs[|hs| - 1]) &&
            st.work == Wrap256(TotalWork(net, sha, hs)) &&
            st.subroots == Peaks(sha, Hashes(sha, hs)) && st.size == |hs|
    ensures forall i: nat :: i < |hs| ==> BlockOk(net, sha, hs, i)
  {
    RunState(net, sha, hs);
    RunWork(net, sha, hs);
    forall i: nat | i < |hs| ensures BlockOk(net, sha, hs, i) { EveryBlockOk(net, sha, hs, i); }
  }

  // ---------- median time ----------

  function Wrap32(n: nat): (r: U32) {
    n % U32_MODULUS
  }

  lemma {:induction false} Wrap32Small(n: U32)
    ensures Wrap32(n) == n
  {
  }

  lemma {:induction false} Wrap32Inc(n: nat)
    ensures WrappingInc(Wrap32(n)) == Wrap32(n + 1)
  {
    var r := n % U32_MODULUS;
    if r + 1 == U32_MODULUS {
      DivModUnique(n + 1, U32_MODULUS, n / U32_MODULUS + 1, 0);
    } else {
      DivModUnique(n + 1, U32_MODULUS, n / U32_MODULUS, r + 1);
    }
  }

  lemma {:induction false} RunHeight(net: Network, sha: Sha, l: Loop, hs: seq<Header>)
    requires RunLoop(net, sha, l, hs).Some?
    ensures RunLoop(net, sha, l, hs).value.st.height == Wrap32(l.st.height + |hs|)
  {
    hide ApplyOne;
    hide Wrap32;
    if hs != [] {
      var n := |hs| - 1;
      RunHeight(net, sha, l, hs[..n]);
      StepFields(net, sha, RunLoop(net, sha, l, hs[..n]).value, hs[n]);
      Wrap32Inc(l.st.height + n);
    } else {
      Wrap32Small(l.st.height);
    }
  }

  /** The median never decreases, whatever the height does. */
  lemma {:induction false} MedianMonotone(net: Network, sha: Sha, l: Loop, hs: seq<Header>)
    requires RunLoop(net, sha, l, hs).Some?
    ensures Median(RunLoop(net, sha, l, hs).value.st.times) >= Median(l.st.times)
  {
    if hs != [] {
      var n := |hs| - 1;
      MedianMonotone(net, sha, l, hs[..n]);
      var before := RunLoop(net, sha, l, hs[..n]).value;
      MedianNeverDecreases(before.st.times, NextHeight(before.st) % 11, hs[n].time);
    }
  }

  /** The slots of the next n blocks filled with times above m; the rest of the array as it was. */
  function Marked(times: Ring, height: U32, n: nat, m: nat): Ring {
    if n == 0 then times else Marked(times, height, n - 1, m)[Wrap32(height + n) % 11 := m + 1]
  }

  /** Whatever the accepted timestamps are, they exceed the median at the start. */
  lemma {:induction false} BlocksMark(net: Network, sha: Sha, l: Loop, hs: seq<Header>, i: nat)
    requires RunLoop(net, sha, l, hs).Some? && i < 11
    ensures var m := Median(l.st.times);
            RunLoop(net, sha, l, hs).value.st.times[i] > m <==> Marked(l.st.times, l.st.height, |hs|, m)[i] > m
  {
    hide ApplyOne;
    hide Median;
    hide Wrap32;
    if hs != [] {
      var n := |hs| - 1;
      BlocksMark(net, sha, l, hs[..n], i);
      MedianMonotone(net, sha, l, hs[..n]);
      RunHeight(net, sha, l, hs[..n]);
      Wrap32Inc(l.st.height + n);
      StepFields(net, sha, RunLoop(net, sha, l, hs[..n]).value, hs[n]);
    }
  }

  /** The median rises exactly when six entries exceed it once the slots of the blocks are filled, so when depends only on
      the array, the height and the number of blocks. */
  lemma {:induction false} MedianRisesExactly(net: Network, sha: Sha, l: Loop, hs: seq<Header>)
    requires RunLoop(net, sha, l, hs).Some?
    ensures var m := Median(l.st.times);
            Median(RunLoop(net, sha, l, hs).value.st.times) > m <==> Above(Marked(l.st.times, l.st.height, |hs|, m), m) >= 6
  {
    hide Median;
    hide Above;
    hide Marked;
    var m, after := Median(l.st.times), RunLoop(net, sha, l, hs).value.st.times;
    var marked := Marked(l.st.times, l.st.height, |hs|, m);
    forall i: nat | i < 11 ensures after[i] > m <==> marked[i] > m { BlocksMark(net, sha, l, hs, i); }
    hide RunLoop;
    SameAbove(after, marked, m);
    MedianAbove(after, m);
  }

  lemma {:induction false} MarkedSlot(times: Ring, height: U32, n: nat, m: nat, k: nat)
    requires 0 < k <= n
    ensures Marked(times, height, n, m)[Wrap32(height + k) % 11] == m + 1
  {
    hide Wrap32;
    if k < n { MarkedSlot(times, height, n - 1, m, k); }
  }

  /** Blocks that fill six different slots raise the median. */
  lemma {:induction false} SixSlotsRaiseMedian(net: Network, sha: Sha, l: Loop, hs: seq<Header>, blocks: seq<nat>)
    requires RunLoop(net, sha, l, hs).Some? && |blocks| == 6 && forall i :: 0 <= i < 6 ==> 0 < blocks[i] <= |hs|
    requires forall i, j :: 0 <= i < j < 6 ==> Wrap32(l.st.height + blocks[i]) % 11 != Wrap32(l.st.height + blocks[j]) % 11
    ensures Median(RunLoop(net, sha, l, hs).value.st.times) > Median(l.st.times)
  {
    hide RunLoop;
    hide Median;
    hide Above;
    hide Marked;
    hide Wrap32;
    var m := Median(l.st.times);
    var slots: seq<nat> := seq(6, i requires 0 <= i < 6 => Wrap32(l.st.height + blocks[i]) % 11);
    forall i | 0 <= i < 6 ensures Marked(l.st.times, l.st.height, |hs|, m)[slots[i]] > m {
      MarkedSlot(l.st.times, l.st.height, |hs|, m, blocks[i]);
    }
    ManyAbove(Marked(l.st.times, l.st.height, |hs|, m), slots, m);
    MedianRisesExactly(net, sha, l, hs);
  }

  lemma {:induction false} NextHeights(l: Loop, k: nat)
    ensures Wrap32(l.st.height + 1 + k) == Wrap32(NextHeight(l.st) + k)
  {
    if l.st.height + 1 == U32_MODULUS { assert (U32_MODULUS + k) % U32_MODULUS == k % U32_MODULUS; }
  }

  /** Six blocks do, as long as the height does not wrap in between. */
  lemma {:induction false} MedianProgress(net: Network, sha: Sha, l: Loop, hs: seq<Header>)
    requires RunLoop(net, sha, l, hs).Some? && |hs| >= 6 && NextHeight(l.st) + 6 <= U32_MODULUS
    ensures Median(RunLoop(net, sha, l, hs).value.st.times) > Median(l.st.times)
  {
    hide RunLoop;
    hide Median;
    var blocks: seq<nat> := [1, 2, 3, 4, 5, 6];
    forall i: nat | i < 6 ensures Wrap32(l.st.height + blocks[i]) == NextHeight(l.st) + i {
      NextHeights(l, i);
      Wrap32Small(NextHeight(l.st) + i);
    }
    hide Wrap32;
    hide NextHeight;
    SixSlotsRaiseMedian(net, sha, l, hs, blocks);
  }

  /** Ten blocks do, whatever the height does. */
  lemma {:induction false} TenBlocksRaiseMedian(net: Network, sha: Sha, l: Loop, hs: seq<Header>)
    requires RunLoop(net, sha, l, hs).Some? && |hs| >= 10
    ensures Median(RunLoop(net, sha, l, hs).value.st.times) > Median(l.st.times)
  {
    hide RunLoop;
    hide Median;
    var next := NextHeight(l.st);
    if next + 6 <= U32_MODULUS {
      MedianProgress(net, sha, l, hs);
    } else {
      // c blocks come before the wrap; after it the slots are 0, 1, 2, ...
      var c := U32_MODULUS - next;
      var blocks: seq<nat> := if c == 5 then [1, 6, 7, 8, 9, 10] else [c + 1, c + 2, c + 3, c + 4, c + 5, c + 6];
      forall i: nat | i < 6
        ensures Wrap32(l.st.height + blocks[i]) % 11 == if c < 5 then i else if i == 0 then 10 else i - 1
      {
        NextHeights(l, blocks[i] - 1);
        AcrossWrap(next, blocks[i] - 1);
      }
      hide Wrap32;
      hide NextHeight;
      SixSlotsRaiseMedian(net, sha, l, hs, blocks);
    }
  }

  lemma {:induction false} AcrossWrap(next: U32, k: nat)
    requires U32_MODULUS <= next + 5 && k < 10
    ensures Wrap32(next + k) == if next + k < U32_MODULUS then next + k else next + k - U32_MODULUS
  {
  }

  /** The array holds the last eleven timestamps. */
  lemma {:induction false} RingHoldsLatest(net: Network, sha: Sha, hs: seq<Header>, k: nat)
    requires FromGenesis(net, sha, hs).Some? && |hs| <= U32_MAX && k < |hs| <= k + 11
    ensures FromGenesis(net, sha, hs).value.st.times[k % 11] == hs[k].time
  {
    hide FromGenesis;
    hide ApplyOne;
    hide Peaks;
    hide Choose;
    hide Merge;
    hide ValidateTimestamp;
    hide TrailingOnes;
    hide BlockHash;
    var n := |hs| - 1;
    LastBlock(net, sha, hs);
    var before := FromGenesis(net, sha, hs[..n]).value;
    RunState(net, sha, hs[..n]);
    StepFields(net, sha, before, hs[n]);
    if k < n {
      RingHoldsLatest(net, sha, hs[..n], k);
      DistinctSlots(k, n);
      assert hs[..n][k] == hs[k];
    }
  }

  // ---------- targets and retargeting ----------

  /** How far below 2^256 the mantissa of a network's cap is placed. */
  function CapShift(net: Network): nat {
    match net case Signet => 40 case Regtest => 24 case _ => 48
  }

  function CapUnit(net: Network): nat {
    match net case Signet => 0x100_0000_0000 case Regtest => 0x100_0000 case _ => 0x1_0000_0000_0000
  }

  lemma {:induction false} CapPower(net: Network)
    ensures Pow2(CapShift(net)) == CapUnit(net)
  {
    hide Pow2;
    Pow2Small();
    Pow2Add(16, 24);
    Pow2Add(24, 24);
  }

  lemma {:induction false} CapForm(net: Network)
    ensures MaxBits(net) % 0x100_0000 * U256_MODULUS == MaxTarget(net) * CapUnit(net)
    ensures 3 <= MaxBits(net) / 0x100_0000 <= 32 && 8 * (MaxBits(net) / 0x100_0000 - 3) == 256 - CapShift(net)
    ensures MaxBits(net) % 0x100_0000 < 0x80_0000
  {
  }

  /** The caps: difficulty one on mainnet and testnet4, lower ones on signet and regtest. */
  lemma {:induction false} CapsWritten()
    ensures MaxTarget(Mainnet) == MaxTarget(Testnet4) == 0xFFFF * Pow2(208)
    ensures MaxTarget(Signet) == 0x3_77AE * Pow2(216) && MaxTarget(Regtest) == 0x7F_FFFF * Pow2(232)
  {
    hide BitsToTarget;
    hide MaxTarget;
    MaxBitsDecode(Mainnet);
    MaxBitsDecode(Testnet4);
    MaxBitsDecode(Signet);
    MaxBitsDecode(Regtest);
    hide Pow2;
    DecodeParts(29, 0xFFFF);
    DecodeParts(30, 0x3_77AE);
    DecodeParts(32, 0x7F_FFFF);
  }

  /** The compact constant of each network decodes to its target constant. */
  lemma {:induction false} MaxBitsDecode(net: Network)
    ensures BitsToTarget(MaxBits(net)) == MaxTarget(net)
  {
    hide Pow2;
    hide BitsToTarget;
    hide MaxTarget;
    hide CapUnit;
    CapForm(net);
    hide MaxBits;
    var size, m := MaxBits(net) / 0x100_0000, MaxBits(net) % 0x100_0000;
    DecodeParts(size, m);
    U256Powers();
    CapPower(net);
    Pow2Add(256 - CapShift(net), CapShift(net));
    ScaleDown(m, Pow2(256 - CapShift(net)), Pow2(CapShift(net)), MaxTarget(net));
  }

  /** A multiple of 2^256 divided by the small cofactor. */
  lemma {:induction false} ScaleDown(m: nat, a: nat, b: nat, t: nat)
    requires b > 0 && a * b == U256_MODULUS && m * U256_MODULUS == t * b
    ensures m * a == t
  {
    MulAssoc(m, a, b);
    assert (m * a - t) * b == 0;
    if m * a > t { MulMono(1, m * a - t, b); }
    if m * a < t { MulMono(m * a - t, -1, b); }
  }

  /** Everywhere in a run: the compact target decodes to at most the uncompressed one, which is at most the cap. */
  lemma {:induction false} TargetsCapped(net: Network, sha: Sha, st: State, hs: seq<Header>)
    requires RunLoop(net, sha, Start(net, st), hs).Some? && BitsToTarget(st.bits) <= MaxTarget(net)
    ensures var l := RunLoop(net, sha, Start(net, st), hs).value;
            BitsToTarget(l.st.bits) <= l.target <= MaxTarget(net)
  {
    if hs != [] {
      var n := |hs| - 1;
      TargetsCapped(net, sha, st, hs[..n]);
      var before := RunLoop(net, sha, Start(net, st), hs[..n]).value;
      StepTarget(net, sha, before, hs[n]);
    }
  }

  lemma {:induction false} StepTarget(net: Network, sha: Sha, l: Loop, h: Header)
    requires ApplyOne(net, sha, l, h).Some?
    ensures var l' := ApplyOne(net, sha, l, h).value;
            (l'.st.bits == l.st.bits && l'.target == l.target) ||
            (!net.Regtest? && NextHeight(l.st) % BLOCKS_PER_EPOCH == BLOCKS_PER_EPOCH - 1 &&
             BitsToTarget(l'.st.bits) <= l'.target <= MaxTarget(net))
  {
    var l' := ApplyOne(net, sha, l, h).value;
    if !net.Regtest? && NextHeight(l.st) % BLOCKS_PER_EPOCH == BLOCKS_PER_EPOCH - 1 {
      EncoderDomain(l'.target);
      EncodeThenDecode(l'.target);
    }
  }

  /** Every reachable compact target decodes to at most the network's cap. */
  lemma {:induction false} ReachableTargetsCapped(net: Network, sha: Sha, hs: seq<Header>)
    requires ApplyBlocks(net, sha, Genesis(net), hs).Some?
    ensures BitsToTarget(ApplyBlocks(net, sha, Genesis(net), hs).value.bits) <= MaxTarget(net)
  {
    MaxBitsDecode(net);
    TargetsCapped(net, sha, Genesis(net), hs);
  }

  /** Below the cap the 256-bit product never wraps, on the networks that retarget. */
  lemma {:induction false} ProductFits(net: Network, t: nat, timespan: nat)
    requires !net.Regtest? && t <= MaxTarget(net) && timespan <= 4 * EXPECTED_EPOCH_TIMESPAN
    ensures t * timespan < U256_MODULUS
  {
    MulMono(t, MaxTarget(net), timespan);
    MulMono(timespan, 4 * EXPECTED_EPOCH_TIMESPAN, MaxTarget(net));
  }

  function Min(a: int, b: int): int {
    if a < b then a else b
  }

  function Clamp(x: int, lo: int, hi: int): int {
    if x < lo then lo else if x > hi then hi else x
  }

  /** Ordered, or so far apart that the 32-bit difference comes round to a short one. */
  predicate Scalable(epochStart: U32, last: U32) {
    epochStart <= last || epochStart - last >= U32_MODULUS - EXPECTED_EPOCH_TIMESPAN / 4
  }

  /** On every reachable state and such timestamps, the new target is the old one scaled by the clamped
      timespan, rounded down and capped; so it changes by a factor between 1/4 and 4. */
  lemma {:induction false} RetargetScales(net: Network, sha: Sha, hs: seq<Header>, epochStart: U32, last: U32)
    requires !net.Regtest? && ApplyBlocks(net, sha, Genesis(net), hs).Some? && Scalable(epochStart, last)
    ensures var bits := ApplyBlocks(net, sha, Genesis(net), hs).value.bits;
            var old', e := BitsToTarget(bits), EXPECTED_EPOCH_TIMESPAN;
            var new' := NewDifficulty(net, epochStart, last, bits);
            new' == Min(MaxTarget(net), old' * Clamp(last - epochStart, e / 4, 4 * e) / e) &&
            old' / 4 <= new' <= 4 * old'
  {
    ReachableTargetsCapped(net, sha, hs);
    var t := BitsToTarget(ApplyBlocks(net, sha, Genesis(net), hs).value.bits);
    var ts := Timespan(epochStart, last);
    TimespanExact(epochStart, last);
    hide Retargeted;
    hide ApplyBlocks;
    hide Timespan;
    ScaleIsRetarget(net, t, ts);
    ScaleBounds(t, ts);
  }

  /** The timespan is the clamped difference exactly of such timestamps. For all others the difference that the clamp sees
      is too large by 2^32; so an epoch that ends before it starts counts as long, unless it is nearly 2^32 seconds before. */
  lemma {:induction false} TimespanExact(epochStart: U32, last: U32)
    ensures var e := EXPECTED_EPOCH_TIMESPAN;
            (Timespan(epochStart, last) == Clamp(last - epochStart, e / 4, 4 * e) <==> Scalable(epochStart, last)) &&
            (last < epochStart ==> Timespan(epochStart, last) == Clamp(last - epochStart + U32_MODULUS, e / 4, 4 * e))
  {
    if epochStart <= last {
      DivModUnique(last - epochStart, U32_MODULUS, 0, last - epochStart);
    } else {
      assert (last - epochStart) % U32_MODULUS == last - epochStart + U32_MODULUS;
    }
  }

  lemma {:induction false} ScaleIsRetarget(net: Network, t: nat, ts: nat)
    requires !net.Regtest? && t <= MaxTarget(net) && ts <= 4 * EXPECTED_EPOCH_TIMESPAN
    ensures Retargeted(net, t, ts) == Min(MaxTarget(net), t * ts / EXPECTED_EPOCH_TIMESPAN)
  {
    ProductFits(net, t, ts);
    DivModUnique(t * ts, U256_MODULUS, 0, t * ts);
  }

  lemma {:induction false} ScaleBounds(t: nat, ts: nat)
    requires EXPECTED_EPOCH_TIMESPAN / 4 <= ts <= 4 * EXPECTED_EPOCH_TIMESPAN
    ensures t / 4 <= t * ts / EXPECTED_EPOCH_TIMESPAN <= 4 * t
  {
    MulMono(EXPECTED_EPOCH_TIMESPAN / 4, ts, t);
    MulMono(ts, 4 * EXPECTED_EPOCH_TIMESPAN, t);
    var p := t * ts;
    assert 302400 * t <= p <= 4838400 * t;
    assert p / 1209600 >= t / 4;
  }
}
