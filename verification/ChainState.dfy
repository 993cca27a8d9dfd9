/** ChainState with its fields, and apply_blocks as the loop that updates them. */
module ChainStateClass {
  import opened Arithmetic
  import opened Wrappers
  import opened Hashing
  import opened CompactTarget
  import opened MedianTime
  import opened Mmr
  import opened MmrSpec
  import opened HeaderChain

  class ChainState {
    const net: Network
    const sha: Sha
    const blockHashesMmr: MMRGuest
    var blockHeight: U32
    var totalWork: nat
    var bestBlockHash: Digest
    var currentTargetBits: U32
    var epochStartTime: U32
    var prev11Timestamps: Ring

    ghost predicate Valid()
      reads this, blockHashesMmr
    {
      blockHashesMmr.sha == sha && blockHashesMmr.size < U32_MODULUS
    }

    ghost function View(): State
      reads this, blockHashesMmr
      requires Valid()
    {
      State(blockHeight, totalWork, bestBlockHash, currentTargetBits, epochStartTime, prev11Timestamps,
            blockHashesMmr.subroots, blockHashesMmr.size)
    }

    constructor (net: Network, sha: Sha)
      ensures Valid() && View() == Genesis(net) && this.net == net && this.sha == sha
      ensures fresh(blockHashesMmr)
    {
      this.net, this.sha := net, sha;
      blockHashesMmr := new MMRGuest(sha);
      blockHeight, totalWork, bestBlockHash := U32_MODULUS - 1, 0, ZeroDigest();
      currentTargetBits, epochStartTime, prev11Timestamps := MaxBits(net), 0, seq(11, _ => 0);
      new;
      assert blockHashesMmr.subroots == Peaks(sha, []);
    }

    /** False where the source panics; otherwise the fields hold the specified state. */
    method ApplyBlocks(headers: seq<Header>) returns (ok: bool)
      requires Valid()
      modifies this, blockHashesMmr
      ensures ok <==> HeaderChain.ApplyBlocks(net, sha, old(View()), headers).Some?
      ensures ok ==> Valid() && View() == HeaderChain.ApplyBlocks(net, sha, old(View()), headers).value
    {
      ghost var start := Start(net, View());
      StartTarget(net, View());
      var currentTarget := ToBytes(if net.Regtest? then MaxTarget(net) else BitsToTarget(currentTargetBits));
      var currentWork := totalWork;
      var lastBlockTime: nat := 0;
      if net.Testnet4? && blockHeight != U32_MODULUS - 1 {
        lastBlockTime := prev11Timestamps[blockHeight % 11];
      }
      for i := 0 to |headers|
        invariant Valid()
        invariant RunLoop(net, sha, start, headers[..i]) ==
                  Some(Current(currentTarget, currentWork, lastBlockTime))
      {
        assert headers[..i + 1][..i] == headers[..i];
        ok, currentTarget, currentWork, lastBlockTime := ApplyBlock(headers[i], currentTarget, currentWork, lastBlockTime);
        if !ok {
          RunPrefix(net, sha, start, headers, i + 1);
          return;
        }
      }
      assert headers[..|headers|] == headers;
      totalWork := currentWork;
      return true;
    }

    /** The loop body: checks, bookkeeping, and the retarget at the end of an epoch. */
    method ApplyBlock(header: Header, currentTarget: Digest, currentWork: nat, lastBlockTime: nat)
        returns (ok: bool, newTarget: Digest, newWork: nat, newTime: nat)
      requires Valid()
      modifies this, blockHashesMmr
      ensures ok ==> Valid()
      ensures ApplyOne(net, sha, old(Current(currentTarget, currentWork, lastBlockTime)), header) ==
              if ok then Some(Current(newTarget, newWork, newTime)) else None
    {
      ghost var before := Current(currentTarget, currentWork, lastBlockTime);
      newTarget, newWork, newTime := currentTarget, currentWork, lastBlockTime;
      var checked, workToAdd := CheckBlock(header, currentTarget, currentWork, lastBlockTime);
      if !checked { return false, newTarget, newWork, newTime; }
      ok := RecordBlock(header, currentTarget, currentWork, lastBlockTime, workToAdd);
      if !ok { return; }
      newWork := Wrap256(currentWork + workToAdd);
      if net.Testnet4? { newTime := header.time; }
      assert View().(work := newWork) == Recorded(net, sha, before, header);
      if !net.Regtest? && blockHeight % BLOCKS_PER_EPOCH == BLOCKS_PER_EPOCH - 1 {
        ok, newTarget := Retarget(header.time, currentTarget);
      }
    }

    ghost function Current(target: Digest, work: nat, lastTime: nat): Loop
      reads this, blockHashesMmr
      requires Valid()
    {
      Loop(View().(work := work), BeValue(target), lastTime)
    }

    method CheckBlock(header: Header, currentTarget: Digest, ghost currentWork: nat, lastBlockTime: nat)
        returns (ok: bool, workToAdd: nat)
      requires Valid()
      ensures var l := Current(currentTarget, currentWork, lastBlockTime);
              workToAdd == Choose(net, l, header).work &&
              (Accepts1(net, sha, l, header) <==>
               ok && TrailingOnes(blockHashesMmr.size) <= |blockHashesMmr.subroots|)
    {
      ghost var l := Current(currentTarget, currentWork, lastBlockTime);
      var height := WrappingInc(blockHeight);
      var targetToUse, expectedBits := currentTarget, currentTargetBits;
      if net.Testnet4? && header.time > (lastBlockTime + 1200) % U32_MODULUS && height % BLOCKS_PER_EPOCH != 0 {
        targetToUse, expectedBits, workToAdd := ToBytes(MaxTarget(net)), MaxBits(net), MINIMUM_WORK_TESTNET;
      } else {
        workToAdd := CalculateWork(BeValue(currentTarget));
      }
      assert Choose(net, l, header) == Choice(BeValue(targetToUse), expectedBits, workToAdd);
      var hashOk := CheckHashValid(BlockHash(sha, header), targetToUse);
      ok := header.prevBlockHash == bestBlockHash &&
            header.bits == (if net.Regtest? then MaxBits(net) else expectedBits) &&
            hashOk &&
            ValidateTimestamp(header.time, prev11Timestamps);
    }

    method RecordBlock(header: Header, ghost currentTarget: Digest, ghost currentWork: nat, ghost lastBlockTime: nat,
                       ghost workToAdd: nat) returns (ok: bool)
      requires Valid()
      requires var l := Current(currentTarget, currentWork, lastBlockTime);
               workToAdd == Choose(net, l, header).work &&
               (Accepts1(net, sha, l, header) <==> TrailingOnes(blockHashesMmr.size) <= |blockHashesMmr.subroots|)
      modifies this, blockHashesMmr
      ensures ok <==> old(Accepts1(net, sha, Current(currentTarget, currentWork, lastBlockTime), header))
      ensures ok ==> Valid() && View().(work := Wrap256(currentWork + workToAdd)) ==
                                old(Recorded(net, sha, Current(currentTarget, currentWork, lastBlockTime), header))
    {
      var newBlockHash := BlockHash(sha, header);
      blockHeight := WrappingInc(blockHeight);
      ok := blockHashesMmr.Append(newBlockHash);
      if !ok { return; }
      bestBlockHash := newBlockHash;
      if !net.Regtest? && blockHeight % BLOCKS_PER_EPOCH == 0 {
        epochStartTime := header.time;
      }
      prev11Timestamps := prev11Timestamps[blockHeight % 11 := header.time];
    }

    method Retarget(time: U32, currentTarget: Digest) returns (ok: bool, newTarget: Digest)
      requires Valid()
      modifies this
      ensures BeValue(newTarget) == NewDifficulty(net, old(epochStartTime), time, old(currentTargetBits))
      ensures ok <==> TargetToBits(BeValue(newTarget)).Some?
      ensures ok ==> currentTargetBits == TargetToBits(BeValue(newTarget)).value
      ensures Valid() && View() == old(View()).(bits := currentTargetBits)
    {
      newTarget := ToBytes(NewDifficulty(net, epochStartTime, time, currentTargetBits));
      var bits := EncodeTarget(newTarget);
      ok := bits.Some?;
      if ok {
        CompactFits(BeValue(newTarget));
        currentTargetBits := bits.value;
      }
    }
  }

  lemma {:induction false} StartTarget(net: Network, st: State)
    ensures Start(net, st).target < U256_MODULUS
  {
    SmallShift(st.bits);
  }

  lemma {:induction false} SmallShift(bits: U32)
    ensures BitsToTarget(bits) < U256_MODULUS
  {
    var size, m := bits / 0x100_0000, bits % 0x100_0000;
    if size <= 3 { QuotientBound(m, Pow2(8 * (3 - size))); }
  }

  lemma {:induction false} QuotientBound(m: nat, d: nat)
    requires d > 0
    ensures m / d <= m
  {
    var q := m / d;
    MulMono(1, d, q);
    assert q * d <= m;
  }

  /** A run that panics on a prefix panics as a whole. */
  lemma {:induction false} RunPrefix(net: Network, sha: Sha, l: Loop, hs: seq<Header>, i: nat)
    requires i <= |hs|
    ensures RunLoop(net, sha, l, hs).Some? ==> RunLoop(net, sha, l, hs[..i]).Some?
  {
    assert hs == hs[..i] + hs[i..];
    RunSplit(net, sha, l, hs[..i], hs[i..]);
  }
}
