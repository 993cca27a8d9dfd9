/** What a Merkle mountain range is: the levels above a list of leaves, its peaks, and inclusion paths.
    Everything is defined by recursion on one level, so that no power of two is needed to state it. */
module MmrSpec {
  import opened Arithmetic
  import opened Hashing

  const U32_MAX := 0xFFFF_FFFF

  datatype MMRInclusionProof = MMRInclusionProof(subrootIdx: nat, internalIdx: nat, inclusionProof: seq<Digest>)

  /** The complete pairs of a level, hashed; an odd last node stays behind as a peak. */
  function Up(sha: Sha, level: seq<Digest>): (r: seq<Digest>)
    ensures |r| == |level| / 2
  {
    seq(|level| / 2, i requires 0 <= i < |level| / 2 => HashPair(sha, level[2 * i], level[2 * i + 1]))
  }

  /** Every level from the leaves to the first one that has at most one node. */
  function Levels(sha: Sha, leaves: seq<Digest>): (r: seq<seq<Digest>>)
    ensures |r| >= 1 && r[0] == leaves
    decreases |leaves|
  {
    if |leaves| <= 1 then [leaves] else [leaves] + Levels(sha, Up(sha, leaves))
  }

  /** The roots of the maximal perfect subtrees, tallest first. */
  function Peaks(sha: Sha, level: seq<Digest>): seq<Digest>
    decreases |level|
  {
    if level == [] then []
    else Peaks(sha, Up(sha, level)) + OddLast(level)
  }

  function OddLast(level: seq<Digest>): seq<Digest> {
    if |level| % 2 == 1 then [level[|level| - 1]] else []
  }

  /** Node i is the peak of its level. */
  predicate IsPeak(n: nat, i: nat) {
    n % 2 == 1 && i == n - 1
  }

  /** Height of the subtree that holds leaf i in a range of n leaves. */
  function Height(n: nat, i: nat): nat
    requires i < n
    decreases n
  {
    if IsPeak(n, i) then 0 else 1 + Height(n / 2, i / 2)
  }

  /** Number of peaks taller than the one above leaf i. */
  function PeakIndex(n: nat, i: nat): nat
    requires i < n
    decreases n
  {
    if IsPeak(n, i) then Ones(n / 2) else PeakIndex(n / 2, i / 2)
  }

  function Sibling(i: nat): nat {
    if i % 2 == 0 then i + 1 else i - 1
  }

  /** The siblings met on the way from node i up to its peak. */
  function Path(sha: Sha, level: seq<Digest>, i: nat): (r: seq<Digest>)
    requires i < |level|
    ensures |r| == Height(|level|, i)
    decreases |level|
  {
    if IsPeak(|level|, i) then []
    else [level[Sibling(i)]] + Path(sha, Up(sha, level), i / 2)
  }

  /** One hashing step: bit 0 puts the running hash on the left. */
  function Combine(sha: Sha, isLeft: bool, current: Digest, sibling: Digest): Digest {
    if isLeft then HashPair(sha, current, sibling) else HashPair(sha, sibling, current)
  }

  /** Hash up a path, reading the position bits of idx from the least significant one. */
  function Climb(sha: Sha, current: Digest, idx: nat, path: seq<Digest>): Digest
    decreases |path|
  {
    if path == [] then current
    else Climb(sha, Combine(sha, idx % 2 == 0, current, path[0]), idx / 2, path[1..])
  }

  /** The verifier's loop from step i on. The shift `1 << i` of a 32-bit word takes its amount modulo 32. */
  function FoldFrom(sha: Sha, current: Digest, idx: nat, path: seq<Digest>, i: nat): Digest
    requires i <= |path|
    decreases |path| - i
  {
    if i == |path| then current
    else FoldFrom(sha, Combine(sha, BitAnd(idx, Pow2(i % 32)) == 0, current, path[i]), idx, path, i + 1)
  }

  predicate Accepts(sha: Sha, subroots: seq<Digest>, leaf: Digest, proof: MMRInclusionProof) {
    proof.subrootIdx < |subroots| &&
    subroots[proof.subrootIdx] == FoldFrom(sha, leaf, proof.internalIdx, proof.inclusionProof, 0)
  }

  function ProofFor(sha: Sha, leaves: seq<Digest>, i: nat): MMRInclusionProof
    requires i < |leaves|
  {
    MMRInclusionProof(PeakIndex(|leaves|, i), i % Pow2(Height(|leaves|, i)), Path(sha, leaves, i))
  }

  // ---------- appending ----------

  /** Appending to a level of even size adds no complete pair; to one of odd size it completes the last. */
  lemma {:induction false} UpAppend(sha: Sha, level: seq<Digest>, x: Digest)
    ensures |level| % 2 == 0 ==> Up(sha, level + [x]) == Up(sha, level)
    ensures |level| % 2 == 1 ==>
              Up(sha, level + [x]) == Up(sha, level) + [HashPair(sha, level[|level| - 1], x)]
  {
  }

  /** Number of one bits at the low end of n. */
  function TrailingOnes(n: nat): nat {
    if n % 2 == 1 then 1 + TrailingOnes(n / 2) else 0
  }

  lemma {:induction false} TrailingOnesAreOnes(n: nat)
    ensures TrailingOnes(n) <= Ones(n)
  {
    if n > 0 { TrailingOnesAreOnes(n / 2); }
  }

  /** The guest's merge loop: pop a peak for every trailing one bit of the size. */
  function Merge(sha: Sha, subroots: seq<Digest>, size: nat, current: Digest): (r: seq<Digest>)
    requires TrailingOnes(size) <= |subroots|
    decreases size
  {
    if size % 2 == 1 then
      Merge(sha, subroots[..|subroots| - 1], size / 2, HashPair(sha, subroots[|subroots| - 1], current))
    else subroots + [current]
  }

  lemma {:induction false} PeakCount(sha: Sha, level: seq<Digest>)
    ensures |Peaks(sha, level)| == Ones(|level|)
    decreases |level|
  {
    if level != [] { PeakCount(sha, Up(sha, level)); }
  }

  /** Merging into the peaks of a range gives the peaks of the extended range. */
  lemma {:induction false} MergeIsAppend(sha: Sha, level: seq<Digest>, x: Digest)
    ensures TrailingOnes(|level|) <= |Peaks(sha, level)|
    ensures Merge(sha, Peaks(sha, level), |level|, x) == Peaks(sha, level + [x])
    decreases |level|
  {
    PeakCount(sha, level);
    TrailingOnesAreOnes(|level|);
    UpAppend(sha, level, x);
    if |level| % 2 == 1 {
      var last := level[|level| - 1];
      var above := Peaks(sha, Up(sha, level));
      assert Peaks(sha, level)[..|above|] == above;
      MergeIsAppend(sha, Up(sha, level), HashPair(sha, last, x));
      assert OddLast(level + [x]) == [];
      assert Peaks(sha, level + [x]) == Peaks(sha, Up(sha, level + [x]));
    } else {
      assert Peaks(sha, level) == Peaks(sha, Up(sha, level));
      assert OddLast(level + [x]) == [x];
    }
  }

  // ---------- completeness of inclusion proofs ----------

  /** A node and its sibling hash to their parent. */
  lemma {:induction false} ParentOf(sha: Sha, level: seq<Digest>, i: nat)
    requires i < |level| && !IsPeak(|level|, i)
    ensures Sibling(i) < |level| && i / 2 < |level| / 2
    ensures Combine(sha, i % 2 == 0, level[i], level[Sibling(i)]) == Up(sha, level)[i / 2]
  {
    if i % 2 == 0 { assert i == 2 * (i / 2); } else { assert i == 2 * (i / 2) + 1; }
  }

  /** The peaks above a level are the first peaks of the level. */
  lemma {:induction false} PeaksAbove(sha: Sha, level: seq<Digest>, k: nat)
    requires k < |Peaks(sha, Up(sha, level))|
    ensures k < |Peaks(sha, level)| && Peaks(sha, level)[k] == Peaks(sha, Up(sha, level))[k]
  {
  }

  lemma {:induction false} ClimbReachesPeak(sha: Sha, level: seq<Digest>, i: nat)
    requires i < |level|
    ensures PeakIndex(|level|, i) < |Peaks(sha, level)|
    ensures Climb(sha, level[i], i, Path(sha, level, i)) == Peaks(sha, level)[PeakIndex(|level|, i)]
    decreases |level|
  {
    var above := Up(sha, level);
    if IsPeak(|level|, i) {
      PeakCount(sha, above);
      assert Peaks(sha, level) == Peaks(sha, above) + [level[i]];
    } else {
      ParentOf(sha, level, i);
      ClimbReachesPeak(sha, above, i / 2);
      PeaksAbove(sha, level, PeakIndex(|above|, i / 2));
      var path := Path(sha, level, i);
      assert path[0] == level[Sibling(i)] && path[1..] == Path(sha, above, i / 2);
      assert Climb(sha, level[i], i, path) == Climb(sha, above[i / 2], i / 2, path[1..]);
    }
  }

  lemma {:induction false} ClimbReadsLowBits(sha: Sha, current: Digest, idx: nat, path: seq<Digest>)
    ensures Climb(sha, current, idx, path) == Climb(sha, current, idx % Pow2(|path|), path)
    decreases |path|
  {
    if path != [] {
      var m := Pow2(|path| - 1);
      DoubleMod(idx / 2, idx % 2, m);
      var low := idx % (2 * m);
      assert low == 2 * (idx / 2 % m) + idx % 2;
      ClimbReadsLowBits(sha, Combine(sha, idx % 2 == 0, current, path[0]), idx / 2, path[1..]);
    }
  }

  lemma {:induction false} FoldIsClimb(sha: Sha, current: Digest, idx: nat, path: seq<Digest>, i: nat)
    requires i <= |path| <= 32
    ensures FoldFrom(sha, current, idx, path, i) == Climb(sha, current, Shr(idx, i), path[i..])
    decreases |path| - i
  {
    if i < |path| {
      BitAndBit(idx, i);
      assert path[i..][0] == path[i] && path[i..][1..] == path[i + 1..];
      FoldIsClimb(sha, Combine(sha, BitAnd(idx, Pow2(i)) == 0, current, path[i]), idx, path, i + 1);
    }
  }

  lemma {:induction false} HeightBound(n: nat, i: nat)
    requires i < n
    ensures Pow2(Height(n, i)) <= n
    decreases n
  {
    if !IsPeak(n, i) { HeightBound(n / 2, i / 2); }
  }

  lemma {:induction false} HeightFitsU32(n: nat, i: nat)
    requires i < n <= U32_MAX
    ensures Height(n, i) < 32
  {
    HeightBound(n, i);
    if Height(n, i) >= 32 {
      Pow2Mono(32, Height(n, i));
      Pow2Of32();
    }
  }

  /** The generated proof of every leaf of every range is accepted against that range's peaks. */
  lemma {:induction false} ProofComplete(sha: Sha, leaves: seq<Digest>, i: nat)
    requires i < |leaves| <= U32_MAX
    ensures Accepts(sha, Peaks(sha, leaves), leaves[i], ProofFor(sha, leaves, i))
  {
    var path := Path(sha, leaves, i);
    HeightFitsU32(|leaves|, i);
    ClimbReachesPeak(sha, leaves, i);
    ClimbReadsLowBits(sha, leaves[i], i, path);
    var idx := i % Pow2(|path|);
    FoldIsClimb(sha, leaves[i], idx, path, 0);
    assert path[0..] == path;
  }

  // ---------- the bit tricks of get_helpers_from_index ----------

  lemma {:induction false} XorSelf(a: nat)
    ensures BitXor(a, a) == 0
  {
    if a > 0 { XorSelf(a / 2); }
  }

  /** The proof loop stops at the level of the top bit in which the size and the index differ. */
  lemma {:induction false} HeightIsTopDifferingBit(n: nat, i: nat)
    requires i < n
    ensures BitXor(n, i) > 0
    ensures Height(n, i) == BitLength(BitXor(n, i)) - 1
    decreases n
  {
    if IsPeak(n, i) {
      XorSelf(n / 2);
      assert i / 2 == n / 2;
      assert BitXor(n, i) == 1;
    } else {
      HeightIsTopDifferingBit(n / 2, i / 2);
    }
  }

  // ---------- binding ----------

  /** Height of the k-th tallest peak of n leaves. */
  function PeakHeight(n: nat, k: nat): nat
    requires k < Ones(n)
    decreases n
  {
    if n % 2 == 1 && k == Ones(n / 2) then 0 else 1 + PeakHeight(n / 2, k)
  }

  /** Position of the first leaf below the k-th tallest peak of n leaves. */
  function PeakOffset(n: nat, k: nat): nat
    requires k < Ones(n)
    decreases n
  {
    if n % 2 == 1 && k == Ones(n / 2) then n - 1 else 2 * PeakOffset(n / 2, k)
  }

  /** The leaf that position bits idx name under the k-th peak. */
  function NamedLeaf(n: nat, k: nat, idx: nat): nat
    requires k < Ones(n)
    decreases n
  {
    if n % 2 == 1 && k == Ones(n / 2) then n - 1 else 2 * NamedLeaf(n / 2, k, idx / 2) + idx % 2
  }

  lemma {:induction false} PeakSpan(n: nat, k: nat)
    requires k < Ones(n)
    ensures PeakOffset(n, k) + Pow2(PeakHeight(n, k)) <= n
    ensures PeakOffset(n, k) % Pow2(PeakHeight(n, k)) == 0
    decreases n
  {
    if !(n % 2 == 1 && k == Ones(n / 2)) {
      PeakSpan(n / 2, k);
      DoubleMod(PeakOffset(n / 2, k), 0, Pow2(PeakHeight(n / 2, k)));
    }
  }

  lemma {:induction false} NamedLeafInRange(n: nat, k: nat, idx: nat)
    requires k < Ones(n)
    ensures NamedLeaf(n, k, idx) < n
    decreases n
  {
    if !(n % 2 == 1 && k == Ones(n / 2)) { NamedLeafInRange(n / 2, k, idx / 2); }
  }

  /** The named leaf is the subtree's offset plus the low bits of the internal index. */
  lemma {:induction false} NamedLeafIsOffset(n: nat, k: nat, idx: nat)
    requires k < Ones(n)
    ensures NamedLeaf(n, k, idx) == PeakOffset(n, k) + idx % Pow2(PeakHeight(n, k))
    decreases n
  {
    if !(n % 2 == 1 && k == Ones(n / 2)) {
      NamedLeafIsOffset(n / 2, k, idx / 2);
      DoubleMod(idx / 2, idx % 2, Pow2(PeakHeight(n / 2, k)));
    } else {
      assert Pow2(0) == 1;
    }
  }

  /** The byte string that the first step of a path hashes. */
  function Claimed(leaf: Digest, idx: nat, sibling: Digest): seq<Byte> {
    if idx % 2 == 0 then Joined(leaf, sibling) else Joined(sibling, leaf)
  }

  /** Two byte strings read off a path and the true tree: a collision whenever the path proves a wrong leaf. */
  function ExtractCollision(sha: Sha, level: seq<Digest>, k: nat, leaf: Digest, idx: nat, path: seq<Digest>)
      : (r: (seq<Byte>, seq<Byte>))
    requires k < Ones(|level|) && |path| == PeakHeight(|level|, k)
    decreases |path|
  {
    if path == [] then ([], [])
    else
      var above := Up(sha, level);
      NamedLeafInRange(|above|, k, idx / 2);
      var j := NamedLeaf(|above|, k, idx / 2);
      var claimed := Claimed(leaf, idx, path[0]);
      if sha(claimed) == above[j] then (claimed, Joined(level[2 * j], level[2 * j + 1]))
      else ExtractCollision(sha, above, k, sha(claimed), idx / 2, path[1..])
  }

  /** What the first step of a path means one level up. */
  lemma {:induction false} FirstStep(sha: Sha, level: seq<Digest>, k: nat, leaf: Digest, idx: nat, path: seq<Digest>)
    requires k < Ones(|level|) && |path| == PeakHeight(|level|, k) && path != []
    ensures var above := Up(sha, level);
            var claimed := Claimed(leaf, idx, path[0]);
            k < Ones(|above|) && |path[1..]| == PeakHeight(|above|, k) && NamedLeaf(|above|, k, idx / 2) < |above| &&
            NamedLeaf(|level|, k, idx) == 2 * NamedLeaf(|above|, k, idx / 2) + idx % 2 &&
            Climb(sha, leaf, idx, path) == Climb(sha, sha(claimed), idx / 2, path[1..]) &&
            ExtractCollision(sha, level, k, leaf, idx, path) ==
            if sha(claimed) == above[NamedLeaf(|above|, k, idx / 2)]
            then (claimed, Joined(level[2 * NamedLeaf(|above|, k, idx / 2)], level[2 * NamedLeaf(|above|, k, idx / 2) + 1]))
            else ExtractCollision(sha, above, k, sha(claimed), idx / 2, path[1..])
  {
    hide Joined;
    NamedLeafInRange(|level| / 2, k, idx / 2);
  }

  lemma {:induction false} NoPathBinds(sha: Sha, level: seq<Digest>, k: nat, leaf: Digest, idx: nat)
    requires k < Ones(|level|) && 0 == PeakHeight(|level|, k)
    requires k < |Peaks(sha, level)| && Climb(sha, leaf, idx, []) == Peaks(sha, level)[k]
    ensures NamedLeaf(|level|, k, idx) == |level| - 1 && leaf == level[|level| - 1]
  {
    var above := Up(sha, level);
    PeakCount(sha, above);
    assert Peaks(sha, level) == Peaks(sha, above) + [level[|level| - 1]];
  }

  lemma {:induction false} ClimbBinds(sha: Sha, level: seq<Digest>, k: nat, leaf: Digest, idx: nat, path: seq<Digest>)
    requires k < Ones(|level|) && |path| == PeakHeight(|level|, k)
    requires k < |Peaks(sha, level)| && Climb(sha, leaf, idx, path) == Peaks(sha, level)[k]
    ensures NamedLeaf(|level|, k, idx) < |level|
    ensures leaf == level[NamedLeaf(|level|, k, idx)] || Exhibits(sha, ExtractCollision(sha, level, k, leaf, idx, path))
    decreases |path|
  {
    hide Ones;
    hide PeakHeight;
    hide NamedLeaf;
    hide Peaks;
    hide Climb;
    hide ExtractCollision;
    hide Joined;
    hide Up;
    NamedLeafInRange(|level|, k, idx);
    if path == [] {
      NoPathBinds(sha, level, k, leaf, idx);
    } else {
      var above := Up(sha, level);
      FirstStep(sha, level, k, leaf, idx, path);
      PeakCount(sha, above);
      PeaksAbove(sha, level, k);
      var j := NamedLeaf(|above|, k, idx / 2);
      var up := sha(Claimed(leaf, idx, path[0]));
      ClimbBinds(sha, above, k, up, idx / 2, path[1..]);
      if up == above[j] {
        ParentBinds(sha, level, j, leaf, idx % 2, path[0]);
      }
    }
  }

  /** A pair that hashes to a parent is the parent's two children, or collides with them. */
  lemma {:induction false} ParentBinds(sha: Sha, level: seq<Digest>, j: nat, leaf: Digest, side: nat, sibling: Digest)
    requires 2 * j + 1 < |level| && side < 2
    requires sha(if side == 0 then Joined(leaf, sibling) else Joined(sibling, leaf)) == Up(sha, level)[j]
    ensures leaf == level[2 * j + side] ||
            Collision(sha, if side == 0 then Joined(leaf, sibling) else Joined(sibling, leaf), Joined(level[2 * j], level[2 * j + 1]))
  {
    PairInjective(leaf, sibling, level[2 * j], level[2 * j + 1]);
    PairInjective(sibling, leaf, level[2 * j], level[2 * j + 1]);
  }

  /** An accepted proof whose path is as long as its subtree is high names the leaf that was appended there,
      or exhibits two different 64-byte strings with the same hash. */
  lemma {:induction false} ProofBinds(sha: Sha, leaves: seq<Digest>, leaf: Digest, proof: MMRInclusionProof)
    requires |leaves| <= U32_MAX
    requires Accepts(sha, Peaks(sha, leaves), leaf, proof)
    requires proof.subrootIdx < Ones(|leaves|)
    requires |proof.inclusionProof| == PeakHeight(|leaves|, proof.subrootIdx)
    ensures NamedLeaf(|leaves|, proof.subrootIdx, proof.internalIdx) < |leaves|
    ensures NamedLeaf(|leaves|, proof.subrootIdx, proof.internalIdx) ==
            PeakOffset(|leaves|, proof.subrootIdx) + proof.internalIdx % Pow2(PeakHeight(|leaves|, proof.subrootIdx))
    ensures leaf == leaves[NamedLeaf(|leaves|, proof.subrootIdx, proof.internalIdx)] ||
            Exhibits(sha, ExtractCollision(sha, leaves, proof.subrootIdx, leaf, proof.internalIdx, proof.inclusionProof))
  {
    var path := proof.inclusionProof;
    PeakSpan(|leaves|, proof.subrootIdx);
    NamedLeafIsOffset(|leaves|, proof.subrootIdx, proof.internalIdx);
    if |path| >= 32 {
      Pow2Mono(32, |path|);
      Pow2Of32();
    }
    FoldIsClimb(sha, leaf, proof.internalIdx, path, 0);
    assert path[0..] == path;
    ClimbBinds(sha, leaves, proof.subrootIdx, leaf, proof.internalIdx, path);
  }

  /** The proof of node i one level up: the same proof without its first step. */
  lemma {:induction false} ProofOneLevelUp(sha: Sha, leaves: seq<Digest>, i: nat)
    requires i < |leaves| && !IsPeak(|leaves|, i)
    ensures var full := ProofFor(sha, leaves, i);
            |full.inclusionProof| > 0 &&
            ProofFor(sha, Up(sha, leaves), i / 2) ==
            MMRInclusionProof(full.subrootIdx, full.internalIdx / 2, full.inclusionProof[1..])
  {
    OneLevelUp(|leaves|, i);
    assert Path(sha, leaves, i)[1..] == Path(sha, Up(sha, leaves), i / 2);
    hide Path;
    hide Height;
    hide PeakIndex;
  }

  lemma {:induction false} OneLevelUp(n: nat, i: nat)
    requires i < n && !IsPeak(n, i)
    ensures i / 2 < n / 2 && Height(n, i) == Height(n / 2, i / 2) + 1 && PeakIndex(n, i) == PeakIndex(n / 2, i / 2)
    ensures i % Pow2(Height(n, i)) / 2 == i / 2 % Pow2(Height(n / 2, i / 2))
  {
    var h := Height(n / 2, i / 2);
    DoubleMod(i / 2, i % 2, Pow2(h));
    assert i % Pow2(h + 1) == 2 * (i / 2 % Pow2(h)) + i % 2;
  }
}
