/** What an accepted accumulator proof shows when its path may have any length: neither verifier compares the length with the
    height of the subtree (header-chain/src/mmr_guest.rs, header-chain/src/mmr_native.rs). */
module MmrBinding {
  import opened Arithmetic
  import opened Hashing
  import opened MmrSpec

  // ---------- levels ----------

  /** The level d steps above. */
  function Raised(sha: Sha, level: seq<Digest>, d: nat): seq<Digest>
    decreases d
  {
    if d == 0 then level else Raised(sha, Up(sha, level), d - 1)
  }

  lemma {:induction false} RaisedLast(sha: Sha, level: seq<Digest>, d: nat)
    requires d > 0
    ensures Raised(sha, level, d) == Up(sha, Raised(sha, level, d - 1))
    decreases d
  {
    hide Up;
    if d > 1 { RaisedLast(sha, Up(sha, level), d - 1); }
  }

  lemma {:induction false} RaisedPeak(sha: Sha, level: seq<Digest>, k: nat, d: nat)
    requires k < Ones(|level|) && d <= PeakHeight(|level|, k)
    ensures k < Ones(|Raised(sha, level, d)|) && PeakHeight(|Raised(sha, level, d)|, k) == PeakHeight(|level|, k) - d
    ensures k < |Peaks(sha, level)| && k < |Peaks(sha, Raised(sha, level, d))|
    ensures Peaks(sha, Raised(sha, level, d))[k] == Peaks(sha, level)[k]
    decreases d
  {
    hide Peaks;
    PeakCount(sha, level);
    if d > 0 {
      var above := Up(sha, level);
      RaisedPeak(sha, above, k, d - 1);
      PeaksAbove(sha, level, k);
    }
  }

  // ---------- the verifier's loop, for any number of steps ----------

  /** The directions of steps i to n, as the bits of a number. */
  function Sides(idx: nat, i: nat, n: nat): nat
    requires i <= n
    decreases n - i
  {
    if i == n then 0 else (if BitAnd(idx, Pow2(i % 32)) == 0 then 0 else 1) + 2 * Sides(idx, i + 1, n)
  }

  lemma {:induction false} FoldIsSides(sha: Sha, current: Digest, idx: nat, path: seq<Digest>, i: nat)
    requires i <= |path|
    ensures FoldFrom(sha, current, idx, path, i) == Climb(sha, current, Sides(idx, i, |path|), path[i..])
    decreases |path| - i
  {
    hide BitAnd;
    hide Combine;
    if i < |path| {
      assert path[i..][0] == path[i] && path[i..][1..] == path[i + 1..];
      FoldIsSides(sha, Combine(sha, BitAnd(idx, Pow2(i % 32)) == 0, current, path[i]), idx, path, i + 1);
    }
  }

  lemma {:induction false} ClimbSplit(sha: Sha, current: Digest, x: nat, path: seq<Digest>, d: nat)
    requires d <= |path|
    ensures Climb(sha, current, x, path) == Climb(sha, Climb(sha, current, x, path[..d]), Shr(x, d), path[d..])
    decreases d
  {
    hide Combine;
    if d == 0 {
      assert path[..0] == [] && path[0..] == path;
    } else {
      assert path[..d][1..] == path[1..][..d - 1] && path[1..][d - 1..] == path[d..];
      ShrHalf(x, d - 1);
      ClimbSplit(sha, Combine(sha, x % 2 == 0, current, path[0]), x / 2, path[1..], d - 1);
    }
  }

  /** The byte string that step d hashes. */
  function StepInput(sha: Sha, current: Digest, x: nat, path: seq<Digest>, d: nat): seq<Byte>
    requires 0 < d <= |path|
  {
    Claimed(Climb(sha, current, x, path[..d - 1]), Shr(x, d - 1), path[d - 1])
  }

  lemma {:induction false} StepHashes(sha: Sha, current: Digest, x: nat, path: seq<Digest>, d: nat)
    requires 0 < d <= |path|
    ensures |StepInput(sha, current, x, path, d)| == 64
    ensures Climb(sha, current, x, path[..d]) == sha(StepInput(sha, current, x, path, d))
  {
    var head := path[..d];
    ClimbSplit(sha, current, x, head, d - 1);
    assert head[..d - 1] == path[..d - 1] && head[d - 1..] == [path[d - 1]] && [path[d - 1]][1..] == [];
  }

  // ---------- binding ----------

  /** Leaves that are hashes of 32-byte strings, as block hashes are. */
  ghost predicate HashedLeaves(sha: Sha, inputs: seq<Digest>, leaves: seq<Digest>) {
    |inputs| == |leaves| && forall i :: 0 <= i < |leaves| ==> leaves[i] == sha(inputs[i])
  }

  /** Two byte strings read off a path and the true tree: a collision whenever the path is of the wrong length or proves a
      wrong leaf. A path that is too long makes an inner node of a leaf, one that is too short a leaf of an inner node; either
      way a 32-byte string and a 64-byte string have one hash. */
  function ExtractAnyLength(sha: Sha, inputs: seq<Digest>, leaves: seq<Digest>, k: nat, input: Digest, idx: nat, path: seq<Digest>)
      : (r: (seq<Byte>, seq<Byte>))
    requires k < Ones(|leaves|) && |inputs| == |leaves|
  {
    var h, x := PeakHeight(|leaves|, k), Sides(idx, 0, |path|);
    if |path| == h then ExtractCollision(sha, leaves, k, sha(input), idx, path)
    else if |path| > h then
      var d := |path| - h;
      var current := sha(StepInput(sha, sha(input), x, path, d));
      NamedLeafInRange(|leaves|, k, Shr(x, d));
      var j := NamedLeaf(|leaves|, k, Shr(x, d));
      if current == leaves[j] then (StepInput(sha, sha(input), x, path, d), inputs[j])
      else ExtractCollision(sha, leaves, k, current, Shr(x, d), path[d..])
    else
      var d := h - |path|;
      RaisedPeak(sha, leaves, k, d);
      RaisedLast(sha, leaves, d);
      var below, level := Raised(sha, leaves, d - 1), Raised(sha, leaves, d);
      NamedLeafInRange(|level|, k, x);
      var j := NamedLeaf(|level|, k, x);
      if sha(input) == level[j] then (input, Joined(below[2 * j], below[2 * j + 1]))
      else ExtractCollision(sha, level, k, sha(input), x, path)
  }

  lemma {:induction false} LongPathBinds(sha: Sha, inputs: seq<Digest>, leaves: seq<Digest>, k: nat, input: Digest, idx: nat,
                                         path: seq<Digest>)
    requires k < Ones(|leaves|) && HashedLeaves(sha, inputs, leaves) && |path| > PeakHeight(|leaves|, k)
    requires k < |Peaks(sha, leaves)| && Climb(sha, sha(input), Sides(idx, 0, |path|), path) == Peaks(sha, leaves)[k]
    ensures Exhibits(sha, ExtractAnyLength(sha, inputs, leaves, k, input, idx, path))
  {
    hide PeakHeight;
    hide Ones;
    hide Peaks;
    hide Climb;
    hide Sides;
    hide NamedLeaf;
    hide StepInput;
    hide ExtractCollision;
    hide Shr;
    var x, d := Sides(idx, 0, |path|), |path| - PeakHeight(|leaves|, k);
    ClimbSplit(sha, sha(input), x, path, d);
    StepHashes(sha, sha(input), x, path, d);
    ClimbBinds(sha, leaves, k, sha(StepInput(sha, sha(input), x, path, d)), Shr(x, d), path[d..]);
  }

  lemma {:induction false} ShortPathBinds(sha: Sha, inputs: seq<Digest>, leaves: seq<Digest>, k: nat, input: Digest, idx: nat,
                                          path: seq<Digest>)
    requires k < Ones(|leaves|) && |inputs| == |leaves| && |path| < PeakHeight(|leaves|, k)
    requires k < |Peaks(sha, leaves)| && Climb(sha, sha(input), Sides(idx, 0, |path|), path) == Peaks(sha, leaves)[k]
    ensures Exhibits(sha, ExtractAnyLength(sha, inputs, leaves, k, input, idx, path))
  {
    hide PeakHeight;
    hide Ones;
    hide Peaks;
    hide Climb;
    hide Sides;
    hide NamedLeaf;
    hide ExtractCollision;
    hide Raised;
    var x, d := Sides(idx, 0, |path|), PeakHeight(|leaves|, k) - |path|;
    RaisedPeak(sha, leaves, k, d);
    RaisedLast(sha, leaves, d);
    ClimbBinds(sha, Raised(sha, leaves, d), k, sha(input), x, path);
  }

  /** An accepted proof of the hash of a 32-byte string, against leaves that are such hashes, has a path of the right length
      and names the leaf that was appended there, or exhibits two different byte strings with the same hash. */
  lemma {:induction false} AnyLengthBinds(sha: Sha, inputs: seq<Digest>, leaves: seq<Digest>, input: Digest, proof: MMRInclusionProof)
    requires |leaves| <= U32_MAX && HashedLeaves(sha, inputs, leaves)
    requires Accepts(sha, Peaks(sha, leaves), sha(input), proof)
    ensures proof.subrootIdx < Ones(|leaves|)
    ensures NamedLeaf(|leaves|, proof.subrootIdx, proof.internalIdx) < |leaves|
    ensures NamedLeaf(|leaves|, proof.subrootIdx, proof.internalIdx) ==
            PeakOffset(|leaves|, proof.subrootIdx) + proof.internalIdx % Pow2(PeakHeight(|leaves|, proof.subrootIdx))
    ensures (|proof.inclusionProof| == PeakHeight(|leaves|, proof.subrootIdx) &&
             sha(input) == leaves[NamedLeaf(|leaves|, proof.subrootIdx, proof.internalIdx)]) ||
            Exhibits(sha, ExtractAnyLength(sha, inputs, leaves, proof.subrootIdx, input, proof.internalIdx, proof.inclusionProof))
  {
    hide FoldFrom;
    hide Ones;
    hide PeakHeight;
    hide NamedLeaf;
    hide Peaks;
    hide Sides;
    hide ExtractCollision;
    var k, path := proof.subrootIdx, proof.inclusionProof;
    PeakCount(sha, leaves);
    NamedLeafInRange(|leaves|, k, proof.internalIdx);
    NamedLeafIsOffset(|leaves|, k, proof.internalIdx);
    if |path| == PeakHeight(|leaves|, k) {
      ProofBinds(sha, leaves, sha(input), proof);
    } else {
      FoldIsSides(sha, sha(input), proof.internalIdx, path, 0);
      assert path[0..] == path;
      if |path| > PeakHeight(|leaves|, k) {
        LongPathBinds(sha, inputs, leaves, k, input, proof.internalIdx, path);
      } else {
        ShortPathBinds(sha, inputs, leaves, k, input, proof.internalIdx, path);
      }
    }
  }

  // ---------- paths of the wrong length on other leaves ----------

  lemma {:induction false} RaisedIndex(sha: Sha, level: seq<Digest>, i: nat, d: nat)
    requires i < |level| && d <= Height(|level|, i)
    ensures Shr(i, d) < |Raised(sha, level, d)|
    decreases d
  {
    if d > 0 {
      OneLevelUp(|level|, i);
      ShrHalf(i, d - 1);
      RaisedIndex(sha, Up(sha, level), i / 2, d - 1);
    }
  }

  /** Every node on the way from a leaf to its peak is accepted as a leaf by the rest of the path. */
  lemma {:induction false} ShorterPathProvesInnerNode(sha: Sha, leaves: seq<Digest>, i: nat, d: nat)
    requires i < |leaves| <= U32_MAX && d <= Height(|leaves|, i)
    ensures Shr(i, d) < |Raised(sha, leaves, d)|
    ensures var full := ProofFor(sha, leaves, i);
            Accepts(sha, Peaks(sha, leaves), Raised(sha, leaves, d)[Shr(i, d)],
                    MMRInclusionProof(full.subrootIdx, Shr(full.internalIdx, d), full.inclusionProof[d..]))
    decreases d
  {
    hide Peaks;
    hide FoldFrom;
    hide Path;
    var full := ProofFor(sha, leaves, i);
    RaisedIndex(sha, leaves, i, d);
    if d == 0 {
      assert full.inclusionProof[0..] == full.inclusionProof;
      ProofComplete(sha, leaves, i);
    } else {
      var above := Up(sha, leaves);
      OneLevelUp(|leaves|, i);
      ProofOneLevelUp(sha, leaves, i);
      ShrHalf(i, d - 1);
      ShrHalf(full.internalIdx, d - 1);
      assert full.inclusionProof[1..][d - 1..] == full.inclusionProof[d..];
      ShorterPathProvesInnerNode(sha, above, i / 2, d - 1);
      PeaksAbove(sha, leaves, full.subrootIdx);
    }
  }

  /** A leaf that happens to be the hash of a pair lets the members of the pair be accepted as leaves. */
  lemma {:induction false} LongerPathProvesHalf(sha: Sha, leaves: seq<Digest>, i: nat, left: Digest, right: Digest)
    requires i < |leaves| <= U32_MAX && leaves[i] == HashPair(sha, left, right)
    ensures var full := ProofFor(sha, leaves, i);
            Accepts(sha, Peaks(sha, leaves), left,
                    MMRInclusionProof(full.subrootIdx, 2 * full.internalIdx, [right] + full.inclusionProof))
  {
    hide Peaks;
    hide Path;
    var full := ProofFor(sha, leaves, i);
    var path := [right] + full.inclusionProof;
    ProofComplete(sha, leaves, i);
    HeightFitsU32(|leaves|, i);
    assert |path| <= 32;
    FoldIsClimb(sha, leaves[i], full.internalIdx, full.inclusionProof, 0);
    FoldIsClimb(sha, left, 2 * full.internalIdx, path, 0);
    assert full.inclusionProof[0..] == full.inclusionProof && path[0..] == path && path[1..] == full.inclusionProof;
    assert Climb(sha, left, 2 * full.internalIdx, path) == Climb(sha, leaves[i], full.internalIdx, full.inclusionProof);
  }
}
