/** The two Merkle mountain range implementations: MMRNative keeps every level, MMRGuest only the peaks. */
module Mmr {
  import opened Arithmetic
  import opened Wrappers
  import opened Hashing
  import opened MmrSpec

  /** header-chain/src/mmr_native.rs */
  class MMRNative {
    const sha: Sha
    var nodes: seq<seq<Digest>>

    /** The stored levels are exactly the levels above the stored leaves. */
    ghost predicate Valid()
      reads this
    {
      |nodes| > 0 && nodes == Levels(sha, nodes[0])
    }

    ghost function Leaves(): seq<Digest>
      reads this
      requires Valid()
    {
      nodes[0]
    }

    constructor (sha: Sha)
      ensures Valid() && Leaves() == [] && this.sha == sha
    {
      this.sha := sha;
      nodes := [[]];
    }

    method Append(leaf: Digest)
      requires Valid()
      modifies this
      ensures Valid() && Leaves() == old(Leaves()) + [leaf]
    {
      ghost var leaves := nodes[0];
      nodes := nodes[0 := nodes[0] + [leaf]];
      RecalculatePeaks(leaves, leaf);
    }

    method RecalculatePeaks(ghost leaves: seq<Digest>, ghost leaf: Digest)
      requires nodes == [leaves + [leaf]] + Levels(sha, leaves)[1..]
      modifies this
      ensures nodes == Levels(sha, leaves + [leaf])
    {
      var depth := |nodes|;
      var level := 0;
      ghost var below, added := leaves, leaf;  // the level being extended, and what was added to it
      while level < depth - 1
        invariant 0 <= level < depth == |nodes|
        invariant Extending(sha, nodes, level, below, added)
        invariant Levels(sha, leaves + [leaf]) == nodes[..level] + Levels(sha, below + [added])
      {
        if |nodes[level]| % 2 == 1 {
          LevelOf(sha, nodes, level, below, added);
          ExtendEven(sha, nodes, level, below, added);
          assert nodes[..level] + nodes[level..] == nodes;
          break;
        } else {
          added := PushParent(level, below, added);
        }
        below, level := Up(sha, below), level + 1;
      }
      AddTop(depth, leaves, leaf, level, below, added);
    }

    /** The loop body of RecalculatePeaks: the last two nodes of a level get their parent. */
    method PushParent(level: nat, ghost below: seq<Digest>, ghost added: Digest) returns (node: Digest)
      requires level < |nodes| - 1 && Extending(sha, nodes, level, below, added)
      requires |nodes[level]| % 2 == 0
      modifies this
      ensures |nodes| == old(|nodes|) && nodes[..level] == old(nodes)[..level]
      ensures Extending(sha, nodes, level + 1, Up(sha, below), node)
      ensures nodes[..level + 1] + Levels(sha, Up(sha, below) + [node]) ==
              old(nodes)[..level] + Levels(sha, below + [added])
    {
      LevelOf(sha, nodes, level, below, added);
      ExtendOdd(sha, nodes, level, below, added);
      node := HashPair(sha, nodes[level][|nodes[level]| - 2], nodes[level][|nodes[level]| - 1]);
      nodes := nodes[level + 1 := nodes[level + 1] + [node]];
      assert nodes[..level + 1] == old(nodes)[..level] + [below + [added]];
    }

    /** The tail of RecalculatePeaks: a second node on the top level starts a new one. */
    method AddTop(depth: nat, ghost leaves: seq<Digest>, ghost leaf: Digest,
                  ghost level: nat, ghost below: seq<Digest>, ghost added: Digest)
      requires 0 < depth == |nodes|
      requires nodes == Levels(sha, leaves + [leaf]) ||
               (level == depth - 1 && Extending(sha, nodes, level, below, added) &&
                Levels(sha, leaves + [leaf]) == nodes[..level] + Levels(sha, below + [added]))
      modifies this
      ensures nodes == Levels(sha, leaves + [leaf])
    {
      LevelsTop(sha, leaves + [leaf]);
      if nodes != Levels(sha, leaves + [leaf]) { LevelOf(sha, nodes, level, below, added); }
      if |nodes[depth - 1]| > 1 {
        var node := HashPair(sha, nodes[depth - 1][0], nodes[depth - 1][1]);
        ExtendTop(sha, below, added);
        assert nodes == nodes[..level] + [below + [added]];
        nodes := nodes + [[node]];
      }
    }

    /** One subroot per level of odd size, tallest first. */
    method GetSubroots() returns (subroots: seq<Digest>)
      requires Valid()
      ensures subroots == Peaks(sha, Leaves())
    {
      hide Peaks;
      hide Levels;
      hide Up;
      NothingAbove(sha);
      subroots := [];
      var level := 0;
      ghost var rest := nodes[0];
      while level < |nodes|
        invariant 0 <= level <= |nodes|
        invariant level < |nodes| ==> nodes[level..] == Levels(sha, rest)
        invariant level == |nodes| ==> |rest| == 0
        invariant Peaks(sha, nodes[0]) == Peaks(sha, rest) + Reversed(subroots)
      {
        LevelsFrom(sha, nodes, level, rest);
        SubrootStep(sha, rest, subroots);
        if |nodes[level]| % 2 == 1 {
          subroots := subroots + [nodes[level][|nodes[level]| - 1]];
        } else {
          assert subroots + OddLast(rest) == subroots;
        }
        rest, level := Up(sha, rest), level + 1;
      }
      subroots := Reversed(subroots);
    }

    /** Panics (None) on an empty range or an index out of bounds; otherwise the appended leaf and its proof. */
    method GenerateProof(index: nat) returns (r: Option<(Digest, MMRInclusionProof)>)
      requires Valid() && |Leaves()| <= U32_MAX
      ensures r.None? <==> index >= |Leaves()|
      ensures r.Some? ==> r.value == (Leaves()[index], ProofFor(sha, Leaves(), index))
    {
      if |nodes[0]| == 0 { return None; }
      if |nodes[0]| <= index { return None; }
      var proof := SubtreePath(index);
      var subrootIdx, internalIdx := GetHelpersFromIndex(index);
      r := Some((nodes[0][index], MMRInclusionProof(subrootIdx, internalIdx, proof)));
    }

    /** The loop of GenerateProof: siblings up to the subroot. */
    method SubtreePath(index: nat) returns (proof: seq<Digest>)
      requires Valid() && index < |Leaves()|
      ensures proof == Path(sha, Leaves(), index)
    {
      hide Path;
      proof := [];
      var currentIndex, currentLevel := index, 0;
      ghost var level := nodes[0];
      NoSteps(Path(sha, level, currentIndex));
      while !(currentIndex == |nodes[currentLevel]| - 1 && |nodes[currentLevel]| % 2 == 1)
        invariant 0 <= currentLevel < |nodes| && 0 <= currentIndex < |level|
        invariant nodes[currentLevel..] == Levels(sha, level)
        invariant nodes[currentLevel] == level
        invariant Path(sha, nodes[0], index) == proof + Path(sha, level, currentIndex)
        decreases |level|
      {
        NextLevel(currentLevel, level);
        var siblingIndex := if currentIndex % 2 == 0 then currentIndex + 1 else currentIndex - 1;
        assert siblingIndex == Sibling(currentIndex);
        ParentOf(sha, level, currentIndex);
        PathStep(sha, proof, level, currentIndex);
        proof := proof + [nodes[currentLevel][siblingIndex]];
        level := Up(sha, level);
        currentIndex, currentLevel := currentIndex / 2, currentLevel + 1;
      }
      PathEnds(sha, proof, level, currentIndex);
    }

    lemma {:induction false} NextLevel(k: nat, level: seq<Digest>)
      requires k < |nodes| && nodes[k..] == Levels(sha, level) && |level| > 1
      ensures k + 1 < |nodes| && nodes[k + 1..] == Levels(sha, Up(sha, level)) && nodes[k + 1] == Up(sha, level)
    {
      assert Levels(sha, level) == [level] + Levels(sha, Up(sha, level));
      assert nodes[k + 1..] == nodes[k..][1..];
      assert nodes[k + 1] == nodes[k + 1..][0];
    }

    method GetHelpersFromIndex(index: nat) returns (subtreeIdx: nat, internalIdx: nat)
      requires Valid() && index < |Leaves()| <= U32_MAX
      ensures subtreeIdx == PeakIndex(|Leaves()|, index)
      ensures internalIdx == index % Pow2(Height(|Leaves()|, index))
    {
      var n := |nodes[0]|;
      var xor := BitXor(n, index);
      HeightIsTopDifferingBit(n, index);
      var xorLeadingDigit := BitLength(xor) - 1;
      internalIdx := BitAnd(index, Pow2(xorLeadingDigit) - 1);
      BitAndMask(index, xorLeadingDigit);
      var leadingDigit := BitLength(n) - 1;
      subtreeIdx := 0;
      var i := xorLeadingDigit + 1;
      HeightBelowLength(n, index);
      while i <= leadingDigit
        invariant xorLeadingDigit + 1 <= i <= leadingDigit + 1
        invariant subtreeIdx + Ones(Shr(n, i)) == Ones(Shr(n, xorLeadingDigit + 1))
      {
        BitAndBit(n, i);
        OnesShr(n, i);
        if BitAnd(n, Pow2(i)) != 0 { subtreeIdx := subtreeIdx + 1; }
        i := i + 1;
      }
      ShrAll(n);
      PeakIndexCountsTaller(n, index);
    }

    /** Panics (None) when the proof names a subroot that does not exist. */
    method VerifyProof(leaf: Digest, proof: MMRInclusionProof) returns (r: Option<bool>)
      requires Valid()
      ensures r.None? <==> proof.subrootIdx >= |Peaks(sha, Leaves())|
      ensures r.Some? ==>
                (r.value <==> Peaks(sha, Leaves())[proof.subrootIdx] == FoldFrom(sha, leaf, proof.internalIdx, proof.inclusionProof, 0))
      ensures r.Some? ==> r.value == Accepts(sha, Peaks(sha, Leaves()), leaf, proof)
    {
      var subroot := GetSubroot(sha, proof, leaf);
      var subroots := GetSubroots();
      if proof.subrootIdx >= |subroots| { return None; }
      r := Some(subroots[proof.subrootIdx] == subroot);
    }
  }

  /** header-chain/src/mmr_guest.rs. The size is a 32-bit counter. */
  class MMRGuest {
    const sha: Sha
    var subroots: seq<Digest>
    var size: nat

    /** The guest holds the peaks of these leaves. */
    ghost predicate Represents(leaves: seq<Digest>)
      reads this
    {
      subroots == Peaks(sha, leaves) && size == |leaves| <= U32_MAX
    }

    constructor (sha: Sha)
      ensures Represents([]) && this.sha == sha
    {
      this.sha := sha;
      subroots, size := [], 0;
    }

    /** Panics (false) exactly when a pop finds no subroot. */
    method Append(leaf: Digest) returns (ok: bool)
      modifies this
      ensures ok <==> TrailingOnes(old(size)) <= old(|subroots|)
      ensures ok ==> subroots == Merge(sha, old(subroots), old(size), leaf)
      ensures ok ==> size == WrappingInc(old(size))
    {
      var current := leaf;
      var rest := size;
      while rest % 2 == 1
        invariant size == old(size)
        invariant TrailingOnes(rest) <= |subroots| <==> TrailingOnes(old(size)) <= old(|subroots|)
        invariant TrailingOnes(rest) <= |subroots| ==>
                    Merge(sha, subroots, rest, current) == Merge(sha, old(subroots), old(size), leaf)
        decreases rest
      {
        if |subroots| == 0 { return false; }
        var sibling := subroots[|subroots| - 1];
        subroots := subroots[..|subroots| - 1];
        current := HashPair(sha, sibling, current);
        rest := rest / 2;
      }
      subroots := subroots + [current];
      size := WrappingInc(size);
      return true;
    }

    method VerifyProof(leaf: Digest, proof: MMRInclusionProof) returns (r: bool)
      ensures r <==> proof.subrootIdx < |subroots| &&
                     subroots[proof.subrootIdx] == FoldFrom(sha, leaf, proof.internalIdx, proof.inclusionProof, 0)
      ensures r == Accepts(sha, subroots, leaf, proof)
    {
      var currentHash := GetSubroot(sha, proof, leaf);
      r := proof.subrootIdx < |subroots| && subroots[proof.subrootIdx] == currentHash;
    }
  }

  method GetSubroot(sha: Sha, proof: MMRInclusionProof, leaf: Digest) returns (currentHash: Digest)
    ensures currentHash == FoldFrom(sha, leaf, proof.internalIdx, proof.inclusionProof, 0)
  {
    currentHash := leaf;
    var i := 0;
    while i < |proof.inclusionProof|
      invariant 0 <= i <= |proof.inclusionProof|
      invariant FoldFrom(sha, leaf, proof.internalIdx, proof.inclusionProof, 0) ==
                FoldFrom(sha, currentHash, proof.internalIdx, proof.inclusionProof, i)
    {
      var sibling := proof.inclusionProof[i];
      if BitAnd(proof.internalIdx, Pow2(i % 32)) == 0 {
        currentHash := HashPair(sha, currentHash, sibling);
      } else {
        currentHash := HashPair(sha, sibling, currentHash);
      }
      i := i + 1;
    }
  }

  /** A native range and a guest fed the same leaves agree on every proof the native side generates. */
  method NativeProofVerifiesOnGuest(native: MMRNative, guest: MMRGuest, index: nat) returns (accepted: bool)
    requires native.Valid() && native.sha == guest.sha && guest.Represents(native.Leaves())
    requires index < |native.Leaves()|
    ensures accepted
  {
    ProofComplete(native.sha, native.Leaves(), index);
    var r := native.GenerateProof(index);
    var (leaf, proof) := r.value;
    var onNative := native.VerifyProof(leaf, proof);
    var onGuest := guest.VerifyProof(leaf, proof);
    accepted := onNative == Some(true) && onGuest;
  }

  /** One append on each side keeps the native levels and the guest's peaks describing the same leaves. */
  method AppendBoth(native: MMRNative, guest: MMRGuest, leaf: Digest)
    requires native.Valid() && native.sha == guest.sha
    requires guest.Represents(native.Leaves()) && |native.Leaves()| < U32_MAX
    modifies native, guest
    ensures native.Valid() && native.Leaves() == old(native.Leaves()) + [leaf]
    ensures guest.Represents(native.Leaves())
  {
    ghost var leaves := native.Leaves();
    MergeIsAppend(native.sha, leaves, leaf);
    native.Append(leaf);
    var ok := guest.Append(leaf);
    assert guest.size == |leaves| + 1;
  }

  /** After any sequence of appends the native subroots are the guest's. */
  method FeedBoth(sha: Sha, leaves: seq<Digest>) returns (native: MMRNative, guest: MMRGuest)
    requires |leaves| <= U32_MAX
    ensures native.Valid() && native.Leaves() == leaves
    ensures guest.Represents(leaves) && native.sha == guest.sha == sha
  {
    native := new MMRNative(sha);
    guest := new MMRGuest(sha);
    for i := 0 to |leaves|
      invariant fresh(native) && fresh(guest) && native.sha == guest.sha == sha
      invariant native.Valid() && native.Leaves() == leaves[..i] && guest.Represents(native.Leaves())
    {
      AppendBoth(native, guest, leaves[i]);
    }
  }

  // ---------- helpers ----------

  /** One turn of the proof loop. */
  lemma {:induction false} PathStep(sha: Sha, proof: seq<Digest>, level: seq<Digest>, i: nat)
    requires i < |level| && !(i == |level| - 1 && |level| % 2 == 1)
    ensures Sibling(i) < |level| && i / 2 < |Up(sha, level)|
    ensures proof + Path(sha, level, i) == proof + [level[Sibling(i)]] + Path(sha, Up(sha, level), i / 2)
  {
    ParentOf(sha, level, i);
  }

  lemma {:induction false} PathEnds(sha: Sha, proof: seq<Digest>, level: seq<Digest>, i: nat)
    requires i < |level| && i == |level| - 1 && |level| % 2 == 1
    ensures proof + Path(sha, level, i) == proof
  {
  }

  lemma {:induction false} NoSteps(path: seq<Digest>)
    ensures path == [] + path
  {
  }

  /** Level `level` has just received `added`; the levels above it are still those of `below`. */
  ghost predicate Extending(sha: Sha, nodes: seq<seq<Digest>>, level: nat, below: seq<Digest>, added: Digest)
    requires level < |nodes|
  {
    nodes[level..] == [below + [added]] + Levels(sha, below)[1..]
  }

  lemma {:induction false} LevelOf(sha: Sha, nodes: seq<seq<Digest>>, level: nat, below: seq<Digest>, added: Digest)
    requires level < |nodes| && Extending(sha, nodes, level, below, added)
    ensures nodes[level] == below + [added]
    ensures level < |nodes| - 1 ==> |below| > 1
    ensures level == |nodes| - 1 ==> |below| <= 1
  {
    assert nodes[level] == nodes[level..][0];
    assert |nodes[level..]| == |Levels(sha, below)|;
  }

  lemma {:induction false} ExtendEven(sha: Sha, nodes: seq<seq<Digest>>, level: nat, below: seq<Digest>, added: Digest)
    requires level < |nodes| && Extending(sha, nodes, level, below, added)
    requires |below| % 2 == 0 && |below| > 1
    ensures Levels(sha, below + [added]) == nodes[level..]
  {
    UpAppend(sha, below, added);
  }

  lemma {:induction false} ExtendOdd(sha: Sha, nodes: seq<seq<Digest>>, level: nat, below: seq<Digest>, added: Digest)
    requires level < |nodes| - 1 && Extending(sha, nodes, level, below, added)
    requires |below| % 2 == 1 && |below| > 1
    ensures var node := HashPair(sha, below[|below| - 1], added);
            var next := nodes[level + 1 := nodes[level + 1] + [node]];
            Extending(sha, next, level + 1, Up(sha, below), node) &&
            Levels(sha, below + [added]) == [below + [added]] + Levels(sha, Up(sha, below) + [node])
  {
    UpAppend(sha, below, added);
    var above := Up(sha, below);
    var node := HashPair(sha, below[|below| - 1], added);
    var next := nodes[level + 1 := nodes[level + 1] + [node]];
    assert nodes[level..][1..] == Levels(sha, above);
    assert nodes[level + 1] == nodes[level..][1] == above;
    assert next[level + 1..] == [above + [node]] + nodes[level..][1..][1..];
  }

  lemma {:induction false} ExtendTop(sha: Sha, below: seq<Digest>, added: Digest)
    requires |below| == 1
    ensures Levels(sha, below + [added]) == [below + [added]] + [[HashPair(sha, below[0], added)]]
  {
    var level := below + [added];
    assert |level| == 2 && level[0] == below[0] && level[1] == added;
    var above := Up(sha, level);
    assert |above| == 1 && above[0] == HashPair(sha, level[0], level[1]);
    assert above == [HashPair(sha, below[0], added)];
    assert Levels(sha, above) == [above];
  }

  function Reversed(s: seq<Digest>): (r: seq<Digest>)
    ensures |r| == |s|
  {
    if s == [] then [] else Reversed(s[1..]) + [s[0]]
  }

  lemma {:induction false} ReversedSnoc(s: seq<Digest>, x: Digest)
    ensures Reversed(s + [x]) == [x] + Reversed(s)
  {
    if s != [] {
      assert (s + [x])[1..] == s[1..] + [x];
      ReversedSnoc(s[1..], x);
    }
  }

  lemma {:induction false} NothingAbove(sha: Sha)
    ensures Peaks(sha, []) == [] && Reversed([]) == []
  {
  }

  /** A stored level and the levels above it. */
  lemma {:induction false} LevelsFrom(sha: Sha, nodes: seq<seq<Digest>>, level: nat, rest: seq<Digest>)
    requires level < |nodes| && nodes[level..] == Levels(sha, rest)
    ensures nodes[level] == rest
    ensures level + 1 < |nodes| ==> nodes[level + 1..] == Levels(sha, Up(sha, rest))
    ensures level + 1 == |nodes| ==> |rest| <= 1
  {
    assert nodes[level] == nodes[level..][0];
    assert nodes[level + 1..] == nodes[level..][1..];
  }

  /** Visiting one level moves its odd last node from the peaks still to come to the subroots found. */
  lemma {:induction false} SubrootStep(sha: Sha, rest: seq<Digest>, found: seq<Digest>)
    ensures Peaks(sha, rest) + Reversed(found) == Peaks(sha, Up(sha, rest)) + Reversed(found + OddLast(rest))
    ensures |rest| <= 1 ==> Up(sha, rest) == []
  {
    if rest == [] {
      assert Up(sha, rest) == [];
      assert found + OddLast(rest) == found;
    } else if |rest| % 2 == 1 {
      ReversedSnoc(found, rest[|rest| - 1]);
    } else {
      assert found + OddLast(rest) == found;
    }
  }

  lemma {:induction false} LevelsTop(sha: Sha, leaves: seq<Digest>)
    ensures |Levels(sha, leaves)[|Levels(sha, leaves)| - 1]| <= 1
    decreases |leaves|
  {
    if |leaves| > 1 { LevelsTop(sha, Up(sha, leaves)); }
  }

  lemma {:induction false} OnesShr(n: nat, i: nat)
    ensures Ones(Shr(n, i)) == Shr(n, i) % 2 + Ones(Shr(n, i + 1))
  {
  }

  lemma {:induction false} ShrAll(n: nat)
    ensures Shr(n, BitLength(n)) == 0
  {
    ShrIsDiv(n, BitLength(n));
    if n > 0 {
      BitLengthBounds(n);
      DivModUnique(n, Pow2(BitLength(n)), 0, n);
    }
  }

  lemma {:induction false} HeightBelowLength(n: nat, i: nat)
    requires i < n
    ensures Height(n, i) < BitLength(n)
    decreases n
  {
    if !IsPeak(n, i) { HeightBelowLength(n / 2, i / 2); }
  }

  lemma {:induction false} PeakIndexCountsTaller(n: nat, i: nat)
    requires i < n
    ensures PeakIndex(n, i) == Ones(Shr(n, Height(n, i) + 1))
    decreases n
  {
    if IsPeak(n, i) {
      assert Shr(n, 1) == n / 2;
    } else {
      PeakIndexCountsTaller(n / 2, i / 2);
      ShrHalf(n, Height(n / 2, i / 2) + 1);
    }
  }
}
