/** What a path of any length to the standard Merkle root shows: `get_root` (final-spv/src/merkle_tree.rs) does not know how high
    the tree is. */
module MerkleBinding {
  import opened Arithmetic
  import opened Hashing
  import opened MerkleTree

  lemma {:induction false} RaisedTop(sha: Sha, level: seq<Digest>, d: nat)
    requires level != [] && d <= Depth(|level|)
    ensures Raised(sha, Standard, level, d) != [] && Depth(|Raised(sha, Standard, level, d)|) == Depth(|level|) - d
    ensures Top(sha, Standard, Raised(sha, Standard, level, d)) == Top(sha, Standard, level)
    decreases d
  {
    if d > 0 { RaisedTop(sha, Above(sha, Standard, level), d - 1); }
  }

  lemma {:induction false} FoldSplit(sha: Sha, current: Digest, index: nat, path: seq<Digest>, d: nat)
    requires d <= |path|
    ensures FoldRoot(sha, current, index, path) == FoldRoot(sha, FoldRoot(sha, current, index, path[..d]), Shr(index, d), path[d..])
    decreases d
  {
    hide CombineNode;
    if d == 0 {
      assert path[..0] == [] && path[0..] == path;
    } else {
      assert path[..d][1..] == path[1..][..d - 1] && path[1..][d - 1..] == path[d..];
      ShrHalf(index, d - 1);
      FoldSplit(sha, CombineNode(sha, index % 2 == 0, current, path[0]), index / 2, path[1..], d - 1);
    }
  }

  /** The byte string that step d hashes twice. */
  function StepInput(sha: Sha, current: Digest, index: nat, path: seq<Digest>, d: nat): seq<Byte>
    requires 0 < d <= |path|
  {
    Claimed(sha, Shr(index, d - 1) % 2 == 0, FoldRoot(sha, current, index, path[..d - 1]), path[d - 1])
  }

  lemma {:induction false} StepHashes(sha: Sha, current: Digest, index: nat, path: seq<Digest>, d: nat)
    requires 0 < d <= |path|
    ensures |StepInput(sha, current, index, path, d)| == 64
    ensures FoldRoot(sha, current, index, path[..d]) == DoubleSha(sha, StepInput(sha, current, index, path, d))
  {
    var head := path[..d];
    FoldSplit(sha, current, index, head, d - 1);
    assert head[..d - 1] == path[..d - 1] && head[d - 1..] == [path[d - 1]] && [path[d - 1]][1..] == [];
  }

  /** Leaves that are double hashes of byte strings, as transaction identifiers are. */
  ghost predicate HashedLeaves(sha: Sha, inputs: seq<seq<Byte>>, std: seq<Digest>) {
    |inputs| == |std| && forall i :: 0 <= i < |std| ==> std[i] == DoubleSha(sha, inputs[i])
  }

  /** Two inputs of SHA-256 read off a path and the true tree. */
  function ExtractAnyLength(sha: Sha, inputs: seq<seq<Byte>>, std: seq<Digest>, input: seq<Byte>, index: nat, path: seq<Digest>)
      : (seq<Byte>, seq<Byte>)
    requires std != [] && |inputs| == |std|
  {
    var txid := DoubleSha(sha, input);
    if |path| == Depth(|std|) then
      LeafAtInRange(|std|, index);
      if txid == std[LeafAt(|std|, index)] then OneStep(sha, input, inputs[LeafAt(|std|, index)])
      else ExtractCollision(sha, std, txid, index, path)
    else if |path| > Depth(|std|) then
      var d := |path| - Depth(|std|);
      var claimed := StepInput(sha, txid, index, path, d);
      LeafAtInRange(|std|, Shr(index, d));
      var j := LeafAt(|std|, Shr(index, d));
      if DoubleSha(sha, claimed) == std[j] then OneStep(sha, claimed, inputs[j])
      else ExtractCollision(sha, std, DoubleSha(sha, claimed), Shr(index, d), path[d..])
    else
      var d := Depth(|std|) - |path|;
      RaisedTop(sha, std, d);
      RaisedLast(sha, Standard, std, d);
      var below, level := Raised(sha, Standard, std, d - 1), Raised(sha, Standard, std, d);
      LeafAtInRange(|level|, index);
      var j := LeafAt(|level|, index);
      if txid == level[j] then OneStep(sha, input, Joined(below[2 * j], Right(below, j)))
      else ExtractCollision(sha, level, txid, index, path)
  }

  lemma {:induction false} SameDoubleSha(sha: Sha, x: seq<Byte>, y: seq<Byte>)
    requires DoubleSha(sha, x) == DoubleSha(sha, y)
    ensures x == y || Exhibits(sha, OneStep(sha, x, y))
  {
  }

  lemma {:induction false} FullPathBinds(sha: Sha, inputs: seq<seq<Byte>>, std: seq<Digest>, input: seq<Byte>, index: nat,
                                         path: seq<Digest>)
    requires std != [] && HashedLeaves(sha, inputs, std) && |path| == Depth(|std|)
    requires FoldRoot(sha, DoubleSha(sha, input), index, path) == Top(sha, Standard, std)
    ensures LeafAt(|std|, index) < |std|
    ensures input == inputs[LeafAt(|std|, index)] || Exhibits(sha, ExtractAnyLength(sha, inputs, std, input, index, path))
  {
    hide FoldRoot;
    hide Top;
    hide Depth;
    hide LeafAt;
    hide ExtractCollision;
    hide OneStep;
    hide DoubleSha;
    RootBinds(sha, std, DoubleSha(sha, input), index, path);
    var j := LeafAt(|std|, index);
    if DoubleSha(sha, input) == std[j] { SameDoubleSha(sha, input, inputs[j]); }
  }

  lemma {:induction false} LongPathBinds(sha: Sha, inputs: seq<seq<Byte>>, std: seq<Digest>, input: seq<Byte>, index: nat,
                                         path: seq<Digest>)
    requires std != [] && HashedLeaves(sha, inputs, std) && |path| > Depth(|std|)
    requires forall i :: 0 <= i < |inputs| ==> |inputs[i]| != 64
    requires FoldRoot(sha, DoubleSha(sha, input), index, path) == Top(sha, Standard, std)
    ensures Exhibits(sha, ExtractAnyLength(sha, inputs, std, input, index, path))
  {
    hide FoldRoot;
    hide Top;
    hide Depth;
    hide LeafAt;
    hide ExtractCollision;
    hide OneStep;
    hide DoubleSha;
    hide StepInput;
    hide Shr;
    var txid, d := DoubleSha(sha, input), |path| - Depth(|std|);
    var claimed := StepInput(sha, txid, index, path, d);
    FoldSplit(sha, txid, index, path, d);
    StepHashes(sha, txid, index, path, d);
    RootBinds(sha, std, DoubleSha(sha, claimed), Shr(index, d), path[d..]);
    var j := LeafAt(|std|, Shr(index, d));
    if DoubleSha(sha, claimed) == std[j] { SameDoubleSha(sha, claimed, inputs[j]); }
  }

  lemma {:induction false} ShortPathBinds(sha: Sha, inputs: seq<seq<Byte>>, std: seq<Digest>, input: seq<Byte>, index: nat,
                                          path: seq<Digest>)
    requires std != [] && HashedLeaves(sha, inputs, std) && |path| < Depth(|std|) && |input| != 64
    requires FoldRoot(sha, DoubleSha(sha, input), index, path) == Top(sha, Standard, std)
    ensures Exhibits(sha, ExtractAnyLength(sha, inputs, std, input, index, path))
  {
    hide FoldRoot;
    hide Top;
    hide Depth;
    hide LeafAt;
    hide ExtractCollision;
    hide OneStep;
    hide Raised;
    var txid, d := DoubleSha(sha, input), Depth(|std|) - |path|;
    RaisedTop(sha, std, d);
    RaisedLast(sha, Standard, std, d);
    var below, level := Raised(sha, Standard, std, d - 1), Raised(sha, Standard, std, d);
    RootBinds(sha, level, txid, index, path);
    var j := LeafAt(|level|, index);
    if txid == level[j] { SameDoubleSha(sha, input, Joined(below[2 * j], Right(below, j))); }
  }

  /** When neither the string nor any leaf's string has the 64 bytes of an inner node, a path of any length that folds to the
      standard root is as long as the tree is high and names the string's own leaf, or exhibits a collision. */
  lemma {:induction false} AnyLengthBinds(sha: Sha, inputs: seq<seq<Byte>>, std: seq<Digest>, input: seq<Byte>, index: nat,
                                          path: seq<Digest>)
    requires std != [] && HashedLeaves(sha, inputs, std)
    requires |input| != 64 && forall i :: 0 <= i < |inputs| ==> |inputs[i]| != 64
    requires FoldRoot(sha, DoubleSha(sha, input), index, path) == Top(sha, Standard, std)
    ensures LeafAt(|std|, index) < |std|
    ensures (|path| == Depth(|std|) && input == inputs[LeafAt(|std|, index)]) ||
            Exhibits(sha, ExtractAnyLength(sha, inputs, std, input, index, path))
  {
    hide *;
    LeafAtInRange(|std|, index);
    if |path| == Depth(|std|) {
      FullPathBinds(sha, inputs, std, input, index, path);
    } else if |path| > Depth(|std|) {
      LongPathBinds(sha, inputs, std, input, index, path);
    } else {
      ShortPathBinds(sha, inputs, std, input, index, path);
    }
  }

  // ---------- 64-byte strings ----------

  lemma {:induction false} IdxPathStep(sha: Sha, mid: seq<Digest>, i: nat)
    requires i < |mid| && |mid| > 1
    ensures |IdxPath(sha, MidState, mid, i)| > 0
    ensures FoldRoot(sha, sha(Above(sha, MidState, mid)[i / 2]), i / 2, IdxPath(sha, MidState, mid, i)[1..]) ==
            Top(sha, Standard, Hashed(sha, mid))
  {
    var above := Above(sha, MidState, mid);
    AboveCommutes(sha, mid);
    FoldReachesTop(sha, above, i / 2);
    assert IdxPath(sha, MidState, mid, i)[1..] == IdxPath(sha, MidState, above, i / 2);
  }

  /** The condition is needed: a string that joins two neighbouring leaves is accepted by the path of the leaf without its
      first step. */
  lemma {:induction false} JoinedLeavesFoldToRoot(sha: Sha, mid: seq<Digest>, i: nat)
    requires i < |mid| && |mid| > 1
    ensures |IdxPath(sha, MidState, mid, i)| > 0
    ensures var std := Hashed(sha, mid);
            FoldRoot(sha, DoubleSha(sha, Joined(std[2 * (i / 2)], Right(std, i / 2))), i / 2, IdxPath(sha, MidState, mid, i)[1..]) ==
            Top(sha, Standard, std)
  {
    IdxPathStep(sha, mid, i);
    AboveCommutes(sha, mid);
    hide FoldRoot;
    hide IdxPath;
    hide Top;
    var std := Hashed(sha, mid);
    assert Above(sha, Standard, std)[i / 2] == DoubleSha(sha, Joined(std[2 * (i / 2)], Right(std, i / 2)));
    assert Hashed(sha, Above(sha, MidState, mid))[i / 2] == sha(Above(sha, MidState, mid)[i / 2]);
  }

  /** And for the leaves' strings: a leaf of 64 bytes, read as an inner node, lets any string be accepted whose double hash is
      its first half, by a path that is one step longer. */
  lemma {:induction false} SplitLeafFoldsToRoot(sha: Sha, mid: seq<Digest>, i: nat, input: seq<Byte>, sibling: Digest)
    requires i < |mid| && mid[i] == sha(Joined(DoubleSha(sha, input), sha(sibling)))
    ensures FoldRoot(sha, DoubleSha(sha, input), 2 * i, [sibling] + IdxPath(sha, MidState, mid, i)) ==
            Top(sha, Standard, Hashed(sha, mid))
  {
    hide IdxPath;
    hide Top;
    hide DoubleSha;
    hide Hashed;
    FoldReachesTop(sha, mid, i);
    FirstFold(sha, DoubleSha(sha, input), i, sibling, IdxPath(sha, MidState, mid, i));
    DoubleIsTwice(sha, Joined(DoubleSha(sha, input), sha(sibling)));
  }

  lemma {:induction false} DoubleIsTwice(sha: Sha, x: seq<Byte>)
    ensures DoubleSha(sha, x) == sha(sha(x))
  {
  }

  lemma {:induction false} FirstFold(sha: Sha, current: Digest, i: nat, sibling: Digest, path: seq<Digest>)
    ensures FoldRoot(sha, current, 2 * i, [sibling] + path) == FoldRoot(sha, DoubleSha(sha, Joined(current, sha(sibling))), i, path)
  {
    var whole, next := [sibling] + path, DoubleSha(sha, Joined(current, sha(sibling)));
    assert whole[0] == sibling && whole[1..] == path;
    assert FoldRoot(sha, current, 2 * i, whole) == FoldRoot(sha, CombineNode(sha, 2 * i % 2 == 0, current, sibling), 2 * i / 2, path);
    hide FoldRoot;
    assert CombineNode(sha, true, current, sibling) == next;
    hide DoubleSha;
    hide Joined;
    assert 2 * i % 2 == 0 && 2 * i / 2 == i;
  }
}
