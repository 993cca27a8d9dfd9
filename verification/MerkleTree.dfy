/** final-spv/src/merkle_tree.rs: the standard Bitcoin Merkle tree, the mid-state tree, and the proofs that
    are generated from the second and checked against the root of the first. */
module MerkleTree {
  import opened Arithmetic
  import opened Hashing
  import opened Wrappers

  datatype BitcoinMerkleTree = BitcoinMerkleTree(nodes: seq<seq<Digest>>)

  datatype BlockInclusionProof = BlockInclusionProof(idx: nat, merkleProof: seq<Digest>)

  /** The two ways of hashing a pair of children. */
  datatype Rule = Standard | MidState

  function Parent(sha: Sha, rule: Rule, left: Digest, right: Digest): Digest {
    match rule
    case Standard => DoubleSha(sha, Joined(left, right))
    case MidState => sha(Joined(sha(left), sha(right)))
  }

  /** The right child of pair i: the last node of an odd level is paired with itself. */
  function Right(level: seq<Digest>, i: nat): Digest
    requires 2 * i < |level|
  {
    if 2 * i + 1 < |level| then level[2 * i + 1] else level[2 * i]
  }

  function Above(sha: Sha, rule: Rule, level: seq<Digest>): (r: seq<Digest>)
    ensures |r| == (|level| + 1) / 2
  {
    seq((|level| + 1) / 2, i requires 0 <= i < (|level| + 1) / 2 => Parent(sha, rule, level[2 * i], Right(level, i)))
  }

  /** Every node written out: its children joined in order, an unpaired last child with itself. */
  lemma {:induction false} AboveWritten(sha: Sha, level: seq<Digest>, i: nat)
    requires 2 * i < |level|
    ensures var left: seq<Byte>, right: seq<Byte> := level[2 * i], level[if 2 * i + 1 < |level| then 2 * i + 1 else 2 * i];
            Above(sha, Standard, level)[i] == sha(sha(left + right)) &&
            Above(sha, MidState, level)[i] == sha(sha(left) + sha(right))
  {
  }

  /** The level d steps above. */
  function Raised(sha: Sha, rule: Rule, level: seq<Digest>, d: nat): seq<Digest>
    decreases d
  {
    if d == 0 then level else Raised(sha, rule, Above(sha, rule, level), d - 1)
  }

  lemma {:induction false} RaisedLast(sha: Sha, rule: Rule, level: seq<Digest>, d: nat)
    requires d > 0
    ensures Raised(sha, rule, level, d) == Above(sha, rule, Raised(sha, rule, level, d - 1))
    decreases d
  {
    hide Above;
    if d > 1 { RaisedLast(sha, rule, Above(sha, rule, level), d - 1); }
  }

  /** Two equal nodes side by side: the sign of a mutated transaction list. */
  predicate HasTwins(level: seq<Digest>) {
    exists i | 0 <= i < |level| / 2 :: level[2 * i] == level[2 * i + 1]
  }

  /** The whole tree, or None where the source panics on twins. */
  function Build(sha: Sha, rule: Rule, level: seq<Digest>): (r: Option<seq<seq<Digest>>>)
    ensures r.Some? ==> |r.value| >= 1 && r.value[0] == level
    decreases |level|
  {
    if |level| <= 1 then Some([level])
    else if HasTwins(level) then None
    else match Build(sha, rule, Above(sha, rule, level))
      case None => None
      case Some(upper) => Some([level] + upper)
  }

  /** Where the source finds twins: an even place i of the level d steps up. */
  lemma {:induction false} FindTwins(sha: Sha, rule: Rule, level: seq<Digest>) returns (d: nat, i: nat)
    requires Build(sha, rule, level).None?
    ensures i % 2 == 0 && i + 1 < |Raised(sha, rule, level, d)|
    ensures Raised(sha, rule, level, d)[i] == Raised(sha, rule, level, d)[i + 1]
    decreases |level|
  {
    hide Above;
    if HasTwins(level) {
      var k :| 0 <= k < |level| / 2 && level[2 * k] == level[2 * k + 1];
      d, i := 0, 2 * k;
    } else {
      d, i := FindTwins(sha, rule, Above(sha, rule, level));
      d := d + 1;
    }
  }

  lemma {:induction false} FewNodes(sha: Sha, rule: Rule, level: seq<Digest>, d: nat)
    requires |level| <= 1
    ensures |Raised(sha, rule, level, d)| <= 1
    decreases d
  {
    hide Above;
    if d > 0 { FewNodes(sha, rule, Above(sha, rule, level), d - 1); }
  }

  lemma {:induction false} TwinsReject(sha: Sha, rule: Rule, level: seq<Digest>, d: nat, i: nat)
    requires i % 2 == 0 && i + 1 < |Raised(sha, rule, level, d)|
    requires Raised(sha, rule, level, d)[i] == Raised(sha, rule, level, d)[i + 1]
    ensures Build(sha, rule, level).None?
    decreases d
  {
    hide Above;
    if d == 0 {
      assert level[2 * (i / 2)] == level[2 * (i / 2) + 1];
    } else {
      if |level| <= 1 { FewNodes(sha, rule, level, d); }
      TwinsReject(sha, rule, Above(sha, rule, level), d - 1, i);
    }
  }

  /** A list is rejected exactly when some level above it pairs two equal nodes. */
  lemma {:induction false} BuildRejects(sha: Sha, rule: Rule, level: seq<Digest>)
    ensures Build(sha, rule, level).None? <==>
            exists d: nat, i: nat :: i % 2 == 0 && i + 1 < |Raised(sha, rule, level, d)| &&
                                     Raised(sha, rule, level, d)[i] == Raised(sha, rule, level, d)[i + 1]
  {
    hide Raised;
    hide Build;
    if Build(sha, rule, level).None? { var d, i := FindTwins(sha, rule, level); }
    if d: nat, i: nat :| i % 2 == 0 && i + 1 < |Raised(sha, rule, level, d)| &&
                         Raised(sha, rule, level, d)[i] == Raised(sha, rule, level, d)[i + 1] {
      TwinsReject(sha, rule, level, d, i);
    }
  }

  function Top(sha: Sha, rule: Rule, level: seq<Digest>): Digest
    requires level != []
    decreases |level|
  {
    if |level| == 1 then level[0] else Top(sha, rule, Above(sha, rule, level))
  }

  /** Node by node, SHA-256. */
  function Hashed(sha: Sha, level: seq<Digest>): (r: seq<Digest>)
    ensures |r| == |level|
  {
    seq(|level|, i requires 0 <= i < |level| => sha(level[i]))
  }

  /** One level of either constructor's while loop, stopping at the first pair of twins. */
  method BuildLevel(sha: Sha, rule: Rule, level: seq<Digest>) returns (r: Option<seq<Digest>>)
    ensures r == if HasTwins(level) then None else Some(Above(sha, rule, level))
  {
    var next: seq<Digest> := [];
    for i := 0 to |level| / 2
      invariant |next| == i && next == Above(sha, rule, level)[..i]
      invariant forall k :: 0 <= k < i ==> level[2 * k] != level[2 * k + 1]
    {
      if level[2 * i] == level[2 * i + 1] {
        return None;
      }
      next := next + [Parent(sha, rule, level[2 * i], level[2 * i + 1])];
    }
    if |level| % 2 == 1 {
      next := next + [Parent(sha, rule, level[|level| - 1], level[|level| - 1])];
    }
    assert next == Above(sha, rule, level);
    return Some(next);
  }

  lemma {:induction false} LastLevelFirst(nodes: seq<seq<Digest>>, upper: seq<seq<Digest>>)
    requires nodes != []
    ensures nodes[..|nodes| - 1] + ([nodes[|nodes| - 1]] + upper) == nodes + upper
  {
  }

  /** The tree over two leaves, written out. */
  lemma {:induction false} TwoLeaves(sha: Sha, a: Digest, b: Digest)
    requires a != b
    ensures Build(sha, Standard, [a, b]) == Some([[a, b], [sha(sha(a + b))]])
    ensures Build(sha, MidState, [a, b]) == Some([[a, b], [sha(sha(a) + sha(b))]])
  {
    TwoNodes(sha, Standard, a, b);
    TwoNodes(sha, MidState, a, b);
  }

  lemma {:induction false} TwoNodes(sha: Sha, rule: Rule, a: Digest, b: Digest)
    requires a != b
    ensures Build(sha, rule, [a, b]) == Some([[a, b], [Parent(sha, rule, a, b)]])
  {
    hide Parent;
    assert Above(sha, rule, [a, b]) == [Parent(sha, rule, a, b)];
    assert !HasTwins([a, b]) by { assert [a, b][0] != [a, b][1]; }
    assert Build(sha, rule, [Parent(sha, rule, a, b)]) == Some([[Parent(sha, rule, a, b)]]);
    assert [[a, b]] + [[Parent(sha, rule, a, b)]] == [[a, b], [Parent(sha, rule, a, b)]];
  }

  /** `new` (Standard, on txids) and `new_mid_state` (MidState, on first digests). */
  method New(sha: Sha, rule: Rule, leaves: seq<Digest>) returns (r: Option<BitcoinMerkleTree>)
    ensures r == match Build(sha, rule, leaves) case None => None case Some(nodes) => Some(BitcoinMerkleTree(nodes))
    ensures r.None? <==>
            exists d: nat, i: nat :: i % 2 == 0 && i + 1 < |Raised(sha, rule, leaves, d)| &&
                                     Raised(sha, rule, leaves, d)[i] == Raised(sha, rule, leaves, d)[i + 1]
    ensures r.Some? ==> IsTree(sha, rule, r.value.nodes) && r.value.nodes[0] == leaves
  {
    hide Raised;
    hide Above;
    hide HasTwins;
    hide IsTree;
    BuildRejects(sha, rule, leaves);
    if Build(sha, rule, leaves).Some? { BuildIsTree(sha, rule, leaves); }
    if |leaves| == 1 {
      return Some(BitcoinMerkleTree([leaves]));
    }
    var nodes := [leaves];
    assert Build(sha, rule, leaves).Some? ==> [] + Build(sha, rule, leaves).value == Build(sha, rule, leaves).value;
    while |nodes[|nodes| - 1]| > 1
      invariant |nodes| > 0
      invariant match Build(sha, rule, nodes[|nodes| - 1])
                case None => Build(sha, rule, leaves) == None
                case Some(upper) => Build(sha, rule, leaves) == Some(nodes[..|nodes| - 1] + upper)
      decreases |nodes[|nodes| - 1]|
    {
      var level := nodes[|nodes| - 1];
      var next := BuildLevel(sha, rule, level);
      if next.None? {
        return None;
      }
      if Build(sha, rule, next.value).Some? { LastLevelFirst(nodes, Build(sha, rule, next.value).value); }
      assert (nodes + [next.value])[..|nodes|] == nodes;
      nodes := nodes + [next.value];
    }
    assert nodes[..|nodes| - 1] + [nodes[|nodes| - 1]] == nodes;
    return Some(BitcoinMerkleTree(nodes));
  }

  /** Panics (None) on a tree without nodes. */
  function Root(tree: BitcoinMerkleTree): Option<Digest> {
    if tree.nodes == [] || tree.nodes[|tree.nodes| - 1] == [] then None
    else Some(tree.nodes[|tree.nodes| - 1][0])
  }

  /** The sibling of node i, itself for an unpaired last node. */
  function SiblingOf(level: seq<Digest>, i: nat): Digest
    requires i < |level|
  {
    if i % 2 == 1 then level[i - 1] else if i == |level| - 1 then level[i] else level[i + 1]
  }

  function IdxPath(sha: Sha, rule: Rule, level: seq<Digest>, i: nat): seq<Digest>
    requires i < |level|
    decreases |level|
  {
    if |level| <= 1 then [] else [SiblingOf(level, i)] + IdxPath(sha, rule, Above(sha, rule, level), i / 2)
  }

  /** The sibling at every level: the neighbour that shares the parent, or the node itself where it has none. */
  lemma {:induction false} IdxPathWritten(sha: Sha, rule: Rule, level: seq<Digest>, i: nat, d: nat)
    requires i < |level| && d < |IdxPath(sha, rule, level, i)|
    ensures var l, k := Raised(sha, rule, level, d), Shr(i, d);
            k < |l| && |l| > 1 &&
            IdxPath(sha, rule, level, i)[d] == l[if k % 2 == 1 then k - 1 else if k + 1 < |l| then k + 1 else k]
    decreases d
  {
    hide Above;
    if d > 0 {
      ShrHalf(i, d - 1);
      IdxPathWritten(sha, rule, Above(sha, rule, level), i / 2, d - 1);
    }
  }

  /** The path ends where one node is left. */
  lemma {:induction false} IdxPathEnds(sha: Sha, rule: Rule, level: seq<Digest>, i: nat)
    requires i < |level|
    ensures |Raised(sha, rule, level, |IdxPath(sha, rule, level, i)|)| == 1
    decreases |level|
  {
    hide Above;
    if |level| > 1 { IdxPathEnds(sha, rule, Above(sha, rule, level), i / 2); }
  }

  /** Each level is the one above the level before it, up to a single node. */
  ghost predicate IsTree(sha: Sha, rule: Rule, nodes: seq<seq<Digest>>) {
    |nodes| > 0 && |nodes[|nodes| - 1]| <= 1 &&
    forall l :: 0 <= l < |nodes| - 1 ==> |nodes[l]| > 1 && nodes[l + 1] == Above(sha, rule, nodes[l])
  }

  lemma {:induction false} BuildIsTree(sha: Sha, rule: Rule, level: seq<Digest>)
    requires Build(sha, rule, level).Some?
    ensures IsTree(sha, rule, Build(sha, rule, level).value)
    decreases |level|
  {
    if |level| > 1 {
      var above := Above(sha, rule, level);
      BuildIsTree(sha, rule, above);
      var upper := Build(sha, rule, above).value;
      var nodes := [level] + upper;
      forall l | 0 <= l < |nodes| - 1
        ensures |nodes[l]| > 1 && nodes[l + 1] == Above(sha, rule, nodes[l])
      {
        if l > 0 { assert nodes[l] == upper[l - 1] && nodes[l + 1] == upper[l - 1 + 1]; }
      }
    }
  }

  /** Panics (None) on an index out of bounds. */
  method GenerateProof(sha: Sha, ghost rule: Rule, tree: BitcoinMerkleTree, index: nat)
      returns (r: Option<BlockInclusionProof>)
    requires IsTree(sha, rule, tree.nodes)
    ensures r == if index < |tree.nodes[0]| then Some(BlockInclusionProof(index, IdxPath(sha, rule, tree.nodes[0], index)))
                 else None
  {
    if index >= |tree.nodes[0]| { return None; }
    var path: seq<Digest> := [];
    var level, i := 0, index;
    while level < |tree.nodes| - 1
      invariant 0 <= level < |tree.nodes| && 0 <= i < |tree.nodes[level]|
      invariant IdxPath(sha, rule, tree.nodes[0], index) == path + IdxPath(sha, rule, tree.nodes[level], i)
    {
      var sibling;
      if i % 2 == 1 {
        OddIsPositive(i);
        sibling := tree.nodes[level][i - 1];
      } else if |tree.nodes[level]| - 1 == i {
        sibling := tree.nodes[level][i];
      } else {
        sibling := tree.nodes[level][i + 1];
      }
      SnocAssoc(path, sibling, IdxPath(sha, rule, tree.nodes[level + 1], i / 2));
      path := path + [sibling];
      level, i := level + 1, i / 2;
    }
    assert path + [] == path;
    return Some(BlockInclusionProof(index, path));
  }

  lemma {:induction false} OddIsPositive(i: nat)
    requires i % 2 == 1
    ensures i >= 1
  {
  }

  lemma {:induction false} SnocAssoc<T>(a: seq<T>, x: T, b: seq<T>)
    ensures a + ([x] + b) == (a + [x]) + b
  {
  }

  function CombineNode(sha: Sha, isLeft: bool, current: Digest, sibling: Digest): Digest {
    if isLeft then DoubleSha(sha, Joined(current, sha(sibling))) else DoubleSha(sha, Joined(sha(sibling), current))
  }

  function FoldRoot(sha: Sha, current: Digest, index: nat, path: seq<Digest>): Digest
    decreases |path|
  {
    if path == [] then current
    else FoldRoot(sha, CombineNode(sha, index % 2 == 0, current, path[0]), index / 2, path[1..])
  }

  /** One step written out: the running hash on the left for an even index. */
  lemma {:induction false} FoldWritten(sha: Sha, current: Digest, index: nat, sibling: Digest, path: seq<Digest>)
    ensures FoldRoot(sha, current, index, []) == current
    ensures FoldRoot(sha, current, index, [sibling] + path) ==
            FoldRoot(sha, if index % 2 == 0 then sha(sha(current + sha(sibling))) else sha(sha(sha(sibling) + current)), index / 2, path)
  {
    assert ([sibling] + path)[1..] == path;
  }

  method GetRoot(sha: Sha, proof: BlockInclusionProof, txid: Digest) returns (combinedHash: Digest)
    ensures combinedHash == FoldRoot(sha, txid, proof.idx, proof.merkleProof)
  {
    combinedHash := txid;
    var index, level := proof.idx, 0;
    while level < |proof.merkleProof|
      invariant 0 <= level <= |proof.merkleProof|
      invariant FoldRoot(sha, txid, proof.idx, proof.merkleProof) ==
                FoldRoot(sha, combinedHash, index, proof.merkleProof[level..])
    {
      assert proof.merkleProof[level..][1..] == proof.merkleProof[level + 1..];
      var sibling := sha(proof.merkleProof[level]);
      if index % 2 == 0 {
        combinedHash := DoubleSha(sha, Joined(combinedHash, sibling));
      } else {
        combinedHash := DoubleSha(sha, Joined(sibling, combinedHash));
      }
      level, index := level + 1, index / 2;
    }
  }

  // ---------- commutation of the two trees ----------

  /** Hashing a mid-state level and building upwards commute. */
  lemma {:induction false} AboveCommutes(sha: Sha, mid: seq<Digest>)
    ensures Above(sha, Standard, Hashed(sha, mid)) == Hashed(sha, Above(sha, MidState, mid))
  {
    var std := Hashed(sha, mid);
    forall i | 0 <= i < (|mid| + 1) / 2
      ensures Above(sha, Standard, std)[i] == Hashed(sha, Above(sha, MidState, mid))[i]
    {
      assert std[2 * i] == sha(mid[2 * i]) && Right(std, i) == sha(Right(mid, i));
    }
  }

  lemma {:induction false} TwinsCommute(sha: Sha, mid: seq<Digest>)
    ensures HasTwins(mid) ==> HasTwins(Hashed(sha, mid))
  {
    if HasTwins(mid) {
      var i :| 0 <= i < |mid| / 2 && mid[2 * i] == mid[2 * i + 1];
      var std := Hashed(sha, mid);
      assert std[2 * i] == std[2 * i + 1];
    }
  }

  /** Whatever the standard constructor accepts, the mid-state constructor accepts, and every standard node is
      SHA-256 of the mid-state node at the same place. */
  lemma {:induction false} TreesCommute(sha: Sha, mid: seq<Digest>)
    requires Build(sha, Standard, Hashed(sha, mid)).Some?
    ensures Build(sha, MidState, mid).Some?
    ensures var std, ms := Build(sha, Standard, Hashed(sha, mid)).value, Build(sha, MidState, mid).value;
            |std| == |ms| && forall l :: 0 <= l < |std| ==> std[l] == Hashed(sha, ms[l])
    decreases |mid|
  {
    if |mid| > 1 {
      TwinsCommute(sha, mid);
      AboveCommutes(sha, mid);
      TreesCommute(sha, Above(sha, MidState, mid));
    }
  }

  /** The converse: the mid-state constructor alone accepts a list only when two different nodes hash alike. */
  lemma {:induction false} RejectedOnlyByCollision(sha: Sha, mid: seq<Digest>)
    requires Build(sha, MidState, mid).Some? && Build(sha, Standard, Hashed(sha, mid)).None?
    ensures exists x: Digest, y: Digest :: Collision(sha, x, y)
    decreases |mid|
  {
    var std := Hashed(sha, mid);
    if HasTwins(std) {
      var i :| 0 <= i < |std| / 2 && std[2 * i] == std[2 * i + 1];
      assert mid[2 * i] != mid[2 * i + 1];
      assert Collision(sha, mid[2 * i], mid[2 * i + 1]);
    } else {
      AboveCommutes(sha, mid);
      RejectedOnlyByCollision(sha, Above(sha, MidState, mid));
    }
  }

  lemma {:induction false} BuildTop(sha: Sha, rule: Rule, level: seq<Digest>)
    requires level != [] && Build(sha, rule, level).Some?
    ensures Root(BitcoinMerkleTree(Build(sha, rule, level).value)) == Some(Top(sha, rule, level))
    decreases |level|
  {
    hide Above;
    hide HasTwins;
    if |level| > 1 {
      var above := Above(sha, rule, level);
      BuildTop(sha, rule, above);
      RootOfTaller(level, Build(sha, rule, above).value);
    }
  }

  lemma {:induction false} RootOfTaller(level: seq<Digest>, upper: seq<seq<Digest>>)
    requires upper != []
    ensures Root(BitcoinMerkleTree([level] + upper)) == Root(BitcoinMerkleTree(upper))
  {
  }

  lemma {:induction false} StepUp(sha: Sha, mid: seq<Digest>, i: nat)
    requires i < |mid| && |mid| > 1
    ensures CombineNode(sha, i % 2 == 0, sha(mid[i]), SiblingOf(mid, i)) == sha(Above(sha, MidState, mid)[i / 2])
  {
    if i % 2 == 0 { assert i == 2 * (i / 2); } else { assert i == 2 * (i / 2) + 1; }
  }

  lemma {:induction false} FoldReachesTop(sha: Sha, mid: seq<Digest>, i: nat)
    requires i < |mid|
    ensures FoldRoot(sha, sha(mid[i]), i, IdxPath(sha, MidState, mid, i)) == Top(sha, Standard, Hashed(sha, mid))
    decreases |mid|
  {
    if |mid| > 1 {
      var above := Above(sha, MidState, mid);
      AboveCommutes(sha, mid);
      StepUp(sha, mid, i);
      FoldReachesTop(sha, above, i / 2);
      var path := IdxPath(sha, MidState, mid, i);
      assert path[0] == SiblingOf(mid, i) && path[1..] == IdxPath(sha, MidState, above, i / 2);
    }
  }

  /** The mid-state proof of any transaction, folded from its txid, gives the standard root. */
  lemma {:induction false} MidStateProofGivesStandardRoot(sha: Sha, mid: seq<Digest>, i: nat)
    requires i < |mid| && Build(sha, Standard, Hashed(sha, mid)).Some?
    ensures Some(FoldRoot(sha, sha(mid[i]), i, IdxPath(sha, MidState, mid, i))) ==
            Root(BitcoinMerkleTree(Build(sha, Standard, Hashed(sha, mid)).value))
  {
    FoldReachesTop(sha, mid, i);
    BuildTop(sha, Standard, Hashed(sha, mid));
  }

  // ---------- binding ----------

  /** Number of levels above the leaves. */
  function Depth(n: nat): nat
    decreases n
  {
    if n <= 1 then 0 else 1 + Depth((n + 1) / 2)
  }

  /** The leaf an index of Depth bits names; an index past an unpaired node falls back on that node. */
  function LeafAt(n: nat, index: nat): nat
    requires n > 0
    decreases n
  {
    if n == 1 then 0
    else
      var j := LeafAt((n + 1) / 2, index / 2);
      if 2 * j + index % 2 < n then 2 * j + index % 2 else 2 * j
  }

  lemma {:induction false} LeafAtInRange(n: nat, index: nat)
    requires n > 0
    ensures LeafAt(n, index) < n
    ensures index < n ==> LeafAt(n, index) == index
    decreases n
  {
    if n > 1 { LeafAtInRange((n + 1) / 2, index / 2); }
  }

  lemma {:induction false} NamedChild(std: seq<Digest>, index: nat)
    requires |std| > 1
    ensures var j := LeafAt((|std| + 1) / 2, index / 2);
            LeafAt(|std|, index) < |std| && 2 * j < |std| &&
            std[LeafAt(|std|, index)] == if index % 2 == 0 then std[2 * j] else Right(std, j)
  {
    LeafAtInRange(|std|, index);
    LeafAtInRange((|std| + 1) / 2, index / 2);
    var bit := index % 2;
    assert bit == 0 || bit == 1;
  }

  /** Two inputs of SHA-256 read off a path and the true tree, one or two hashes below the first node on which
      they agree. */
  function ExtractCollision(sha: Sha, std: seq<Digest>, txid: Digest, index: nat, path: seq<Digest>)
      : (seq<Byte>, seq<Byte>)
    requires std != [] && |path| == Depth(|std|)
    decreases |std|
  {
    if |std| == 1 then ([], [])
    else
      var above := Above(sha, Standard, std);
      var next := CombineNode(sha, index % 2 == 0, txid, path[0]);
      LeafAtInRange(|above|, index / 2);
      var j := LeafAt(|above|, index / 2);
      if next == above[j] then OneStep(sha, Claimed(sha, index % 2 == 0, txid, path[0]), Joined(std[2 * j], Right(std, j)))
      else ExtractCollision(sha, above, next, index / 2, path[1..])
  }

  function Claimed(sha: Sha, isLeft: bool, txid: Digest, sibling: Digest): seq<Byte> {
    if isLeft then Joined(txid, sha(sibling)) else Joined(sha(sibling), txid)
  }

  function OneStep(sha: Sha, claimed: seq<Byte>, actual: seq<Byte>): (seq<Byte>, seq<Byte>) {
    if sha(claimed) == sha(actual) then (claimed, actual) else (sha(claimed), sha(actual))
  }

  /** A txid that folds to the standard root along a path of full depth is the txid at the named place,
      or exhibits two different inputs of SHA-256 with the same digest. */
  lemma {:induction false} RootBinds(sha: Sha, std: seq<Digest>, txid: Digest, index: nat, path: seq<Digest>)
    requires std != [] && |path| == Depth(|std|)
    requires FoldRoot(sha, txid, index, path) == Top(sha, Standard, std)
    ensures LeafAt(|std|, index) < |std|
    ensures txid == std[LeafAt(|std|, index)] || Exhibits(sha, ExtractCollision(sha, std, txid, index, path))
    decreases |std|
  {
    LeafAtInRange(|std|, index);
    if |std| > 1 {
      var above := Above(sha, Standard, std);
      var j := LeafAt(|above|, index / 2);
      var next := CombineNode(sha, index % 2 == 0, txid, path[0]);
      LeafAtInRange(|above|, index / 2);
      assert FoldRoot(sha, txid, index, path) == FoldRoot(sha, next, index / 2, path[1..]);
      RootBinds(sha, above, next, index / 2, path[1..]);
      if next == above[j] {
        ParentBinds(sha, std, j, txid, index % 2 == 0, path[0]);
        NamedChild(std, index);
      } else {
        assert ExtractCollision(sha, std, txid, index, path) == ExtractCollision(sha, above, next, index / 2, path[1..]);
      }
    }
  }

  lemma {:induction false} ParentBinds(sha: Sha, std: seq<Digest>, j: nat, txid: Digest, isLeft: bool, sibling: Digest)
    requires 2 * j < |std|
    requires CombineNode(sha, isLeft, txid, sibling) == Above(sha, Standard, std)[j]
    ensures txid == (if isLeft then std[2 * j] else Right(std, j)) ||
            Exhibits(sha, OneStep(sha, Claimed(sha, isLeft, txid, sibling), Joined(std[2 * j], Right(std, j))))
  {
    PairInjective(txid, sha(sibling), std[2 * j], Right(std, j));
    PairInjective(sha(sibling), txid, std[2 * j], Right(std, j));
  }
}
