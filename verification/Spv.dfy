/** final-spv/src/spv.rs: a transaction is shown to lie in a block of an accepted header chain. */
module Spv {
  import opened Arithmetic
  import opened Wrappers
  import opened Hashing
  import opened CompactTarget
  import opened HeaderChain
  import opened ChainRuns
  import opened Mmr
  import opened MmrSpec
  import opened Transactions
  import MT = MerkleTree
  import MmrBinding
  import MerkleBinding

  function MidStateTxid(sha: Sha, tx: CircuitTransaction): Digest {
    sha(Encoding(tx))
  }

  function Txid(sha: Sha, tx: CircuitTransaction): Digest {
    sha(MidStateTxid(sha, tx))
  }

  function MidStateTxids(sha: Sha, txs: seq<CircuitTransaction>): (r: seq<Digest>)
    ensures |r| == |txs|
  {
    seq(|txs|, i requires 0 <= i < |txs| => MidStateTxid(sha, txs[i]))
  }

  function Txids(sha: Sha, txs: seq<CircuitTransaction>): (r: seq<Digest>)
    ensures |r| == |txs|
  {
    MT.Hashed(sha, MidStateTxids(sha, txs))
  }

  datatype SPV = SPV(transaction: CircuitTransaction, blockInclusionProof: MT.BlockInclusionProof,
                     blockHeader: Header, mmrInclusionProof: MMRInclusionProof)

  /** Panics (None) when the block root computed from the proof is not the header's. */
  function Verify(sha: Sha, spv: SPV, subroots: seq<Digest>): Option<bool> {
    var root := MT.FoldRoot(sha, Txid(sha, spv.transaction), spv.blockInclusionProof.idx, spv.blockInclusionProof.merkleProof);
    if root != spv.blockHeader.merkleRoot then None
    else Some(Accepts(sha, subroots, BlockHash(sha, spv.blockHeader), spv.mmrInclusionProof))
  }

  /** The identifier hashes the encoding twice; the root computed from it decides about a panic, the range proof about the result. */
  lemma {:induction false} VerifyWritten(sha: Sha, spv: SPV, subroots: seq<Digest>)
    ensures var txid, p := sha(sha(Encoding(spv.transaction))), spv.mmrInclusionProof;
            var root := MT.FoldRoot(sha, txid, spv.blockInclusionProof.idx, spv.blockInclusionProof.merkleProof);
            Verify(sha, spv, subroots) ==
            if root != spv.blockHeader.merkleRoot then None
            else Some(p.subrootIdx < |subroots| && subroots[p.subrootIdx] ==
                      FoldFrom(sha, sha(sha(Serialized(spv.blockHeader))), p.internalIdx, p.inclusionProof, 0))
  {
    hide Encoding;
    hide Serialized;
    hide MT.FoldRoot;
    hide FoldFrom;
  }

  /** The header commits to these transactions through the standard tree. */
  predicate Commits(sha: Sha, h: Header, txs: seq<CircuitTransaction>) {
    var nodes := MT.Build(sha, MT.Standard, Txids(sha, txs));
    nodes.Some? && MT.Root(MT.BitcoinMerkleTree(nodes.value)) == Some(h.merkleRoot)
  }

  /** The proof that the native trees generate for transaction j of block i. */
  function NativeProof(sha: Sha, hs: seq<Header>, i: nat, txs: seq<CircuitTransaction>, j: nat): SPV
    requires i < |hs| && j < |txs|
  {
    SPV(txs[j], MT.BlockInclusionProof(j, MT.IdxPath(sha, MT.MidState, MidStateTxids(sha, txs), j)), hs[i],
        ProofFor(sha, Hashes(sha, hs), i))
  }

  /** Every transaction of every block of an accepted run verifies against the resulting chain state. */
  lemma {:induction false} SpvComplete(net: Network, sha: Sha, hs: seq<Header>, i: nat, txs: seq<CircuitTransaction>, j: nat)
    requires i < |hs| <= U32_MAX && j < |txs|
    requires ApplyBlocks(net, sha, Genesis(net), hs).Some? && Commits(sha, hs[i], txs)
    ensures Verify(sha, NativeProof(sha, hs, i, txs, j), ApplyBlocks(net, sha, Genesis(net), hs).value.subroots) == Some(true)
  {
    AcceptedRun(net, sha, hs);
    hide ApplyBlocks;
    ProofComplete(sha, Hashes(sha, hs), i);
    MT.MidStateProofGivesStandardRoot(sha, MidStateTxids(sha, txs), j);
  }

  /** The same with the objects that build the trees and the proofs. */
  method ProveAndVerify(net: Network, sha: Sha, hs: seq<Header>, i: nat, txs: seq<CircuitTransaction>, j: nat)
      returns (verified: Option<bool>)
    requires i < |hs| <= U32_MAX && j < |txs|
    requires ApplyBlocks(net, sha, Genesis(net), hs).Some? && Commits(sha, hs[i], txs)
    ensures verified == Some(true)
  {
    SpvComplete(net, sha, hs, i, txs, j);
    AcceptedRun(net, sha, hs);
    var native, guest := FeedBoth(sha, Hashes(sha, hs));
    var mmr := native.GenerateProof(i);
    MT.TreesCommute(sha, MidStateTxids(sha, txs));
    MT.BuildIsTree(sha, MT.MidState, MidStateTxids(sha, txs));
    var tree := MT.New(sha, MT.MidState, MidStateTxids(sha, txs));
    var merkle := MT.GenerateProof(sha, MT.MidState, tree.value, j);
    verified := Verify(sha, SPV(txs[j], merkle.value, hs[i], mmr.value.1), guest.subroots);
  }

  // ---------- soundness ----------

  /** Two headers with the same bytes are the same. */
  lemma {:induction false} SerializedInjective(a: Header, b: Header)
    requires Serialized(a) == Serialized(b)
    ensures a == b
  {
    hide Serialized;
    hide LeValue;
    HeaderWritten(a);
    HeaderWritten(b);
  }

  function HeaderDigest(sha: Sha, h: Header): Digest {
    sha(Serialized(h))
  }

  /** The first digests of the serialised headers, which the block hashes are digests of. */
  function HeaderDigests(sha: Sha, hs: seq<Header>): (r: seq<Digest>)
    ensures |r| == |hs|
  {
    seq(|hs|, i requires 0 <= i < |hs| => HeaderDigest(sha, hs[i]))
  }

  function Encodings(txs: seq<CircuitTransaction>): (r: seq<seq<Byte>>)
    ensures |r| == |txs|
  {
    seq(|txs|, i requires 0 <= i < |txs| => Encoding(txs[i]))
  }

  /** The block an accumulator proof names. */
  function NamedBlock(hs: seq<Header>, spv: SPV): nat
    requires spv.mmrInclusionProof.subrootIdx < Ones(|hs|)
  {
    NamedLeaf(|hs|, spv.mmrInclusionProof.subrootIdx, spv.mmrInclusionProof.internalIdx)
  }

  /** The place in its block that a transaction proof names. */
  function NamedTransaction(txs: seq<CircuitTransaction>, spv: SPV): nat
    requires txs != []
  {
    MT.LeafAt(|txs|, spv.blockInclusionProof.idx)
  }

  /** The accumulator proof names a block with the claimed header's bytes, or two explicit byte strings collide. */
  function HeaderCollision(sha: Sha, hs: seq<Header>, spv: SPV): (seq<Byte>, seq<Byte>)
    requires spv.mmrInclusionProof.subrootIdx < Ones(|hs|)
  {
    var p := spv.mmrInclusionProof;
    NamedLeafInRange(|hs|, p.subrootIdx, p.internalIdx);
    if |p.inclusionProof| == PeakHeight(|hs|, p.subrootIdx) && BlockHash(sha, spv.blockHeader) == Hashes(sha, hs)[NamedBlock(hs, spv)]
    then MT.OneStep(sha, Serialized(spv.blockHeader), Serialized(hs[NamedBlock(hs, spv)]))
    else MmrBinding.ExtractAnyLength(sha, HeaderDigests(sha, hs), Hashes(sha, hs), p.subrootIdx,
                                     HeaderDigest(sha, spv.blockHeader), p.internalIdx, p.inclusionProof)
  }

  function TransactionCollision(sha: Sha, spv: SPV, txs: seq<CircuitTransaction>): (seq<Byte>, seq<Byte>)
    requires txs != []
  {
    MerkleBinding.ExtractAnyLength(sha, Encodings(txs), Txids(sha, txs), Encoding(spv.transaction), spv.blockInclusionProof.idx,
                                   spv.blockInclusionProof.merkleProof)
  }

  lemma {:induction false} HeaderBound(sha: Sha, hs: seq<Header>, spv: SPV)
    requires |hs| <= U32_MAX
    requires Accepts(sha, Peaks(sha, Hashes(sha, hs)), BlockHash(sha, spv.blockHeader), spv.mmrInclusionProof)
    ensures spv.mmrInclusionProof.subrootIdx < Ones(|hs|) && NamedBlock(hs, spv) < |hs|
    ensures spv.blockHeader == hs[NamedBlock(hs, spv)] || Exhibits(sha, HeaderCollision(sha, hs, spv))
  {
    hide Accepts;
    hide Peaks;
    hide Ones;
    hide PeakHeight;
    hide NamedLeaf;
    hide Serialized;
    hide MmrBinding.ExtractAnyLength;
    MmrBinding.AnyLengthBinds(sha, HeaderDigests(sha, hs), Hashes(sha, hs), HeaderDigest(sha, spv.blockHeader), spv.mmrInclusionProof);
    var k := NamedBlock(hs, spv);
    if BlockHash(sha, spv.blockHeader) == Hashes(sha, hs)[k] {
      MerkleBinding.SameDoubleSha(sha, Serialized(spv.blockHeader), Serialized(hs[k]));
      if Serialized(spv.blockHeader) == Serialized(hs[k]) { SerializedInjective(spv.blockHeader, hs[k]); }
    }
  }

  lemma {:induction false} TransactionBound(sha: Sha, spv: SPV, txs: seq<CircuitTransaction>, subroots: seq<Digest>)
    requires txs != [] && Commits(sha, spv.blockHeader, txs) && Verify(sha, spv, subroots).Some?
    requires NotAPair(spv.transaction) && forall i :: 0 <= i < |txs| ==> NotAPair(txs[i])
    ensures NamedTransaction(txs, spv) < |txs|
    ensures spv.transaction == txs[NamedTransaction(txs, spv)] || Exhibits(sha, TransactionCollision(sha, spv, txs))
  {
    hide MT.FoldRoot;
    hide MT.Top;
    hide MT.Depth;
    hide MT.LeafAt;
    hide MerkleBinding.ExtractAnyLength;
    hide Accepts;
    var std := Txids(sha, txs);
    MT.BuildTop(sha, MT.Standard, std);
    hide MT.Build;
    MerkleBinding.AnyLengthBinds(sha, Encodings(txs), std, Encoding(spv.transaction), spv.blockInclusionProof.idx,
                                 spv.blockInclusionProof.merkleProof);
    if Encoding(spv.transaction) == Encoding(txs[NamedTransaction(txs, spv)]) {
      EncodingInjective(spv.transaction, txs[NamedTransaction(txs, spv)]);
    }
  }

  lemma {:induction false} CommittedIsNonEmpty(sha: Sha, h: Header, txs: seq<CircuitTransaction>)
    requires Commits(sha, h, txs)
    ensures txs != []
  {
  }

  /** Whatever the lengths of its two paths, a verified proof against an accepted run names a block of it, and if that block
      commits to a list of transactions, then it is about one of them; unless one of two explicit pairs of byte strings is a
      SHA-256 collision. The only condition is that no transaction concerned has the length of a pair of Merkle nodes. */
  lemma {:induction false} SpvSound(net: Network, sha: Sha, hs: seq<Header>, spv: SPV, txs: seq<CircuitTransaction>)
    requires |hs| <= U32_MAX && ApplyBlocks(net, sha, Genesis(net), hs).Some?
    requires Verify(sha, spv, ApplyBlocks(net, sha, Genesis(net), hs).value.subroots) == Some(true)
    ensures spv.mmrInclusionProof.subrootIdx < Ones(|hs|) && NamedBlock(hs, spv) < |hs|
    ensures spv.blockHeader == hs[NamedBlock(hs, spv)] || Exhibits(sha, HeaderCollision(sha, hs, spv))
    ensures Commits(sha, hs[NamedBlock(hs, spv)], txs) && NotAPair(spv.transaction) &&
            (forall i :: 0 <= i < |txs| ==> NotAPair(txs[i])) ==>
              txs != [] && NamedTransaction(txs, spv) < |txs| &&
              (spv.transaction == txs[NamedTransaction(txs, spv)] ||
               Exhibits(sha, HeaderCollision(sha, hs, spv)) || Exhibits(sha, TransactionCollision(sha, spv, txs)))
  {
    AcceptedRun(net, sha, hs);
    hide ApplyBlocks;
    hide Accepts;
    hide MT.FoldRoot;
    hide Peaks;
    hide Serialized;
    hide NotAPair;
    hide MmrBinding.ExtractAnyLength;
    hide MerkleBinding.ExtractAnyLength;
    HeaderBound(sha, hs, spv);
    var k := NamedBlock(hs, spv);
    if Commits(sha, hs[k], txs) && NotAPair(spv.transaction) && forall i :: 0 <= i < |txs| ==> NotAPair(txs[i]) {
      CommittedIsNonEmpty(sha, hs[k], txs);
      MT.LeafAtInRange(|txs|, spv.blockInclusionProof.idx);
      if spv.blockHeader == hs[k] {
        TransactionBound(sha, spv, txs, ApplyBlocks(net, sha, Genesis(net), hs).value.subroots);
      }
    }
  }

  // ---------- the condition is needed ----------

  /** The identifier of transaction j and the one it is hashed with. */
  function Neighbours(sha: Sha, txs: seq<CircuitTransaction>, j: nat): (r: seq<Byte>)
    requires j < |txs|
    ensures |r| == 64
  {
    Joined(Txids(sha, txs)[2 * (j / 2)], MT.Right(Txids(sha, txs), j / 2))
  }

  /** A transaction whose encoding joins two neighbouring identifiers of a block passes as a transaction of it, by the path of
      either without the first step. */
  function PairProof(sha: Sha, hs: seq<Header>, i: nat, txs: seq<CircuitTransaction>, j: nat, pair: CircuitTransaction): SPV
    requires i < |hs| && j < |txs| && |txs| > 1
  {
    NativeProof(sha, hs, i, txs, j).(
      transaction := pair,
      blockInclusionProof := MT.BlockInclusionProof(j / 2, MT.IdxPath(sha, MT.MidState, MidStateTxids(sha, txs), j)[1..]))
  }

  lemma {:induction false} PairPassesAsTransaction(net: Network, sha: Sha, hs: seq<Header>, i: nat, txs: seq<CircuitTransaction>,
                                                   j: nat, pair: CircuitTransaction)
    requires i < |hs| <= U32_MAX && j < |txs| && |txs| > 1
    requires ApplyBlocks(net, sha, Genesis(net), hs).Some? && Commits(sha, hs[i], txs)
    requires Encoding(pair) == Neighbours(sha, txs, j)
    ensures Verify(sha, PairProof(sha, hs, i, txs, j, pair), ApplyBlocks(net, sha, Genesis(net), hs).value.subroots) == Some(true)
    ensures !NotAPair(pair)
  {
    hide Accepts;
    hide MT.FoldRoot;
    hide MT.IdxPath;
    hide MT.Build;
    hide MT.Top;
    hide Peaks;
    hide Encoding;
    hide BlockHash;
    AcceptedRun(net, sha, hs);
    hide ApplyBlocks;
    ProofComplete(sha, Hashes(sha, hs), i);
    MerkleBinding.JoinedLeavesFoldToRoot(sha, MidStateTxids(sha, txs), j);
    MT.BuildTop(sha, MT.Standard, Txids(sha, txs));
  }

  /** A transaction of a block whose encoding joins the identifier of a foreign transaction and a digest lets the foreign
      transaction pass, by a path that is one step longer. */
  function ForeignProof(sha: Sha, hs: seq<Header>, i: nat, txs: seq<CircuitTransaction>, j: nat, foreign: CircuitTransaction,
                        sibling: Digest): SPV
    requires i < |hs| && j < |txs|
  {
    NativeProof(sha, hs, i, txs, j).(
      transaction := foreign,
      blockInclusionProof := MT.BlockInclusionProof(2 * j, [sibling] + MT.IdxPath(sha, MT.MidState, MidStateTxids(sha, txs), j)))
  }

  lemma {:induction false} ForeignTransactionPasses(net: Network, sha: Sha, hs: seq<Header>, i: nat, txs: seq<CircuitTransaction>,
                                                    j: nat, foreign: CircuitTransaction, sibling: Digest)
    requires i < |hs| <= U32_MAX && j < |txs|
    requires ApplyBlocks(net, sha, Genesis(net), hs).Some? && Commits(sha, hs[i], txs)
    requires Encoding(txs[j]) == Joined(Txid(sha, foreign), sha(sibling))
    ensures Verify(sha, ForeignProof(sha, hs, i, txs, j, foreign, sibling),
                   ApplyBlocks(net, sha, Genesis(net), hs).value.subroots) == Some(true)
  {
    AcceptedRun(net, sha, hs);
    hide ApplyBlocks;
    hide Accepts;
    hide MT.FoldRoot;
    hide MT.IdxPath;
    hide Peaks;
    hide Encoding;
    ProofComplete(sha, Hashes(sha, hs), i);
    MerkleBinding.SplitLeafFoldsToRoot(sha, MidStateTxids(sha, txs), j, Encoding(foreign), sibling);
    MT.BuildTop(sha, MT.Standard, Txids(sha, txs));
  }
}
