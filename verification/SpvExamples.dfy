/** Accepted runs in which a transaction of 64 bytes is taken for two nodes of a Merkle tree, or two nodes for it
    (final-spv/src/spv.rs). The hash function is made up for each, with digests that the transaction spells. */
module SpvExamples {
  import opened Wrappers
  import opened Hashing
  import opened CompactTarget
  import opened MedianTime
  import opened MmrSpec
  import opened HeaderChain
  import opened Transactions
  import opened Spv
  import MT = MerkleTree

  function Filled(b: Byte): Digest {
    seq(32, _ => b)
  }

  /** The identifiers of the two bare transactions are the halves of the pair; all else hashes to zero. */
  function SplitSha(pair: seq<Byte>): Sha
    requires |pair| == 64
  {
    var left: Digest, right: Digest := pair[..32], pair[32..];
    (x: seq<Byte>) =>
      if x == Encoding(Bare(1)) then Filled(1)
      else if x == Encoding(Bare(2)) then Filled(2)
      else if x == Filled(1) then left
      else if x == Filled(2) then right
      else Filled(0)
  }

  lemma {:induction false} SplitShaValues(pair: seq<Byte>, x: seq<Byte>)
    requires |pair| == 64
    ensures var sha := SplitSha(pair);
            Txid(sha, Bare(1)) == pair[..32] && Txid(sha, Bare(2)) == pair[32..] && sha(Filled(2)) == pair[32..] &&
            (|x| >= 64 ==> DoubleSha(sha, x) == Filled(0))
  {
    hide Encoding;
    BareLength(1);
    BareLength(2);
    if Encoding(Bare(1)) == Encoding(Bare(2)) { EncodingInjective(Bare(1), Bare(2)); }
    assert Filled(1)[0] == 1 && Filled(2)[0] == 2 && Filled(0)[0] == 0;
  }

  function RootHeader(net: Network): Header {
    Header(0, ZeroDigest(), Filled(0), 1, MaxBits(net), 0)
  }

  lemma {:induction false} ZeroValue()
    ensures LeValue(Filled(0)) == 0
  {
    ZeroBytes(32);
    assert Mirrored(Filled(0)) == Zeroes(32);
  }

  function Zeroes(k: nat): (r: seq<Byte>)
    ensures |r| == k
  {
    seq(k, _ => 0)
  }

  lemma {:induction false} ZeroBytes(k: nat)
    ensures BeValue(Zeroes(k)) == 0
  {
    if k > 0 {
      assert Zeroes(k)[..k - 1] == Zeroes(k - 1);
      ZeroBytes(k - 1);
    }
  }

  /** With a hash of zero the header is accepted as the first one on every network. */
  lemma {:induction false} RootHeaderAccepted(net: Network, sha: Sha)
    requires BlockHash(sha, RootHeader(net)) == Filled(0)
    ensures ApplyBlocks(net, sha, Genesis(net), [RootHeader(net)]).Some?
  {
    hide BlockHash;
    hide MaxBits;
    hide MaxTarget;
    hide BitsToTarget;
    hide CalculateWork;
    hide LeValue;
    hide Median;
    hide Merge;
    ZeroValue();
    ConstantMedian(0);
    var l, h := Start(net, Genesis(net)), RootHeader(net);
    assert l.st.times == seq(11, _ => 0);
    assert NextHeight(l.st) == 0;
    assert Accepts1(net, sha, l, h);
    assert ApplyOne(net, sha, l, h).Some?;
    assert [h][..0] == [];
    assert RunLoop(net, sha, l, []) == Some(l);
    assert RunLoop(net, sha, l, [h]) == ApplyOne(net, sha, l, h);
  }

  /** A block of two identifiers. */
  lemma {:induction false} TwoCommit(net: Network, sha: Sha, txs: seq<CircuitTransaction>)
    requires |txs| == 2 && Txid(sha, txs[0]) != Txid(sha, txs[1])
    requires DoubleSha(sha, Joined(Txid(sha, txs[0]), Txid(sha, txs[1]))) == Filled(0)
    ensures Commits(sha, RootHeader(net), txs)
  {
    hide Encoding;
    var ids := Txids(sha, txs);
    assert ids == [Txid(sha, txs[0]), Txid(sha, txs[1])];
    assert MT.Above(sha, MT.Standard, ids) == [Filled(0)];
    assert MT.Build(sha, MT.Standard, [Filled(0)]) == Some([[Filled(0)]]);
    assert MT.Build(sha, MT.Standard, ids) == Some([ids] + [[Filled(0)]]);
  }

  /** Whatever the bytes of a transaction of 64 bytes with different halves, it may be taken for a transaction of a block that
      does not contain it. */
  lemma {:induction false} PairCanPass(net: Network, pair: CircuitTransaction)
    requires !NotAPair(pair) && Encoding(pair)[..32] != Encoding(pair)[32..]
    ensures var sha, hs, txs := SplitSha(Encoding(pair)), [RootHeader(net)], [Bare(1), Bare(2)];
            ApplyBlocks(net, sha, Genesis(net), hs).Some? && Commits(sha, hs[0], txs) && pair !in txs &&
            Verify(sha, PairProof(sha, hs, 0, txs, 0, pair), ApplyBlocks(net, sha, Genesis(net), hs).value.subroots) == Some(true)
  {
    hide ApplyBlocks;
    hide SplitSha;
    hide Encoding;
    hide Serialized;
    hide Commits;
    hide Verify;
    hide PairProof;
    var bytes := Encoding(pair);
    var sha, h, txs := SplitSha(bytes), RootHeader(net), [Bare(1), Bare(2)];
    SplitShaValues(bytes, Serialized(h));
    SplitShaValues(bytes, bytes);
    RootHeaderAccepted(net, sha);
    assert Joined(bytes[..32], bytes[32..]) == bytes;
    TwoCommit(net, sha, txs);
    BareLength(1);
    BareLength(2);
    assert Neighbours(sha, txs, 0) == bytes;
    PairPassesAsTransaction(net, sha, [h], 0, txs, 0, pair);
  }

  /** And any such transaction, in a block of its own, may be taken for the node above a transaction that the block does not
      contain. */
  lemma {:induction false} ForeignCanPass(net: Network, carrier: CircuitTransaction)
    requires !NotAPair(carrier)
    ensures var sha, hs, txs := SplitSha(Encoding(carrier)), [RootHeader(net)], [carrier];
            ApplyBlocks(net, sha, Genesis(net), hs).Some? && Commits(sha, hs[0], txs) && Bare(1) !in txs && NotAPair(Bare(1)) &&
            Verify(sha, ForeignProof(sha, hs, 0, txs, 0, Bare(1), Filled(2)),
                   ApplyBlocks(net, sha, Genesis(net), hs).value.subroots) == Some(true)
  {
    hide ApplyBlocks;
    hide SplitSha;
    hide Encoding;
    hide Serialized;
    hide Verify;
    hide ForeignProof;
    var bytes := Encoding(carrier);
    var sha, h, txs := SplitSha(bytes), RootHeader(net), [carrier];
    SplitShaValues(bytes, Serialized(h));
    SplitShaValues(bytes, bytes);
    RootHeaderAccepted(net, sha);
    assert Joined(bytes[..32], bytes[32..]) == bytes;
    BareLength(1);
    assert Txids(sha, txs) == [Filled(0)];
    assert Commits(sha, h, txs);
    hide Commits;
    ForeignTransactionPasses(net, sha, [h], 0, txs, 0, Bare(1), Filled(2));
  }

  /** A transaction to which both apply. */
  lemma {:induction false} SomePair()
    ensures var tx := Short(1, TxIn(Filled(0), 0, [], 0), TxOut(0, [0, 0, 0, 0]), 0);
            !NotAPair(tx) && Encoding(tx)[..32] != Encoding(tx)[32..]
  {
    var tx := Short(1, TxIn(Filled(0), 0, [], 0), TxOut(0, [0, 0, 0, 0]), 0);
    ShortLength(1, tx.inputs[0], tx.outputs[0], 0);
    hide EncodeOuts;
    assert Encoding(tx)[0] == Le32(1)[0] == 1;
    var rest := EncodeIns(tx.inputs);
    assert rest[27] == EncodeIn(tx.inputs[0])[27] == 0;
    assert Encoding(tx)[32] == rest[27];
    assert Encoding(tx)[..32][0] == 1 && Encoding(tx)[32..][0] == 0;
  }
}
