/** final-spv/src/transaction.rs: a transaction and the bytes that its identifier hashes. */
module Transactions {
  import opened Arithmetic
  import opened Wrappers
  import opened Hashing
  import opened CompactTarget

  type U64 = n: nat | n < 0x1_0000_0000_0000_0000

  type Bytes = s: seq<Byte> | |s| < 0x1_0000_0000_0000_0000

  datatype TxIn = TxIn(prevTxid: Digest, vout: U32, scriptSig: Bytes, sequence: U32)

  datatype TxOut = TxOut(value: U64, scriptPubkey: Bytes)

  type Inputs = s: seq<TxIn> | |s| < 0x1_0000_0000_0000_0000

  type Outputs = s: seq<TxOut> | |s| < 0x1_0000_0000_0000_0000

  /** Without the witnesses, which the identifier does not cover. */
  datatype CircuitTransaction = CircuitTransaction(version: I32, inputs: Inputs, outputs: Outputs, lockTime: U32)

  /** The length prefix of the consensus encoding. */
  function CompactSize(n: U64): (r: seq<Byte>)
    ensures 1 <= |r| <= 9
  {
    if n < 0xFD then [n]
    else if n <= 0xFFFF then [0xFD] + LeBytes(n, 2)
    else if n <= 0xFFFF_FFFF then [0xFE] + LeBytes(n, 4)
    else [0xFF] + LeBytes(n, 8)
  }

  function EncodeBytes(s: Bytes): (r: seq<Byte>)
    ensures |r| == |CompactSize(|s|)| + |s|
  {
    CompactSize(|s|) + s
  }

  function EncodeIn(i: TxIn): (r: seq<Byte>)
    ensures |r| == 40 + |EncodeBytes(i.scriptSig)|
  {
    i.prevTxid + (Le32(i.vout) + (EncodeBytes(i.scriptSig) + Le32(i.sequence)))
  }

  function EncodeOut(o: TxOut): (r: seq<Byte>)
    ensures |r| == 8 + |EncodeBytes(o.scriptPubkey)|
  {
    LeBytes(o.value, 8) + EncodeBytes(o.scriptPubkey)
  }

  function EncodeIns(s: seq<TxIn>): seq<Byte> {
    if s == [] then [] else EncodeIn(s[0]) + EncodeIns(s[1..])
  }

  function EncodeOuts(s: seq<TxOut>): seq<Byte> {
    if s == [] then [] else EncodeOut(s[0]) + EncodeOuts(s[1..])
  }

  /** `mid_state_txid` hashes this once, `txid` twice. */
  function Encoding(tx: CircuitTransaction): seq<Byte> {
    Le32(tx.version % 0x1_0000_0000) +
    (CompactSize(|tx.inputs|) + (EncodeIns(tx.inputs) +
    (CompactSize(|tx.outputs|) + (EncodeOuts(tx.outputs) + Le32(tx.lockTime)))))
  }

  // ---------- reading it back ----------

  lemma {:induction false} WordPowers()
    ensures Pow2(8) == 0x100 && Pow2(16) == 0x1_0000 && Pow2(32) == 0x1_0000_0000 && Pow2(64) == 0x1_0000_0000_0000_0000
  {
    hide Pow2;
    Pow2Small();
    Pow2Of32();
    Pow2Add(32, 32);
  }

  /** The next k bytes as a little-endian number, and what follows them. */
  function ReadLe(k: nat, s: seq<Byte>): (r: Option<(nat, seq<Byte>)>)
    ensures r.Some? ==> r.value.0 < Pow2(8 * k)
  {
    if |s| < k then None
    else
      BeBound(Mirrored(s[..k]));
      Some((LeValue(s[..k]), s[k..]))
  }

  function ReadWord(s: seq<Byte>): Option<(U32, seq<Byte>)> {
    WordPowers();
    match ReadLe(4, s)
    case None => None
    case Some((n, rest)) => Some((n, rest))
  }

  function ReadDigest(s: seq<Byte>): Option<(Digest, seq<Byte>)> {
    if |s| < 32 then None else Some((s[..32], s[32..]))
  }

  /** One byte, or the two, four or eight bytes that it announces. */
  function ReadSize(s: seq<Byte>): (r: Option<(U64, seq<Byte>)>) {
    WordPowers();
    match ReadLe(1, s)
    case None => None
    case Some((n, rest)) =>
      if n < 0xFD then Some((n, rest))
      else match ReadLe(if n == 0xFD then 2 else if n == 0xFE then 4 else 8, rest)
        case None => None
        case Some((m, after)) => Some((m, after))
  }

  function ReadBytes(s: seq<Byte>): Option<(Bytes, seq<Byte>)> {
    match ReadSize(s)
    case None => None
    case Some((n, rest)) => if |rest| < n then None else Some((rest[..n], rest[n..]))
  }

  /** An input: the transaction and output it spends, its script, its sequence number. */
  function ReadIn(s: seq<Byte>): Option<(TxIn, seq<Byte>)> {
    match ReadDigest(s)
    case None => None
    case Some((prevTxid, s1)) =>
      match ReadWord(s1)
      case None => None
      case Some((vout, s2)) =>
        match ReadBytes(s2)
        case None => None
        case Some((scriptSig, s3)) =>
          match ReadWord(s3)
          case None => None
          case Some((sequence, rest)) => Some((TxIn(prevTxid, vout, scriptSig, sequence), rest))
  }

  /** An output: its amount and its script. */
  function ReadOut(s: seq<Byte>): Option<(TxOut, seq<Byte>)> {
    WordPowers();
    match ReadLe(8, s)
    case None => None
    case Some((value, s1)) =>
      match ReadBytes(s1)
      case None => None
      case Some((scriptPubkey, rest)) => Some((TxOut(value, scriptPubkey), rest))
  }

  function ReadIns(n: nat, s: seq<Byte>): (r: Option<(seq<TxIn>, seq<Byte>)>)
    ensures r.Some? ==> |r.value.0| == n
  {
    if n == 0 then Some(([], s))
    else match ReadIn(s)
      case None => None
      case Some((i, s1)) =>
        match ReadIns(n - 1, s1)
        case None => None
        case Some((l, rest)) => Some(([i] + l, rest))
  }

  function ReadOuts(n: nat, s: seq<Byte>): (r: Option<(seq<TxOut>, seq<Byte>)>)
    ensures r.Some? ==> |r.value.0| == n
  {
    if n == 0 then Some(([], s))
    else match ReadOut(s)
      case None => None
      case Some((o, s1)) =>
        match ReadOuts(n - 1, s1)
        case None => None
        case Some((l, rest)) => Some(([o] + l, rest))
  }

  /** Version, inputs, outputs and lock time, each list after its length, and nothing else. */
  function Decode(s: seq<Byte>): Option<CircuitTransaction> {
    match ReadWord(s)
    case None => None
    case Some((version, s1)) =>
      match ReadSize(s1)
      case None => None
      case Some((nIn, s2)) =>
        match ReadIns(nIn, s2)
        case None => None
        case Some((inputs, s3)) =>
          match ReadSize(s3)
          case None => None
          case Some((nOut, s4)) =>
            match ReadOuts(nOut, s4)
            case None => None
            case Some((outputs, s5)) =>
              match ReadWord(s5)
              case None => None
              case Some((lockTime, rest)) =>
                if rest != [] then None
                else Some(CircuitTransaction(if version < 0x8000_0000 then version else version - 0x1_0000_0000,
                                             inputs, outputs, lockTime))
  }

  lemma {:induction false} Parts(a: seq<Byte>, r: seq<Byte>)
    ensures (a + r)[..|a|] == a && (a + r)[|a|..] == r
  {
  }

  lemma {:induction false} LeReads(n: nat, k: nat, r: seq<Byte>)
    requires n < Pow2(8 * k)
    ensures ReadLe(k, LeBytes(n, k) + r) == Some((n, r))
  {
    hide LeBytes;
    hide LeValue;
    LeRoundTrip(n, k);
    Parts(LeBytes(n, k), r);
  }

  lemma {:induction false} WordReads(n: U32, r: seq<Byte>)
    ensures ReadWord(Le32(n) + r) == Some((n, r))
  {
    hide LeBytes;
    hide ReadLe;
    WordPowers();
    LeReads(n, 4, r);
  }

  lemma {:induction false} ByteReads(b: Byte, r: seq<Byte>)
    ensures ReadLe(1, [b] + r) == Some((b, r))
  {
    Parts([b], r);
    BytesWritten(b, []);
    assert [b] + [] == [b];
  }

  lemma {:induction false} SizeReads(n: U64, r: seq<Byte>)
    ensures ReadSize(CompactSize(n) + r) == Some((n, r))
  {
    hide LeBytes;
    hide ReadLe;
    WordPowers();
    if n < 0xFD {
      ByteReads(n, r);
    } else {
      var k, b: Byte := if n <= 0xFFFF then 2 else if n <= 0xFFFF_FFFF then 4 else 8,
          if n <= 0xFFFF then 0xFD else if n <= 0xFFFF_FFFF then 0xFE else 0xFF;
      assert CompactSize(n) + r == [b] + (LeBytes(n, k) + r);
      ByteReads(b, LeBytes(n, k) + r);
      LeReads(n, k, r);
    }
  }

  lemma {:induction false} BytesRead(s: Bytes, r: seq<Byte>)
    ensures ReadBytes(EncodeBytes(s) + r) == Some((s, r))
  {
    hide CompactSize;
    hide ReadSize;
    assert EncodeBytes(s) + r == CompactSize(|s|) + (s + r);
    SizeReads(|s|, s + r);
    Parts(s, r);
  }

  lemma {:induction false} InReads(i: TxIn, r: seq<Byte>)
    ensures ReadIn(EncodeIn(i) + r) == Some((i, r))
  {
    hide EncodeBytes;
    hide Le32;
    hide ReadWord;
    hide ReadBytes;
    var s3 := Le32(i.sequence) + r;
    var s2 := EncodeBytes(i.scriptSig) + s3;
    var s1 := Le32(i.vout) + s2;
    assert EncodeIn(i) + r == i.prevTxid + s1;
    Parts(i.prevTxid, s1);
    WordReads(i.vout, s2);
    BytesRead(i.scriptSig, s3);
    WordReads(i.sequence, r);
  }

  lemma {:induction false} OutReads(o: TxOut, r: seq<Byte>)
    ensures ReadOut(EncodeOut(o) + r) == Some((o, r))
  {
    hide EncodeBytes;
    hide LeBytes;
    hide ReadLe;
    hide ReadBytes;
    var s1 := EncodeBytes(o.scriptPubkey) + r;
    assert EncodeOut(o) + r == LeBytes(o.value, 8) + s1;
    WordPowers();
    LeReads(o.value, 8, s1);
    BytesRead(o.scriptPubkey, r);
  }

  lemma {:induction false} InsRead(l: seq<TxIn>, r: seq<Byte>)
    ensures ReadIns(|l|, EncodeIns(l) + r) == Some((l, r))
    decreases |l|
  {
    hide EncodeIn;
    hide ReadIn;
    if l == [] {
      assert EncodeIns(l) + r == r;
    } else {
      var after := EncodeIns(l[1..]) + r;
      assert EncodeIns(l) + r == EncodeIn(l[0]) + after && [l[0]] + l[1..] == l;
      InReads(l[0], after);
      InsRead(l[1..], r);
    }
  }

  lemma {:induction false} OutsRead(l: seq<TxOut>, r: seq<Byte>)
    ensures ReadOuts(|l|, EncodeOuts(l) + r) == Some((l, r))
    decreases |l|
  {
    hide EncodeOut;
    hide ReadOut;
    if l == [] {
      assert EncodeOuts(l) + r == r;
    } else {
      var after := EncodeOuts(l[1..]) + r;
      assert EncodeOuts(l) + r == EncodeOut(l[0]) + after && [l[0]] + l[1..] == l;
      OutReads(l[0], after);
      OutsRead(l[1..], r);
    }
  }

  /** The bytes spell the transaction. */
  lemma {:induction false} DecodeEncoding(tx: CircuitTransaction)
    ensures Decode(Encoding(tx)) == Some(tx)
  {
    hide CompactSize;
    hide Le32;
    hide EncodeIns;
    hide EncodeOuts;
    hide ReadWord;
    hide ReadSize;
    hide ReadIns;
    hide ReadOuts;
    var version: U32 := tx.version % 0x1_0000_0000;
    var s5 := Le32(tx.lockTime);
    var s4 := EncodeOuts(tx.outputs) + s5;
    var s3 := CompactSize(|tx.outputs|) + s4;
    var s2 := EncodeIns(tx.inputs) + s3;
    var s1 := CompactSize(|tx.inputs|) + s2;
    WordReads(version, s1);
    SizeReads(|tx.inputs|, s2);
    InsRead(tx.inputs, s3);
    SizeReads(|tx.outputs|, s4);
    OutsRead(tx.outputs, s5);
    assert s5 + [] == s5;
    WordReads(tx.lockTime, []);
  }

  /** So two transactions with the same bytes are the same. */
  lemma {:induction false} EncodingInjective(a: CircuitTransaction, b: CircuitTransaction)
    requires Encoding(a) == Encoding(b)
    ensures a == b
  {
    hide Encoding;
    hide Decode;
    DecodeEncoding(a);
    DecodeEncoding(b);
  }

  // ---------- lengths ----------

  /** A transaction that cannot be read as two nodes of a Merkle tree. */
  predicate NotAPair(tx: CircuitTransaction) {
    |Encoding(tx)| != 64
  }

  /** No inputs and no outputs. */
  function Bare(version: I32): CircuitTransaction {
    CircuitTransaction(version, [], [], 0)
  }

  lemma {:induction false} BareLength(version: I32)
    ensures |Encoding(Bare(version))| == 10
  {
  }

  /** One input and one output, and four script bytes between them. */
  function Short(version: I32, i: TxIn, o: TxOut, lockTime: U32): CircuitTransaction {
    CircuitTransaction(version, [i], [o], lockTime)
  }

  /** There are transactions of 64 bytes, with any identifier to spend, amount, version and lock time. */
  lemma {:induction false} ShortLength(version: I32, i: TxIn, o: TxOut, lockTime: U32)
    requires |i.scriptSig| + |o.scriptPubkey| == 4
    ensures !NotAPair(Short(version, i, o, lockTime))
  {
    hide EncodeIn;
    hide EncodeOut;
    assert [i][1..] == [] && [o][1..] == [];
    assert |EncodeIns([i])| == |EncodeIn(i)| && |EncodeOuts([o])| == |EncodeOut(o)|;
  }
}
