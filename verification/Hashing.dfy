/** Digests and the hash functions of header-chain/src/utils.rs. SHA-256 itself is a parameter:
    every result holds for every function from byte strings to 32-byte digests. */
module Hashing {

  type Byte = b: int | 0 <= b < 256

  type Digest = d: seq<Byte> | |d| == 32 witness seq(32, _ => 0)

  type Sha = seq<Byte> -> Digest

  function ZeroDigest(): Digest {
    seq(32, _ => 0)
  }

  function Joined(left: Digest, right: Digest): seq<Byte> {
    left + right
  }

  function HashPair(sha: Sha, left: Digest, right: Digest): Digest {
    sha(Joined(left, right))
  }

  function DoubleSha(sha: Sha, input: seq<Byte>): Digest {
    sha(sha(input))
  }

  /** Two different inputs with one digest. */
  ghost predicate Collision(sha: Sha, x: seq<Byte>, y: seq<Byte>) {
    x != y && sha(x) == sha(y)
  }

  ghost predicate Exhibits(sha: Sha, pair: (seq<Byte>, seq<Byte>)) {
    Collision(sha, pair.0, pair.1)
  }

  /** Two 32-byte halves determine, and are determined by, their concatenation. */
  lemma {:induction false} PairInjective(a: Digest, b: Digest, c: Digest, d: Digest)
    ensures Joined(a, b) == Joined(c, d) ==> a == c && b == d
  {
    if Joined(a, b) == Joined(c, d) {
      assert a == Joined(a, b)[..32] && c == Joined(c, d)[..32];
      assert b == Joined(a, b)[32..] && d == Joined(c, d)[32..];
    }
  }
}
