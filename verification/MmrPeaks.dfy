/** What the peaks of a Merkle mountain range are, from the top down: the leaves are cut into runs whose lengths are falling
    powers of two, and each peak is the root of a perfect binary tree over one run. */
module MmrPeaks {
  import opened Arithmetic
  import opened Hashing
  import opened MmrSpec

  /** The root over 2^h leaves: the hash of the roots over their two halves, joined. */
  function SubtreeRoot(sha: Sha, leaves: seq<Digest>, h: nat): Digest
    requires |leaves| == Pow2(h)
  {
    if h == 0 then leaves[0]
    else
      var half := Pow2(h - 1);
      sha(SubtreeRoot(sha, leaves[..half], h - 1) + SubtreeRoot(sha, leaves[half..], h - 1))
  }

  lemma {:induction false} UpOfRun(sha: Sha, leaves: seq<Digest>, i: nat, j: nat)
    requires i <= j && 2 * j <= |leaves|
    ensures Up(sha, leaves)[i..j] == Up(sha, leaves[2 * i..2 * j])
  {
  }

  lemma {:induction false} RootOfJoined(sha: Sha, a: seq<Digest>, b: seq<Digest>, h: nat)
    requires |a| == |b| == Pow2(h)
    ensures |a + b| == Pow2(h + 1)
    ensures SubtreeRoot(sha, a + b, h + 1) == sha(SubtreeRoot(sha, a, h) + SubtreeRoot(sha, b, h))
  {
    assert (a + b)[..|a|] == a && (a + b)[|a|..] == b;
  }

  lemma {:induction false} UpOfJoined(sha: Sha, a: seq<Digest>, b: seq<Digest>)
    requires |a| % 2 == 0
    ensures Up(sha, a + b) == Up(sha, a) + Up(sha, b)
  {
  }

  /** Hashing the lowest pairs first gives the same root. */
  lemma {:induction false} RootOfPairs(sha: Sha, leaves: seq<Digest>, h: nat)
    requires h > 0 && |leaves| == Pow2(h)
    ensures |Up(sha, leaves)| == Pow2(h - 1) && SubtreeRoot(sha, Up(sha, leaves), h - 1) == SubtreeRoot(sha, leaves, h)
    decreases h
  {
    hide SubtreeRoot;
    hide Pow2;
    hide Up;
    Pow2Succ(h - 1);
    if h == 1 {
      OnePair(sha, leaves);
    } else {
      Pow2Succ(h - 2);
      var a, b := leaves[..Pow2(h - 1)], leaves[Pow2(h - 1)..];
      assert leaves == a + b;
      RootOfPairs(sha, a, h - 1);
      RootOfPairs(sha, b, h - 1);
      UpOfJoined(sha, a, b);
      RootOfJoined(sha, a, b, h - 1);
      RootOfJoined(sha, Up(sha, a), Up(sha, b), h - 2);
    }
  }

  lemma {:induction false} OnePair(sha: Sha, leaves: seq<Digest>)
    requires |leaves| == Pow2(1)
    ensures SubtreeRoot(sha, Up(sha, leaves), 0) == SubtreeRoot(sha, leaves, 1)
  {
    assert SubtreeRoot(sha, leaves[..1], 0) == leaves[0] && SubtreeRoot(sha, leaves[1..], 0) == leaves[1];
  }

  /** The root over the run of 2^h leaves from place off on. */
  function RunRoot(sha: Sha, leaves: seq<Digest>, off: nat, h: nat): Digest
    requires off + Pow2(h) <= |leaves|
  {
    SubtreeRoot(sha, leaves[off..off + Pow2(h)], h)
  }

  /** Peak k is the root over its run of leaves. */
  lemma {:induction false} PeaksAreSubtreeRoots(sha: Sha, leaves: seq<Digest>, k: nat)
    requires k < Ones(|leaves|)
    ensures |Peaks(sha, leaves)| == Ones(|leaves|)
    ensures PeakOffset(|leaves|, k) + Pow2(PeakHeight(|leaves|, k)) <= |leaves|
    ensures Peaks(sha, leaves)[k] == RunRoot(sha, leaves, PeakOffset(|leaves|, k), PeakHeight(|leaves|, k))
    decreases |leaves|
  {
    hide RunRoot;
    hide Peaks;
    hide Pow2;
    hide PeakOffset;
    hide PeakHeight;
    hide Up;
    var n := |leaves|;
    PeakCount(sha, leaves);
    PeakSpan(n, k);
    PeakPlace(n, k);
    if n % 2 == 1 && k == Ones(n / 2) {
      LowestPeak(sha, leaves);
    } else {
      PeaksAreSubtreeRoots(sha, Up(sha, leaves), k);
      PeaksAbove(sha, leaves, k);
      HigherRun(sha, leaves, PeakOffset(n / 2, k), PeakHeight(n / 2, k));
    }
  }

  lemma {:induction false} PeakPlace(n: nat, k: nat)
    requires k < Ones(n)
    ensures if n % 2 == 1 && k == Ones(n / 2) then PeakOffset(n, k) == n - 1 && PeakHeight(n, k) == 0
            else k < Ones(n / 2) && PeakOffset(n, k) == 2 * PeakOffset(n / 2, k) && PeakHeight(n, k) == PeakHeight(n / 2, k) + 1
  {
  }

  lemma {:induction false} HigherRun(sha: Sha, leaves: seq<Digest>, off: nat, h: nat)
    requires 2 * off + Pow2(h + 1) <= |leaves|
    ensures off + Pow2(h) <= |Up(sha, leaves)| && RunRoot(sha, Up(sha, leaves), off, h) == RunRoot(sha, leaves, 2 * off, h + 1)
  {
    hide SubtreeRoot;
    hide Pow2;
    Pow2Succ(h);
    UpOfRun(sha, leaves, off, off + Pow2(h));
    RootOfPairs(sha, leaves[2 * off..2 * off + Pow2(h + 1)], h + 1);
  }

  lemma {:induction false} LowestPeak(sha: Sha, leaves: seq<Digest>)
    requires |leaves| % 2 == 1
    ensures var n := |leaves|;
            Ones(n / 2) < |Peaks(sha, leaves)| && n - 1 + Pow2(0) <= n &&
            Peaks(sha, leaves)[Ones(n / 2)] == RunRoot(sha, leaves, n - 1, 0)
  {
    hide Up;
    var n := |leaves|;
    PeakCount(sha, Up(sha, leaves));
    assert Peaks(sha, leaves) == Peaks(sha, Up(sha, leaves)) + [leaves[n - 1]];
    LowestRun(sha, leaves);
  }

  lemma {:induction false} LowestRun(sha: Sha, leaves: seq<Digest>)
    requires leaves != []
    ensures Pow2(0) == 1 && SubtreeRoot(sha, leaves[|leaves| - 1..|leaves|], 0) == leaves[|leaves| - 1]
  {
  }

  /** The runs follow one another from the first leaf to the last, and get shorter. */
  lemma {:induction false} RunsTile(n: nat, k: nat)
    requires k < Ones(n)
    ensures k == 0 ==> PeakOffset(n, k) == 0
    ensures PeakOffset(n, k) + Pow2(PeakHeight(n, k)) == if k + 1 < Ones(n) then PeakOffset(n, k + 1) else n
    ensures k + 1 < Ones(n) ==> PeakHeight(n, k + 1) < PeakHeight(n, k)
    decreases n
  {
    var m := n / 2;
    if n % 2 == 1 && k == Ones(m) {
      if k == 0 { NoOnes(m); }
      assert Pow2(0) == 1;
    } else {
      RunsTile(m, k);
    }
  }

  lemma {:induction false} NoOnes(n: nat)
    requires Ones(n) == 0
    ensures n == 0
  {
    if n > 0 { NoOnes(n / 2); }
  }

  /** The smallest case, written out. */
  lemma {:induction false} TwoLeaves(sha: Sha, a: Digest, b: Digest)
    ensures Peaks(sha, [a, b]) == [sha(a + b)]
  {
    assert Up(sha, [a, b]) == [sha(a + b)];
    assert Up(sha, [sha(a + b)]) == [];
    assert Peaks(sha, [sha(a + b)]) == Peaks(sha, []) + [sha(a + b)];
  }

  /** The low ones that an append merges away: 2^t is the largest power of two that divides the next size. */
  lemma {:induction false} TrailingOnesWritten(n: nat)
    ensures (n + 1) % Pow2(TrailingOnes(n)) == 0 && (n + 1) % Pow2(TrailingOnes(n) + 1) != 0
  {
    var t := TrailingOnes(n);
    if n % 2 == 1 {
      TrailingOnesWritten(n / 2);
      DoubleMod(n / 2 + 1, 0, Pow2(t - 1));
      DoubleMod(n / 2 + 1, 0, Pow2(t));
    } else {
      assert Pow2(0) == 1 && Pow2(1) == 2;
    }
  }

  /** An append to any list of peaks, written out: each low one of the size joins the last peak to the running hash. */
  lemma {:induction false} MergeWritten(sha: Sha, subroots: seq<Digest>, size: nat, current: Digest)
    requires TrailingOnes(size) <= |subroots|
    ensures size % 2 == 0 ==> Merge(sha, subroots, size, current) == subroots + [current]
    ensures size % 2 == 1 ==>
              Merge(sha, subroots, size, current) ==
              Merge(sha, subroots[..|subroots| - 1], size / 2, sha(subroots[|subroots| - 1] + current))
  {
  }

  /** A step of the verifier's loop, written out: bit i of the index, i modulo 32, puts the sibling on the left. */
  lemma {:induction false} FoldWritten(sha: Sha, current: Digest, idx: nat, path: seq<Digest>, i: nat)
    requires i < |path|
    ensures FoldFrom(sha, current, idx, path, |path|) == current
    ensures FoldFrom(sha, current, idx, path, i) ==
            FoldFrom(sha, if (idx / Pow2(i % 32)) % 2 == 0 then sha(current + path[i]) else sha(path[i] + current), idx, path, i + 1)
  {
    hide Pow2;
    BitAndBit(idx, i % 32);
    ShrIsDiv(idx, i % 32);
  }
}
