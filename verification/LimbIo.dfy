/** Between 32-bit words and limbs on the stack (bitvm/src/bigint/std.rs, bitvm/src/bn254/fq.rs). */
module LimbIo {
  import opened Arithmetic
  import opened Wrappers
  import opened ScriptMachine
  import opened Limbs
  import opened NumberMoves

  // ---------- bits ----------

  /** Bit i of a number in two's complement. */
  function BitOf(v: int, i: nat): bool {
    Lo(Up(v, Pow2(i)), 2) == 1
  }

  function BitsValue(bits: seq<bool>): nat {
    if bits == [] then 0 else (if bits[0] then 1 else 0) + 2 * BitsValue(bits[1..])
  }

  lemma {:induction false} NoBits(c: nat)
    ensures BitsValue([]) == 0 && (c > 0 ==> Chunks([], c) == [])
  {
  }

  lemma {:induction false} BitsAppend(a: seq<bool>, b: seq<bool>)
    ensures BitsValue(a + b) == BitsValue(a) + Pow2(|a|) * BitsValue(b)
    decreases |a|
  {
    if a == [] {
      assert a + b == b;
    } else {
      assert (a + b)[1..] == a[1..] + b;
      BitsAppend(a[1..], b);
      MulAssoc(2, Pow2(|a| - 1), BitsValue(b));
    }
  }

  lemma {:induction false} BitsBound(bits: seq<bool>)
    ensures BitsValue(bits) < Pow2(|bits|)
    decreases |bits|
  {
    if bits != [] { BitsBound(bits[1..]); }
  }

  lemma {:induction false} PushBit(bits: seq<bool>, e: bool)
    ensures BitsValue(bits + [e]) == BitsValue(bits) + (if e then Pow2(|bits|) else 0)
  {
    BitsAppend(bits, [e]);
    assert [e][1..] == [];
    assert BitsValue([e]) == if e then 1 else 0;
  }

  /** The n low bits of v are the bits of v modulo 2^n. */
  lemma {:induction false} NextBit(v: int, n: nat)
    ensures Lo(v, Pow2(n + 1)) == Lo(v, Pow2(n)) + (if BitOf(v, n) then Pow2(n) else 0)
  {
    hide Lo;
    hide Up;
    var p := Pow2(n);
    var u := Up(v, p);
    Split(v, p);
    Split(u, 2);
    var e := Lo(u, 2);
    assert (Up(u, 2) * 2 + e) * p == Up(u, 2) * (2 * p) + e * p;
    SplitUnique(v, 2 * p, Up(u, 2), e * p + Lo(v, p));
    assert e == 1 ==> e * p == p;
    assert e == 0 ==> e * p == 0;
  }

  lemma {:induction false} LoOfOne(v: int)
    ensures Lo(v, Pow2(0)) == 0
  {
    SplitUnique(v, 1, v, 0);
  }

  lemma {:induction false} Zeros(bits: seq<bool>)
    requires forall i :: 0 <= i < |bits| ==> !bits[i]
    ensures BitsValue(bits) == 0
    decreases |bits|
  {
    if bits != [] { Zeros(bits[1..]); }
  }

  /** The most significant set bit decides the size. */
  lemma {:induction false} TopBit(bits: seq<bool>, k: nat)
    requires k < |bits| && bits[k] && forall i :: k < i < |bits| ==> !bits[i]
    ensures Pow2(k) <= BitsValue(bits) < Pow2(k + 1)
  {
    var a, b := bits[..k], bits[k + 1..];
    assert bits == (a + [bits[k]]) + b;
    BitsAppend(a + [bits[k]], b);
    PushBit(a, bits[k]);
    BitsBound(a + [bits[k]]);
    Zeros(b);
    assert Pow2(k + 1) * 0 == 0;
  }

  /** `Vec::resize` with false. */
  function Resized(bits: seq<bool>, n: nat): (r: seq<bool>)
    ensures |r| == n
  {
    if n <= |bits| then bits[..n] else bits + seq(n - |bits|, i => false)
  }

  lemma {:induction false} ResizedValue(bits: seq<bool>, n: nat)
    ensures BitsValue(Resized(bits, n)) == Lo(BitsValue(bits), Pow2(n))
  {
    hide Lo;
    hide Up;
    hide Pow2;
    hide BitsValue;
    BitsBound(Resized(bits, n));
    var p := Pow2(n);
    if n <= |bits| {
      var a, b := bits[..n], bits[n..];
      assert bits == a + b;
      BitsAppend(a, b);
      assert p * BitsValue(b) == BitsValue(b) * p;
      SplitUnique(BitsValue(bits), p, BitsValue(b), BitsValue(a));
    } else {
      var z := seq(n - |bits|, i => false);
      BitsAppend(bits, z);
      Zeros(z);
      assert Pow2(|bits|) * 0 == 0;
      SplitUnique(BitsValue(bits), p, 0, BitsValue(bits));
    }
  }

  // ---------- chunks ----------

  /** The numbers spelled by consecutive chunks of c bits. */
  function Chunks(bits: seq<bool>, c: nat): seq<nat>
    requires c > 0
    decreases |bits|
  {
    if bits == [] then []
    else if |bits| <= c then [BitsValue(bits)]
    else [BitsValue(bits[..c])] + Chunks(bits[c..], c)
  }

  /** Chunks of limb size are the limbs. */
  lemma {:induction false} ChunksAreDigits(bits: seq<bool>, k: nat, c: nat)
    requires c > 0 && 0 <= k * c < |bits| <= (k + 1) * c
    ensures Chunks(bits, c) == Digits(k, Pow2(c), BitsValue(bits))
    decreases k
  {
    SplitProduct(k + 1, c);
    if k == 0 {
      assert Digits(0, Pow2(c), BitsValue(bits)) == [BitsValue(bits)];
    } else {
      hide Digits;
      hide Lo;
      hide Up;
      MulMono(1, k, c);
      SplitProduct(k, c);
      var a, t := bits[..c], bits[c..];
      assert bits == a + t;
      ChunksAreDigits(t, k - 1, c);
      BitsAppend(a, t);
      BitsBound(a);
      assert Pow2(c) * BitsValue(t) == BitsValue(t) * Pow2(c);
      SplitUnique(BitsValue(bits), Pow2(c), BitsValue(t), BitsValue(a));
      DigitsStep(k, Pow2(c), BitsValue(bits));
    }
  }

  /** Chunks spell the number in base 2^c. */
  lemma {:induction false} ChunksSpell(bits: seq<bool>, c: nat)
    requires c > 0
    ensures WordsValue(Chunks(bits, c), c) == BitsValue(bits)
    ensures forall x :: x in Chunks(bits, c) ==> x < Pow2(c)
    decreases |bits|
  {
    BitsBound(bits);
    if bits == [] {
    } else if |bits| <= c {
      Pow2Mono(|bits|, c);
      assert [BitsValue(bits)][1..] == [];
      assert Pow2(c) * 0 == 0;
    } else {
      var a, t := bits[..c], bits[c..];
      assert bits == a + t;
      BitsBound(a);
      BitsAppend(a, t);
      ChunksSpell(t, c);
      assert ([BitsValue(a)] + Chunks(t, c))[1..] == Chunks(t, c);
    }
  }

  /** Little-endian words of c bits. */
  function WordsValue(v: seq<nat>, c: nat): nat {
    if v == [] then 0
    else MulNonNeg(Pow2(c), WordsValue(v[1..], c)); v[0] + Pow2(c) * WordsValue(v[1..], c)
  }

  /** The first word has the weight one. */
  lemma {:induction false} WordsWritten(x: nat, v: seq<nat>, c: nat)
    ensures WordsValue([], c) == 0 && WordsValue([x] + v, c) == x + Pow2(c) * WordsValue(v, c)
  {
    assert ([x] + v)[1..] == v;
  }

  lemma {:induction false} WordsAppend(v: seq<nat>, x: nat, c: nat)
    ensures 0 <= |v| * c
    ensures WordsValue(v + [x], c) == WordsValue(v, c) + Pow2(|v| * c) * x
    decreases |v|
  {
    hide Pow2;
    MulNonNeg(|v|, c);
    if v == [] {
      assert [x][1..] == [];
      assert [] + [x] == [x];
      assert WordsValue([x], c) == x + Pow2(c) * 0;
      PowerZero();
    } else {
      assert (v + [x])[1..] == v[1..] + [x];
      WordsAppend(v[1..], x, c);
      WordWeight(|v|, c, x, WordsValue(v[1..], c));
    }
  }

  lemma {:induction false} WordWeight(n: nat, c: nat, x: nat, w: nat)
    requires n > 0
    ensures 0 <= (n - 1) * c && 0 <= n * c
    ensures Pow2(c) * (w + Pow2((n - 1) * c) * x) == Pow2(c) * w + Pow2(n * c) * x
  {
    hide Pow2;
    SplitProduct(n, c);
    MulNonNeg(n - 1, c);
    Pow2Add(c, (n - 1) * c);
    var p, q := Pow2(c), Pow2((n - 1) * c);
    MulAssoc(p, q, x);
    Factor(p, w, q * x);
  }

  // ---------- the loops ----------

  /** Appends the c low bits of every word. */
  method PushBits(words: seq<int>, c: nat) returns (bits: seq<bool>)
    ensures |words| * c >= 0 && |bits| == |words| * c
    ensures BitsValue(bits) == WordsValue(LowWords(words, c), c)
  {
    bits := [];
    var n := 0;
    assert words[..0] == [];
    assert 0 * c == 0;
    while n < |words|
      invariant n <= |words| && n * c >= 0 && |bits| == n * c
      invariant BitsValue(bits) == WordsValue(LowWords(words[..n], c), c)
    {
      ghost var start := bits;
      var i := 0;
      LoOfOne(words[n]);
      while i < c
        invariant i <= c && |bits| == |start| + i
        invariant BitsValue(bits) == BitsValue(start) + Pow2(|start|) * Lo(words[n], Pow2(i))
      {
        PushBit(bits, BitOf(words[n], i));
        NextBit(words[n], i);
        Pow2Add(|start|, i);
        Factor(Pow2(|start|), Lo(words[n], Pow2(i)), if BitOf(words[n], i) then Pow2(i) else 0);
        bits := bits + [BitOf(words[n], i)];
        i := i + 1;
      }
      WordsAppend(LowWords(words[..n], c), Lo(words[n], Pow2(c)), c);
      LowWordsStep(words, n, c);
      Factor(c, n, 1);
      n := n + 1;
    }
    assert words[..n] == words;
  }

  lemma {:induction false} Factor(p: int, x: int, y: int)
    ensures p * (x + y) == p * x + p * y && (x + y) * p == x * p + y * p
  {
  }

  function LowWords(words: seq<int>, c: nat): (r: seq<nat>)
    ensures |r| == |words|
  {
    seq(|words|, i requires 0 <= i < |words| => Lo(words[i], Pow2(c)))
  }

  lemma {:induction false} NoWords(c: nat)
    ensures LowWords([], c) == [] && WordsValue([], c) == 0
  {
  }

  lemma {:induction false} LowWordsStep(words: seq<int>, n: nat, c: nat)
    requires n < |words|
    ensures LowWords(words[..n + 1], c) == LowWords(words[..n], c) + [Lo(words[n], Pow2(c))]
  {
  }

  /** The value of one chunk, padded with false to c bits. */
  method ChunkValue(bits: seq<bool>, c: nat) returns (elem: nat)
    requires |bits| <= c
    ensures elem == BitsValue(bits)
  {
    hide BitsValue;
    hide Resized;
    ChunkFits(bits, c);
    var chunk := Resized(bits, c);
    elem := 0;
    var i := 0;
    assert chunk[..0] == [];
    NoBits(c);
    while i < c
      invariant i <= c && elem == BitsValue(chunk[..i])
    {
      PushBit(chunk[..i], chunk[i]);
      assert chunk[..i + 1] == chunk[..i] + [chunk[i]];
      if chunk[i] { elem := elem + Pow2(i); }
      i := i + 1;
    }
    assert chunk[..c] == chunk;
  }

  /** Sums up every chunk of c bits. */
  method GatherChunks(bits: seq<bool>, c: nat) returns (words: seq<nat>)
    requires c > 0
    ensures words == Chunks(bits, c)
  {
    hide Chunks;
    words := [];
    var pos := 0;
    assert bits[0..] == bits;
    while pos < |bits|
      invariant pos <= |bits| && words + Chunks(bits[pos..], c) == Chunks(bits, c)
    {
      var end := if pos + c < |bits| then pos + c else |bits|;
      var elem := ChunkValue(bits[pos..end], c);
      NextChunk(bits, pos, c);
      words := words + [elem];
      pos := end;
    }
    assert bits[pos..] == [];
    NoBits(c);
  }

  lemma {:induction false} ChunkFits(chunk: seq<bool>, c: nat)
    requires |chunk| <= c
    ensures BitsValue(Resized(chunk, c)) == BitsValue(chunk)
  {
    ResizedValue(chunk, c);
    BitsBound(chunk);
    Pow2Mono(|chunk|, c);
    SplitUnique(BitsValue(chunk), Pow2(c), 0, BitsValue(chunk));
  }

  lemma {:induction false} NextChunk(bits: seq<bool>, pos: nat, c: nat)
    requires c > 0 && pos < |bits|
    ensures var end := if pos + c < |bits| then pos + c else |bits|;
            Chunks(bits[pos..], c) == [BitsValue(bits[pos..end])] + Chunks(bits[end..], c)
  {
    var t := bits[pos..];
    if |t| <= c {
      assert bits[pos..|bits|] == t && bits[|bits|..] == [];
      assert [BitsValue(t)] + [] == [BitsValue(t)];
    } else {
      assert t[..c] == bits[pos..pos + c] && t[c..] == bits[pos + c..];
    }
  }

  function Reverse(l: seq<int>): (r: seq<int>)
    ensures |r| == |l|
  {
    if l == [] then [] else Reverse(l[1..]) + [l[0]]
  }

  lemma {:induction false} ReverseTwice(l: seq<int>)
    ensures Reverse(Reverse(l)) == l
    decreases |l|
  {
    if l != [] {
      ReverseTwice(l[1..]);
      ReverseAppend(Reverse(l[1..]), l[0]);
    }
  }

  lemma {:induction false} ReverseAppend(l: seq<int>, x: int)
    ensures Reverse(l + [x]) == [x] + Reverse(l)
    decreases |l|
  {
    if l == [] {
      assert [] + [x] == [x];
      assert [x][1..] == [];
      assert Reverse([x]) == Reverse([x][1..]) + [x];
    } else {
      assert (l + [x])[1..] == l[1..] + [x];
      ReverseAppend(l[1..], x);
    }
  }

  // ---------- push_u32_le ----------

  function PushNums(l: seq<int>): Script {
    if l == [] then [] else [Num(l[0])] + PushNums(l[1..])
  }

  lemma {:induction false} PushNumsRun(l: seq<int>, r: Stack, alt: Stack)
    ensures Exec(PushNums(l), Running(r, alt)) == Running(PushAll(l, r), alt)
    decreases |l|
  {
    hide Exec;
    hide Step;
    StackRules();
    if l == [] {
      Exec0(Running(r, alt));
    } else {
      ExecAppend([Num(l[0])], PushNums(l[1..]), Running(r, alt));
      Exec1(Num(l[0]), Running(r, alt));
      PushNumsRun(l[1..], Cell(l[0], r), alt);
    }
  }

  lemma {:induction false} PushReversed(l: seq<int>, r: Stack)
    ensures PushAll(Reverse(l), r) == Prepend(l, r)
    decreases |l|
  {
    if l != [] {
      PushReversed(l[1..], r);
      PushLast(Reverse(l[1..]), l[0], r);
    }
  }

  /** The script pushes exactly that number. */
  ghost predicate Pushes(script: Script, w: Width, v: nat)
    requires Shaped(w)
  {
    forall r: Stack, alt: Stack {:trigger Exec(script, Running(r, alt))} ::
      Exec(script, Running(r, alt)) == Running(On(w, v, r), alt)
  }

  lemma {:induction false} PushesDigits(w: Width, v: nat, limbs: seq<nat>)
    requires Shaped(w) && limbs == Number(w, v)
    ensures Pushes(PushNums(Reverse(limbs)) + PushCopies(0, NLimbs(w) - |limbs|), w, v)
  {
    hide Exec;
    hide PushNums;
    hide PushCopies;
    hide Prepend;
    hide PushAll;
    hide Digits;
    hide NLimbs;
    hide Copies;
    var script := PushNums(Reverse(limbs)) + PushCopies(0, 0);
    forall r: Stack, alt: Stack ensures Exec(script, Running(r, alt)) == Running(On(w, v, r), alt) {
      ExecAppend(PushNums(Reverse(limbs)), PushCopies(0, 0), Running(r, alt));
      PushNumsRun(Reverse(limbs), r, alt);
      PushReversed(limbs, r);
      PushCopiesRun(0, 0, On(w, v, r), alt);
      NoCopies(0, On(w, v, r));
    }
  }

  /** `push_u32_le`: the assertion on the most significant bit fails exactly when the number does not fit, and otherwise the
      script pushes the number. */
  method PushU32Le(w: Width, v: seq<nat>) returns (r: Option<Script>)
    requires Shaped(w) && forall x :: x in v ==> x < 0x1_0000_0000
    ensures r.Some? <==> WordsValue(v, 32) < Capacity(w)
    ensures r.Some? ==> Pushes(r.value, w, WordsValue(v, 32))
  {
    hide WordsValue;
    hide BitsValue;
    hide Resized;
    hide Chunks;
    hide LowWords;
    hide Pushes;
    hide NLimbs;
    hide Digits;
    hide Pow2;
    var bits := PushBits(v, 32);
    WordsAreLow(v);
    ghost var value := WordsValue(v, 32);
    var msOne: nat := 0;
    if |bits| > 0 {
      msOne := |bits| - 1;
      while !bits[msOne]
        invariant msOne < |bits| && forall i :: msOne < i < |bits| ==> !bits[i]
        decreases msOne
      {
        if msOne != 0 { msOne := msOne - 1; } else { break; }
      }
    }
    MostSignificant(bits, msOne, w.nBits);
    if msOne >= w.nBits { return None; }
    ResizedValue(bits, w.nBits);
    SplitUnique(value, Capacity(w), 0, value);
    bits := Resized(bits, w.nBits);
    var limbs := GatherChunks(bits, w.limb);
    ChunksAreDigits(bits, NLimbs(w) - 1, w.limb);
    PushesDigits(w, value, limbs);
    r := Some(PushNums(Reverse(limbs)) + PushCopies(0, NLimbs(w) - |limbs|));
  }

  lemma {:induction false} WordsAreLow(v: seq<nat>)
    requires forall x :: x in v ==> x < 0x1_0000_0000
    ensures LowWords(v, 32) == v
  {
    Pow2Of32();
    forall i | 0 <= i < |v| ensures LowWords(v, 32)[i] == v[i] {
      assert v[i] in v;
      SplitUnique(v[i], Pow2(32), 0, v[i]);
    }
  }

  lemma {:induction false} MostSignificant(bits: seq<bool>, k: nat, n: nat)
    requires n > 0 && (bits == [] ==> k == 0) && (bits != [] ==> k < |bits| && (bits[k] || k == 0))
    requires forall i :: k < i < |bits| ==> !bits[i]
    ensures k < n <==> BitsValue(bits) < Pow2(n)
  {
    if bits != [] && bits[k] {
      TopBit(bits, k);
      if k < n { Pow2Mono(k + 1, n); } else { Pow2Mono(n, k); }
    } else {
      Zeros(bits);
    }
  }

  // ---------- bigint_to_u32_limbs ----------

  /** The n_bits low bits of a big integer as 32-bit words; at least one word. */
  method BigintToU32Limbs(n: int, nBits: nat) returns (limbs: seq<nat>)
    ensures WordsValue(limbs, 32) == Lo(n, Pow2(nBits)) && forall x :: x in limbs ==> x < 0x1_0000_0000
    ensures |limbs| == if nBits == 0 then 1 else (nBits + 31) / 32
  {
    hide Lo;
    hide BitOf;
    hide Pow2;
    limbs := [];
    var limb: nat := 0;
    Pow2Of32();
    LoOfOne(n);
    PowerZero();
    for i := 0 to nBits
      invariant |limbs| == if i == 0 then 0 else (i - 1) / 32
      invariant WordsValue(limbs, 32) + Pow2(|limbs| * 32) * limb == Lo(n, Pow2(i))
      invariant limb < Pow2(i - |limbs| * 32) && forall x :: x in limbs ==> x < 0x1_0000_0000
    {
      if i > 0 && i % 32 == 0 {
        WordsAppend(limbs, limb, 32);
        limbs := limbs + [limb];
        limb := 0;
        PowerZero();
      }
      var j := i % 32;
      NextBit(n, i);
      Pow2Add(|limbs| * 32, j);
      Factor(Pow2(|limbs| * 32), limb, Pow2(j));
      NextPower(j);
      if BitOf(n, i) { limb := limb + Pow2(j); }
    }
    WordsAppend(limbs, limb, 32);
    Pow2Mono(nBits - |limbs| * 32, 32);
    limbs := limbs + [limb];
  }

  lemma {:induction false} PowerZero()
    ensures Pow2(0) == 1
  {
  }

  lemma {:induction false} NextPower(j: nat)
    ensures Pow2(j + 1) == Pow2(j) + Pow2(j)
  {
  }

  /** Pushing a hint: the words of a non-negative quotient below the capacity push that quotient. */
  method PushHint(w: Width, q: nat) returns (script: Script)
    requires Shaped(w) && q < Capacity(w)
    ensures Pushes(script, w, q)
  {
    var words := BigintToU32Limbs(q, w.nBits);
    SplitUnique(q, Capacity(w), 0, q);
    var r := PushU32Le(w, words);
    script := r.value;
  }

  // ---------- read_u32_le ----------

  /** `read_u32_le`: the limbs come from the bottom of the stack to its top; the result is little-endian words. */
  method ReadU32Le(w: Width, cells: seq<int>) returns (words: seq<nat>)
    requires Shaped(w) && |cells| == NLimbs(w)
    ensures WordsValue(words, 32) == Lo(WordsValue(LowWords(Reverse(cells), w.limb), w.limb), Capacity(w))
    ensures |words| == (w.nBits + 31) / 32 && forall x :: x in words ==> x < 0x1_0000_0000
  {
    var bits := PushBits(Reverse(cells), w.limb);
    ResizedValue(bits, w.nBits);
    bits := Resized(bits, w.nBits);
    words := GatherChunks(bits, 32);
    ChunksSpell(bits, 32);
    ChunkCount(bits, 32);
    Pow2Of32();
  }

  lemma {:induction false} ChunkCount(bits: seq<bool>, c: nat)
    requires c > 0
    ensures |Chunks(bits, c)| == (|bits| + c - 1) / c
    decreases |bits|
  {
    if bits == [] {
      DivModUnique(c - 1, c, 0, c - 1);
    } else if |bits| <= c {
      DivModUnique(|bits| + c - 1, c, 1, |bits| - 1);
    } else {
      ChunkCount(bits[c..], c);
      var n := |bits| - 1;
      assert n == n / c * c + n % c;
      SplitProduct(n / c + 1, c);
      DivModUnique(n + c, c, n / c + 1, n % c);
    }
  }

  lemma {:induction false} DigitsSpell(k: nat, l: nat, v: nat, h: nat)
    requires l > 0 && v < Scale(k, Pow2(l), h) && h <= Pow2(l)
    ensures WordsValue(LowWords(Digits(k, Pow2(l), v), l), l) == v
    decreases k
  {
    hide Lo;
    hide Up;
    hide Digits;
    hide LowWords;
    hide WordsValue;
    var b := Pow2(l);
    if k == 0 {
      NoLimbs(b, v);
      SplitUnique(v, b, 0, v);
      WordsCons(v, [], l);
      NoWords(l);
      assert [v] + [] == [v];
    } else {
      var u := Up(v, b);
      UpNonNeg(v, b);
      Split(v, b);
      BelowProduct(v, u, Lo(v, b), b, Scale(k - 1, b, h));
      DigitsStep(k, b, v);
      DigitsSpell(k - 1, l, u, h);
      SplitUnique(Lo(v, b), b, 0, Lo(v, b));
      WordsCons(Lo(v, b), Digits(k - 1, b, u), l);
      assert b * u == u * b;
    }
  }

  lemma {:induction false} WordsCons(x: int, t: seq<int>, l: nat)
    ensures WordsValue(LowWords([x] + t, l), l) == Lo(x, Pow2(l)) + Pow2(l) * WordsValue(LowWords(t, l), l)
  {
    hide Lo;
    var d := LowWords([x] + t, l);
    assert d == [Lo(x, Pow2(l))] + LowWords(t, l);
    assert d[1..] == LowWords(t, l);
  }

  /** Reading the stack cells of a number gives back the words that pushed it. */
  method PushThenRead(w: Width, v: seq<nat>) returns (words: seq<nat>)
    requires Shaped(w) && (forall x :: x in v ==> x < 0x1_0000_0000) && WordsValue(v, 32) < Capacity(w)
    ensures WordsValue(words, 32) == WordsValue(v, 32)
  {
    var value := WordsValue(v, 32);
    var cells := Reverse(Number(w, value));
    words := ReadU32Le(w, cells);
    ReverseTwice(Number(w, value));
    CapacityIsScale(w);
    Pow2Mono(Head(w), w.limb);
    DigitsSpell(NLimbs(w) - 1, w.limb, value, HeadOffset(w));
    SplitUnique(value, Capacity(w), 0, value);
  }
}
