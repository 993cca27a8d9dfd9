/** Signed numbers in blocks on the stack, and the lookup tables that `tmul` builds there (bitvm/src/bn254/fq.rs). */
module TmulTables {
  import opened Arithmetic
  import opened Wrappers
  import opened ScriptMachine
  import opened Limbs
  import opened LimbIo
  import opened TwosComplement
  import opened SignedAdd
  import opened SignedDouble
  import M = Tmul

  /** The cells of signed numbers, vs[0] on top. */
  function Blocks(w: Width, vs: seq<int>): (l: seq<int>)
    requires Valid(w)
    ensures |vs| * NLimbs(w) >= 0 && |l| == |vs| * NLimbs(w)
  {
    if vs == [] then []
    else
      SplitProduct(|vs|, NLimbs(w));
      SignedNumber(w, vs[0]) + Blocks(w, vs[1..])
  }

  ghost predicate AllFit(bits: nat, vs: seq<int>)
    requires bits > 0
  {
    forall i :: 0 <= i < |vs| ==> Fits(bits, vs[i])
  }

  lemma {:induction false} BlocksAppend(w: Width, a: seq<int>, b: seq<int>)
    requires Valid(w)
    ensures Blocks(w, a + b) == Blocks(w, a) + Blocks(w, b)
    decreases |a|
  {
    if a == [] {
      assert a + b == b;
    } else {
      assert (a + b)[1..] == a[1..] + b;
      BlocksAppend(w, a[1..], b);
    }
  }

  /** One block taken out of its surroundings. */
  lemma {:induction false} BlocksSplit(w: Width, vs: seq<int>, i: nat, r: Stack)
    requires Valid(w) && i < |vs|
    ensures Prepend(Blocks(w, vs), r) ==
            Prepend(Blocks(w, vs[..i]), SignedOn(w, vs[i], Prepend(Blocks(w, vs[i + 1..]), r)))
  {
    hide Prepend;
    hide Number;
    hide NLimbs;
    var a, x, b := vs[..i], vs[i], vs[i + 1..];
    assert vs == a + ([x] + b);
    assert ([x] + b)[1..] == b;
    BlocksAppend(w, a, [x] + b);
    PrependAppend(Blocks(w, a), Blocks(w, [x] + b), r);
    PrependAppend(SignedNumber(w, x), Blocks(w, b), r);
  }

  lemma {:induction false} FirstBlock(w: Width, x: int, vs: seq<int>, r: Stack)
    requires Valid(w)
    ensures Prepend(Blocks(w, [x] + vs), r) == SignedOn(w, x, Prepend(Blocks(w, vs), r))
  {
    hide Prepend;
    hide Number;
    hide NLimbs;
    assert ([x] + vs)[1..] == vs;
    PrependAppend(SignedNumber(w, x), Blocks(w, vs), r);
  }

  // ---------- arithmetic on blocks ----------

  /** `add_ref` with the number d blocks below the accumulator. */
  lemma {:induction false} AddBlock(w: Width, d: nat, vs: seq<int>, x: int, r: Stack, alt: Stack)
    requires Valid(w) && 0 < d <= |vs| && Fits(w.nBits, x) && AllFit(w.nBits, vs)
    requires |vs| * NLimbs(w) < 0x7FFF_0000 && NLimbs(w) < 0x4000
    ensures var all := Prepend(Blocks(w, vs), r);
            Exec(AddRef(w, d), Running(SignedOn(w, x, all), alt)) ==
            if Fits(w.nBits, x + vs[d - 1]) then Running(SignedOn(w, x + vs[d - 1], all), alt) else Failed
    ensures var all := Prepend(Blocks(w, vs), r);
            Exec(AddRefStack(w), Running(Cell(d, SignedOn(w, x, all)), alt)) ==
            if Fits(w.nBits, x + vs[d - 1]) then Running(SignedOn(w, x + vs[d - 1], all), alt) else Failed
    ensures var all := Prepend(Blocks(w, vs), r);
            Exec(AddRefWithTop(w, d), Running(SignedOn(w, x, all), alt)) ==
            if Fits(w.nBits, x + vs[d - 1]) then Running(SignedOn(w, x + vs[d - 1], SignedOn(w, x, all)), alt) else Failed
  {
    hide Exec;
    hide Prepend;
    hide SignedOn;
    hide NLimbs;
    hide Fits;
    hide AddRef;
    hide AddRefStack;
    hide AddRefWithTop;
    BlocksSplit(w, vs, d - 1, r);
    BlockSizes(|vs|, d - 1, NLimbs(w));
    var mid, rest := Blocks(w, vs[..d - 1]), Prepend(Blocks(w, vs[d..]), r);
    AddRefExact(w, d, mid, x, vs[d - 1], rest, alt);
    AddRefStackExact(w, d, mid, x, vs[d - 1], rest, alt);
    AddRefWithTopExact(w, d, mid, x, vs[d - 1], rest, alt);
  }

  lemma {:induction false} BlockSizes(n: nat, i: nat, k: nat)
    requires i < n
    ensures 0 <= i * k && i * k + k <= n * k
  {
    MulMono(i + 1, n, k);
    SplitProduct(i + 1, k);
    MulNonNeg(i, k);
  }

  lemma {:induction false} DoubleBlock(w: Width, d: nat, vs: seq<int>, r: Stack, alt: Stack)
    requires Valid(w) && d < |vs| && AllFit(w.nBits, vs) && |vs| * NLimbs(w) < 0x7FFF_0000 && NLimbs(w) < 0x4000
    ensures var all := Prepend(Blocks(w, vs), r);
            Exec(DoubleKeepElement(w, d), Running(all, alt)) ==
            if Fits(w.nBits, vs[d] + vs[d]) then Running(SignedOn(w, vs[d] + vs[d], all), alt) else Failed
  {
    hide Exec;
    hide Prepend;
    hide SignedOn;
    hide NLimbs;
    hide Fits;
    hide DoubleKeepElement;
    BlocksSplit(w, vs, d, r);
    BlockSizes(|vs|, d, NLimbs(w));
    DoubleKeepExact(w, d, Blocks(w, vs[..d]), vs[d], Prepend(Blocks(w, vs[d + 1..]), r), alt);
  }

  // ---------- init_table ----------

  function InitEntries(w: Width, j: nat, end: nat): Script
    requires Valid(w) && 2 <= j <= end
    decreases end - j
  {
    if j == end then []
    else (if j % 2 == 0 then DoubleKeepElement(w, j / 2 - 1) else AddRefWithTop(w, j - 2)) + InitEntries(w, j + 1, end)
  }

  function InitLevels(w: Width, i: nat, window: nat): Script
    requires Valid(w) && 2 <= i
    decreases if i <= window then window + 1 - i else 0
  {
    if i > window then []
    else
      Pow2Mono(1, i - 1);
      InitEntries(w, Pow2(i - 1), Pow2(i)) + InitLevels(w, i + 1, window)
  }

  /** `init_table`: entries 2 to 2^window - 1 on top of the first. */
  function InitTable(w: Width, window: nat): Script
    requires Valid(w)
  {
    InitLevels(w, 2, window)
  }

  lemma {:induction false} ReverseAt(l: seq<int>, i: nat)
    requires i < |l|
    ensures Reverse(l)[i] == l[|l| - 1 - i]
    decreases |l|
  {
    if i < |l| - 1 {
      ReverseAt(l[1..], i);
      assert l[1..][|l| - 2 - i] == l[|l| - 1 - i];
    }
  }

  /** The stack of a table: the last entry on top. */
  function TableState(w: Width, t: Option<seq<int>>, r: Stack, alt: Stack): State
    requires Valid(w)
  {
    match t
    case None => Failed
    case Some(entries) => Running(Prepend(Blocks(w, Reverse(entries)), r), alt)
  }

  lemma {:induction false} EntriesFit(bits: nat, x: int, n: nat)
    requires bits > 0 && n > 0 && Fits(bits, x) && M.Table(bits, x, n).Some?
    ensures AllFit(bits, M.Table(bits, x, n).value)
    decreases n
  {
    if n > 1 { EntriesFit(bits, x, n - 1); }
  }

  lemma {:induction false} ReverseFits(bits: nat, l: seq<int>)
    requires bits > 0 && AllFit(bits, l)
    ensures AllFit(bits, Reverse(l))
  {
    forall i | 0 <= i < |l| ensures Fits(bits, Reverse(l)[i]) { ReverseAt(l, i); }
  }

  /** The script of entry j extends the table of the first j - 1 entries exactly as the integer-level table does. */
  lemma {:induction false} EntryRun(w: Width, x: int, j: nat, r: Stack, alt: Stack)
    requires Valid(w) && Fits(w.nBits, x) && 2 <= j && (j - 1) * NLimbs(w) < 0x7FFF_0000 && NLimbs(w) < 0x4000
    ensures Exec(if j % 2 == 0 then DoubleKeepElement(w, j / 2 - 1) else AddRefWithTop(w, j - 2),
                 TableState(w, M.Table(w.nBits, x, j - 1), r, alt)) ==
            TableState(w, M.Table(w.nBits, x, j), r, alt)
  {
    hide Exec;
    hide Prepend;
    hide Fits;
    hide NLimbs;
    hide DoubleKeepElement;
    hide AddRefWithTop;
    hide Blocks;
    hide Reverse;
    hide SignedOn;
    var op := if j % 2 == 0 then DoubleKeepElement(w, j / 2 - 1) else AddRefWithTop(w, j - 2);
    match M.Table(w.nBits, x, j - 1)
    case None => ExecFailed(op);
    case Some(t) =>
      EntriesFit(w.nBits, x, j - 1);
      EntryStep(w, t, j, r, alt);
  }

  lemma {:induction false} EntryStep(w: Width, t: seq<int>, j: nat, r: Stack, alt: Stack)
    requires Valid(w) && |t| == j - 1 && 2 <= j && AllFit(w.nBits, t) && (j - 1) * NLimbs(w) < 0x7FFF_0000 && NLimbs(w) < 0x4000
    ensures var v := if j % 2 == 0 then t[j / 2 - 1] + t[j / 2 - 1] else t[j - 2] + t[0];
            Exec(if j % 2 == 0 then DoubleKeepElement(w, j / 2 - 1) else AddRefWithTop(w, j - 2),
                 Running(Prepend(Blocks(w, Reverse(t)), r), alt)) ==
            if Fits(w.nBits, v) then Running(Prepend(Blocks(w, Reverse(t + [v])), r), alt) else Failed
  {
    hide Exec;
    hide Prepend;
    hide Fits;
    hide NLimbs;
    hide DoubleKeepElement;
    hide AddRefWithTop;
    hide Blocks;
    hide Reverse;
    hide SignedOn;
    var rev := Reverse(t);
    ReverseFits(w.nBits, t);
    var v := if j % 2 == 0 then t[j / 2 - 1] + t[j / 2 - 1] else t[j - 2] + t[0];
    ReverseAppend(t, v);
    FirstBlock(w, v, rev, r);
    if j % 2 == 0 {
      ReverseAt(t, j / 2 - 1);
      DoubleBlock(w, j / 2 - 1, rev, r, alt);
    } else {
      ReverseAt(t, 0);
      ReverseAt(t, j - 2);
      var below := rev[1..];
      assert rev == [rev[0]] + below;
      FirstBlock(w, rev[0], below, r);
      BlockSizes(j - 1, j - 2, NLimbs(w));
      AddBlock(w, j - 2, below, rev[0], r, alt);
    }
  }

  lemma {:induction false} InitEntriesRun(w: Width, x: int, j: nat, end: nat, r: Stack, alt: Stack)
    requires Valid(w) && Fits(w.nBits, x) && 2 <= j <= end && end * NLimbs(w) < 0x7FFF_0000 && NLimbs(w) < 0x4000
    ensures Exec(InitEntries(w, j, end), TableState(w, M.Table(w.nBits, x, j - 1), r, alt)) ==
            TableState(w, M.Table(w.nBits, x, end - 1), r, alt)
    decreases end - j
  {
    hide Exec;
    hide TableState;
    hide M.Table;
    hide Fits;
    hide NLimbs;
    hide DoubleKeepElement;
    hide AddRefWithTop;
    var st := TableState(w, M.Table(w.nBits, x, j - 1), r, alt);
    if j == end {
      Exec0(st);
    } else {
      var op := if j % 2 == 0 then DoubleKeepElement(w, j / 2 - 1) else AddRefWithTop(w, j - 2);
      ExecAppend(op, InitEntries(w, j + 1, end), st);
      MulMono(j - 1, end, NLimbs(w));
      EntryRun(w, x, j, r, alt);
      InitEntriesRun(w, x, j + 1, end, r, alt);
    }
  }

  lemma {:induction false} InitLevelsRun(w: Width, x: int, i: nat, window: nat, r: Stack, alt: Stack)
    requires Valid(w) && Fits(w.nBits, x) && 2 <= i <= window + 1 && NLimbs(w) < 0x4000
    requires Pow2(window) * NLimbs(w) < 0x7FFF_0000
    ensures Pow2(i - 1) - 1 > 0 && Pow2(window) - 1 > 0
    ensures Exec(InitLevels(w, i, window), TableState(w, M.Table(w.nBits, x, Pow2(i - 1) - 1), r, alt)) ==
            TableState(w, M.Table(w.nBits, x, Pow2(window) - 1), r, alt)
    decreases window + 1 - i
  {
    hide Exec;
    hide TableState;
    hide M.Table;
    hide Fits;
    hide NLimbs;
    hide InitEntries;
    Pow2Mono(1, i - 1);
    Pow2Mono(i - 1, window);
    assert Pow2(1) == 2;
    var st := TableState(w, M.Table(w.nBits, x, Pow2(i - 1) - 1), r, alt);
    if i == window + 1 {
      Exec0(st);
    } else {
      Pow2Mono(i, window);
      Pow2Mono(i - 1, i);
      MulMono(Pow2(i), Pow2(window), NLimbs(w));
      ExecAppend(InitEntries(w, Pow2(i - 1), Pow2(i)), InitLevels(w, i + 1, window), st);
      InitEntriesRun(w, x, Pow2(i - 1), Pow2(i), r, alt);
      InitLevelsRun(w, x, i + 1, window, r, alt);
    }
  }

  /** `init_table` builds the table of the integer-level model, and fails exactly when that does. */
  lemma {:induction false} InitTableRun(w: Width, x: int, window: nat, r: Stack, alt: Stack)
    requires Valid(w) && Fits(w.nBits, x) && window > 0 && NLimbs(w) < 0x4000 && Pow2(window) * NLimbs(w) < 0x7FFF_0000
    ensures Pow2(window) - 1 > 0
    ensures Exec(InitTable(w, window), Running(SignedOn(w, x, r), alt)) ==
            TableState(w, M.Table(w.nBits, x, Pow2(window) - 1), r, alt)
  {
    hide Exec;
    hide InitLevels;
    hide Fits;
    hide NLimbs;
    hide Prepend;
    hide SignedOn;
    assert Pow2(1) == 2;
    Pow2Mono(1, window);
    InitLevelsRun(w, x, 2, window, r, alt);
    assert M.Table(w.nBits, x, 1) == Some([x]);
    assert [x][1..] == [] && Reverse([x]) == Reverse([]) + [x] && [] + [x] == [x];
    assert [x] + [] == [x];
    FirstBlock(w, x, [], r);
    assert Blocks(w, []) == [];
    NoCells(r);
  }
}
