/** The median of the last eleven timestamps (header-chain/src/header_chain.rs; BIP 113). */
module MedianTime {

  function Insert(x: nat, s: seq<nat>): (r: seq<nat>)
    ensures |r| == |s| + 1
  {
    if s == [] || x <= s[0] then [x] + s else [s[0]] + Insert(x, s[1..])
  }

  /** What any sort leaves behind. */
  function Sorted(s: seq<nat>): (r: seq<nat>)
    ensures |r| == |s|
  {
    if s == [] then [] else Insert(s[0], Sorted(s[1..]))
  }

  function Median(times: seq<nat>): nat
    requires |times| == 11
  {
    Sorted(times)[5]
  }

  predicate ValidateTimestamp(blockTime: nat, times: seq<nat>)
    requires |times| == 11
  {
    blockTime > Median(times)
  }

  /** Number of entries above v. */
  function Above(s: seq<nat>, v: nat): (r: nat)
    ensures r <= |s|
  {
    if s == [] then 0 else (if s[0] > v then 1 else 0) + Above(s[1..], v)
  }

  predicate IsSorted(s: seq<nat>) {
    forall i, j :: 0 <= i < j < |s| ==> s[i] <= s[j]
  }

  lemma {:induction false} InsertProps(x: nat, s: seq<nat>, v: nat)
    ensures Above(Insert(x, s), v) == Above(s, v) + (if x > v then 1 else 0)
    ensures IsSorted(s) ==> IsSorted(Insert(x, s))
    ensures forall y :: y in Insert(x, s) ==> y == x || y in s
  {
    if s == [] || x <= s[0] {
      assert ([x] + s)[1..] == s;
    } else {
      InsertProps(x, s[1..], v);
      assert ([s[0]] + Insert(x, s[1..]))[1..] == Insert(x, s[1..]);
    }
  }

  lemma {:induction false} SortedProps(s: seq<nat>, v: nat)
    ensures IsSorted(Sorted(s)) && Above(Sorted(s), v) == Above(s, v)
  {
    if s != [] {
      SortedProps(s[1..], v);
      InsertProps(s[0], Sorted(s[1..]), v);
    }
  }

  /** In a sorted list, entry k is above v exactly when all entries from k on are. */
  lemma {:induction false} AboveSorted(s: seq<nat>, k: nat, v: nat)
    requires IsSorted(s) && k < |s|
    ensures s[k] > v <==> Above(s, v) >= |s| - k
  {
    if k == 0 {
      AllAbove(s, v);
    } else {
      AboveSorted(s[1..], k - 1, v);
    }
  }

  lemma {:induction false} AllAbove(s: seq<nat>, v: nat)
    requires IsSorted(s) && |s| > 0
    ensures s[0] > v <==> Above(s, v) == |s|
  {
    if |s| > 1 { AllAbove(s[1..], v); }
  }

  /** The median exceeds v exactly when at least six of the eleven entries do. */
  lemma {:induction false} MedianAbove(times: seq<nat>, v: nat)
    requires |times| == 11
    ensures Median(times) > v <==> Above(times, v) >= 6
  {
    SortedProps(times, v);
    AboveSorted(Sorted(times), 5, v);
  }

  lemma {:induction false} AboveUpdate(s: seq<nat>, i: nat, t: nat, v: nat)
    requires i < |s|
    ensures Above(s[i := t], v) == Above(s, v) - (if s[i] > v then 1 else 0) + (if t > v then 1 else 0)
  {
    if i == 0 {
      assert s[0 := t][1..] == s[1..];
    } else {
      assert s[i := t][1..] == s[1..][i - 1 := t];
      AboveUpdate(s[1..], i - 1, t, v);
    }
  }

  lemma {:induction false} SameAbove(a: seq<nat>, b: seq<nat>, v: nat)
    requires |a| == |b| && forall i :: 0 <= i < |a| ==> (a[i] > v <==> b[i] > v)
    ensures Above(a, v) == Above(b, v)
  {
    if a != [] { SameAbove(a[1..], b[1..], v); }
  }

  /** Different slots that hold entries above v are counted one by one. */
  lemma {:induction false} ManyAbove(s: seq<nat>, slots: seq<nat>, v: nat)
    requires forall i :: 0 <= i < |slots| ==> slots[i] < |s| && s[slots[i]] > v
    requires forall i, j :: 0 <= i < j < |slots| ==> slots[i] != slots[j]
    ensures Above(s, v) >= |slots|
    decreases |slots|
  {
    hide Above;
    if slots != [] {
      AboveUpdate(s, slots[0], 0, v);
      ManyAbove(s[slots[0] := 0], slots[1..], v);
    }
  }

  /** Overwriting any slot with a timestamp above the median cannot lower the median. */
  lemma {:induction false} MedianNeverDecreases(times: seq<nat>, i: nat, t: nat)
    requires |times| == 11 && i < 11 && ValidateTimestamp(t, times)
    ensures Median(times[i := t]) >= Median(times)
  {
    var m := Median(times);
    if m > 0 {
      MedianAbove(times, m - 1);
      AboveUpdate(times, i, t, m - 1);
      MedianAbove(times[i := t], m - 1);
    }
  }

  // ---------- progress over six blocks ----------

  /** Entries written one after the other into slots height+1, height+2, ... of the ring. */
  function Write(times: seq<nat>, height: nat, ts: seq<nat>): (r: seq<nat>)
    requires |times| == 11
    ensures |r| == 11
  {
    if ts == [] then times
    else Write(times, height, ts[..|ts| - 1])[(height + |ts|) % 11 := ts[|ts| - 1]]
  }

  /** Each timestamp is above the median in force when it is written. */
  predicate AllValid(times: seq<nat>, height: nat, ts: seq<nat>)
    requires |times| == 11
  {
    ts != [] ==> AllValid(times, height, ts[..|ts| - 1]) &&
                 ValidateTimestamp(ts[|ts| - 1], Write(times, height, ts[..|ts| - 1]))
  }

  lemma {:induction false} DistinctSlots(k: nat, n: nat)
    requires k < n < k + 11
    ensures k % 11 != n % 11
  {
  }

  lemma {:induction false} WriteKeeps(times: seq<nat>, height: nat, ts: seq<nat>, k: nat)
    requires |times| == 11 && |ts| <= 11 && |ts| < k <= 11
    ensures Write(times, height, ts)[(height + k) % 11] == times[(height + k) % 11]
  {
    if ts != [] {
      WriteKeeps(times, height, ts[..|ts| - 1], k);
      DistinctSlots(height + |ts|, height + k);
    }
  }

  lemma {:induction false} WriteMonotone(times: seq<nat>, height: nat, ts: seq<nat>)
    requires |times| == 11 && AllValid(times, height, ts)
    ensures Median(Write(times, height, ts)) >= Median(times)
  {
    if ts != [] {
      var before := ts[..|ts| - 1];
      WriteMonotone(times, height, before);
      MedianNeverDecreases(Write(times, height, before), (height + |ts|) % 11, ts[|ts| - 1]);
    }
  }

  /** n timestamps written to distinct slots count n more entries above v than n zeros written there. */
  lemma {:induction false} WriteRaises(times: seq<nat>, height: nat, ts: seq<nat>, v: nat)
    requires |times| == 11 && |ts| <= 11 && AllValid(times, height, ts) && v == Median(times)
    ensures Above(Write(times, height, ts), v) >= Above(Write(times, height, Zeros(|ts|)), v) + |ts|
  {
    hide Above;
    hide Median;
    if ts != [] {
      var n := |ts|;
      var before := ts[..n - 1];
      var slot := (height + n) % 11;
      assert Zeros(n)[..n - 1] == Zeros(n - 1);
      WriteRaises(times, height, before, v);
      WriteMonotone(times, height, before);
      WriteKeeps(times, height, before, n);
      WriteKeeps(times, height, Zeros(n - 1), n);
      AboveUpdate(Write(times, height, before), slot, ts[n - 1], v);
      AboveUpdate(Write(times, height, Zeros(n - 1)), slot, 0, v);
    } else {
      assert Zeros(0) == [];
    }
  }

  function Zeros(n: nat): (r: seq<nat>)
    ensures |r| == n
  {
    seq(n, _ => 0)
  }

  /** Six accepted timestamps in consecutive slots raise the median. */
  lemma {:induction false} SixRaiseMedian(times: seq<nat>, height: nat, ts: seq<nat>)
    requires |times| == 11 && |ts| >= 6 && AllValid(times, height, ts)
    ensures Median(Write(times, height, ts)) > Median(times)
    decreases |ts|
  {
    if |ts| == 6 {
      WriteRaises(times, height, ts, Median(times));
      MedianAbove(Write(times, height, ts), Median(times));
    } else {
      var n := |ts|;
      SixRaiseMedian(times, height, ts[..n - 1]);
      MedianNeverDecreases(Write(times, height, ts[..n - 1]), (height + n) % 11, ts[n - 1]);
    }
  }

  /** Fewer than six are not enough: five timestamps may leave the median where it was. */
  lemma {:induction false} FiveMayNotRaiseMedian(height: nat, m: nat)
    ensures var times, ts := seq(11, _ => m), seq(5, _ => m + 1);
            AllValid(times, height, ts) && Median(Write(times, height, ts)) == Median(times) == m
  {
    var times := seq(11, _ => m);
    ConstantMedian(m);
    FewWrites(height, m, 5);
  }

  lemma {:induction false} AboveConstant(n: nat, x: nat, v: nat)
    ensures Above(seq(n, _ => x), v) == if x > v then n else 0
  {
    if n > 0 {
      assert seq(n, _ => x)[1..] == seq(n - 1, _ => x);
      AboveConstant(n - 1, x, v);
    }
  }

  lemma {:induction false} ConstantMedian(m: nat)
    ensures Median(seq(11, _ => m)) == m
  {
    var times := seq(11, _ => m);
    AboveConstant(11, m, m);
    MedianAbove(times, m);
    if m > 0 {
      AboveConstant(11, m, m - 1);
      MedianAbove(times, m - 1);
    }
  }

  lemma {:induction false} FewWrites(height: nat, m: nat, n: nat)
    requires n <= 5
    ensures var times, ts := seq(11, _ => m), seq(n, _ => m + 1);
            AllValid(times, height, ts) && Median(Write(times, height, ts)) == m &&
            Above(Write(times, height, ts), m) <= n
  {
    hide Above;
    hide Median;
    var times, ts := seq(11, _ => m), seq(n, _ => m + 1);
    ConstantMedian(m);
    if n == 0 {
      AboveConstant(11, m, m);
    } else {
      assert ts[..n - 1] == seq(n - 1, _ => m + 1);
      FewWrites(height, m, n - 1);
      var before := Write(times, height, ts[..n - 1]);
      AboveUpdate(before, (height + n) % 11, m + 1, m);
      MedianAbove(Write(times, height, ts), m);
      MedianNeverDecreases(before, (height + n) % 11, m + 1);
    }
  }
}
