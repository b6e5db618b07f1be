/**
 * Splitting a key sequence into runs of adjacent keys, and the measures the
 * streak helpers take of those runs: the longest run, the trailing run and
 * the mean run length.
 *
 * Everything here is generic in the key type and the adjacency rule, so the
 * daily helpers (dates, `DayAdjacent`) and the weekly helpers (ISO weeks,
 * `WeekAdjacent`) share one account of what a run is.
 */
module Segmenter {
  import opened Sorting

  function Sum(s: seq<nat>): nat {
    if s == [] then 0 else Sum(s[..|s| - 1]) + s[|s| - 1]
  }

  function Max(a: nat, b: nat): nat {
    if a < b then b else a
  }

  /** The largest entry, or 0 for no entries. */
  function MaxOf(s: seq<nat>): nat {
    if s == [] then 0 else Max(MaxOf(s[..|s| - 1]), s[|s| - 1])
  }

  /** The lengths of the maximal runs of `keys`, in order: each key either
      extends the run of its predecessor (when `adj` links them) or starts a
      new run of length 1. This is the `streaks` list of the average helpers
      once its last run is appended. */
  function RunLengths<K>(keys: seq<K>, adj: (K, K) -> bool): (runs: seq<nat>)
    ensures keys != [] <==> runs != []
    ensures forall i :: 0 <= i < |runs| ==> runs[i] >= 1
    ensures Sum(runs) == |keys|
  {
    if keys == [] then []
    else if |keys| == 1 then
      assert [1][..0] == [];
      [1]
    else
      var prior := RunLengths(keys[..|keys| - 1], adj);
      var m := |prior| - 1;
      assert prior == prior[..m] + [prior[m]];
      if adj(keys[|keys| - 2], keys[|keys| - 1]) then
        assert (prior[..m] + [prior[m] + 1])[..m] == prior[..m];
        prior[..m] + [prior[m] + 1]
      else
        assert (prior + [1])[..m + 1] == prior;
        prior + [1]
  }

  /** The length of the run that ends at the last key, found by walking
      backwards while `adj` links each key to its predecessor. */
  function TrailingRun<K>(keys: seq<K>, adj: (K, K) -> bool): nat {
    if |keys| <= 1 then |keys|
    else if adj(keys[|keys| - 2], keys[|keys| - 1]) then TrailingRun(keys[..|keys| - 1], adj) + 1
    else 1
  }

  /** The same backward walk, except that a key equal to its predecessor is
      stepped over instead of ending the walk. */
  function TrailingRunSkippingRepeats<K(==)>(keys: seq<K>, adj: (K, K) -> bool): nat {
    if |keys| <= 1 then |keys|
    else if adj(keys[|keys| - 2], keys[|keys| - 1]) then TrailingRunSkippingRepeats(keys[..|keys| - 1], adj) + 1
    else if keys[|keys| - 1] == keys[|keys| - 2] then TrailingRunSkippingRepeats(keys[..|keys| - 1], adj)
    else 1
  }

  /** The length of the last run; 0 when there are no keys. */
  function LastRun<K>(keys: seq<K>, adj: (K, K) -> bool): nat {
    var runs := RunLengths(keys, adj);
    if runs == [] then 0 else runs[|runs| - 1]
  }

  /** The longest run; 0 when there are no keys. */
  function Longest<K>(keys: seq<K>, adj: (K, K) -> bool): nat {
    MaxOf(RunLengths(keys, adj))
  }

  /** `sum(streaks) / len(streaks)` over the runs; 0 when there are no keys. */
  function MeanRunLength<K>(keys: seq<K>, adj: (K, K) -> bool): real {
    var runs := RunLengths(keys, adj);
    if runs == [] then 0.0 else Sum(runs) as real / |runs| as real
  }

  /** Keys `i` up to (excluding) `j` form one unbroken chain under `adj`. */
  ghost predicate Chain<K>(keys: seq<K>, adj: (K, K) -> bool, i: int, j: int) {
    && 0 <= i < j <= |keys|
    && forall t :: i < t < j ==> adj(keys[t - 1], keys[t])
  }

  ghost predicate Irreflexive<K(!new)>(adj: (K, K) -> bool) {
    forall k :: !adj(k, k)
  }

  /** How one more key changes the runs: the scan step of every helper. */
  lemma RunLengthsStep<K>(keys: seq<K>, adj: (K, K) -> bool, i: nat)
    requires 1 <= i < |keys|
    ensures var r := RunLengths(keys[..i], adj);
            && r != []
            && RunLengths(keys[..i + 1], adj) ==
               if adj(keys[i - 1], keys[i]) then r[..|r| - 1] + [r[|r| - 1] + 1] else r + [1]
  {
    var q := keys[..i + 1];
    assert q[..|q| - 1] == keys[..i];
    assert q[|q| - 2] == keys[i - 1] && q[|q| - 1] == keys[i];
    RunLengthsSnoc(q, adj);
  }

  /** The recursive case of `RunLengths`, for any two or more keys. */
  lemma RunLengthsSnoc<K>(keys: seq<K>, adj: (K, K) -> bool)
    requires |keys| >= 2
    ensures var r := RunLengths(keys[..|keys| - 1], adj);
            && r != []
            && RunLengths(keys, adj) ==
               if adj(keys[|keys| - 2], keys[|keys| - 1]) then r[..|r| - 1] + [r[|r| - 1] + 1] else r + [1]
  {
  }

  /** One more key leaves the longest run as it was or makes the last run
      the longest. */
  lemma LongestRunStep<K>(keys: seq<K>, adj: (K, K) -> bool, i: nat)
    requires 1 <= i < |keys|
    ensures var r' := RunLengths(keys[..i + 1], adj);
            r' != [] && MaxOf(r') == Max(MaxOf(RunLengths(keys[..i], adj)), r'[|r'| - 1])
  {
    RunLengthsStep(keys, adj, i);
    var r := RunLengths(keys[..i], adj);
    if adj(keys[i - 1], keys[i]) {
      MaxOfBumpLast(r);
    } else {
      MaxOfSnoc(r, 1);
    }
  }

  /** The scan step of the longest-streak helpers: the last run grows by one
      or restarts at 1, and it never exceeds the longest run. */
  lemma LastRunStep<K>(keys: seq<K>, adj: (K, K) -> bool, i: nat)
    requires 1 <= i < |keys|
    ensures 1 <= LastRun(keys[..i], adj) <= Longest(keys[..i], adj)
    ensures LastRun(keys[..i + 1], adj) == if adj(keys[i - 1], keys[i]) then LastRun(keys[..i], adj) + 1 else 1
  {
    RunLengthsStep(keys, adj, i);
    var r := RunLengths(keys[..i], adj);
    MaxOfBounds(r);
    assert r[|r| - 1] <= MaxOf(r);
  }

  /** The scan step of the average helpers, which keep the closed runs in
      `streaks` and the open one in `current`. */
  lemma StreaksStep<K>(keys: seq<K>, adj: (K, K) -> bool, i: nat, streaks: seq<nat>, current: nat)
    requires 1 <= i < |keys|
    requires streaks + [current] == RunLengths(keys[..i], adj)
    ensures adj(keys[i - 1], keys[i]) ==> streaks + [current + 1] == RunLengths(keys[..i + 1], adj)
    ensures !adj(keys[i - 1], keys[i]) ==> (streaks + [current]) + [1] == RunLengths(keys[..i + 1], adj)
  {
    RunLengthsStep(keys, adj, i);
    assert (streaks + [current])[..|streaks|] == streaks;
  }

  lemma MaxOfSnoc(r: seq<nat>, x: nat)
    ensures MaxOf(r + [x]) == Max(MaxOf(r), x)
  {
    assert (r + [x])[..|r|] == r;
  }

  lemma MaxOfBumpLast(r: seq<nat>)
    requires r != []
    ensures MaxOf(r[..|r| - 1] + [r[|r| - 1] + 1]) == Max(MaxOf(r), r[|r| - 1] + 1)
  {
    var m := |r| - 1;
    MaxOfSnoc(r[..m], r[m] + 1);
  }

  lemma {:induction false} MaxOfBounds(s: seq<nat>)
    ensures forall i :: 0 <= i < |s| ==> s[i] <= MaxOf(s)
    ensures s != [] ==> MaxOf(s) in s
    ensures MaxOf(s) <= Sum(s)
  {
    if s != [] {
      var p := s[..|s| - 1];
      MaxOfBounds(p);
      assert s == p + [s[|s| - 1]];
      forall i | 0 <= i < |p| ensures s[i] <= MaxOf(s) {
        assert s[i] == p[i];
      }
    }
  }

  /** Every run is at least 1 long and at most as long as the longest one,
      so the number of runs times the longest bounds the number of keys. */
  lemma {:induction false} SumBounds(s: seq<nat>)
    requires forall i :: 0 <= i < |s| ==> s[i] >= 1
    ensures |s| <= Sum(s) <= |s| * MaxOf(s)
  {
    if s != [] {
      var p := s[..|s| - 1];
      var m := MaxOf(s);
      assert s[0] >= 1;
      assert forall i :: 0 <= i < |p| ==> p[i] >= 1 by {
        assert forall i :: 0 <= i < |p| ==> p[i] == s[i];
      }
      SumBounds(p);
      assert MaxOf(p) <= m && s[|s| - 1] <= m;
      MulMonotone(|p|, MaxOf(p), m);
      MulSucc(|p|, m);
    }
  }

  lemma MulMonotone(n: nat, a: nat, b: nat)
    requires a <= b
    ensures n * a <= n * b
  {
  }

  lemma MulSucc(n: nat, m: nat)
    ensures (n + 1) * m == n * m + m
  {
  }

  /** The trailing run is the last entry of the run lengths. */
  lemma {:induction false} TrailingRunIsLastRun<K>(keys: seq<K>, adj: (K, K) -> bool)
    ensures TrailingRun(keys, adj) == LastRun(keys, adj)
  {
    if |keys| > 1 {
      var p := keys[..|keys| - 1];
      TrailingRunIsLastRun(p, adj);
      RunLengthsStep(keys, adj, |keys| - 1);
      assert keys[..|keys|] == keys;
    }
  }

  /** The trailing run is the longest unbroken chain that ends at the last key:
      it is a chain, and the key before it (if any) does not link to it. */
  lemma {:induction false} TrailingRunIsMaximalChain<K>(keys: seq<K>, adj: (K, K) -> bool)
    requires keys != []
    ensures 1 <= TrailingRun(keys, adj) <= |keys|
    ensures Chain(keys, adj, |keys| - TrailingRun(keys, adj), |keys|)
    ensures var s := |keys| - TrailingRun(keys, adj); s > 0 ==> !adj(keys[s - 1], keys[s])
  {
    var n := |keys|;
    if n > 1 {
      var p := keys[..n - 1];
      TrailingRunIsMaximalChain(p, adj);
      if adj(keys[n - 2], keys[n - 1]) {
        var s := n - TrailingRun(keys, adj);
        assert s == n - 1 - TrailingRun(p, adj);
        forall t | s < t < n ensures adj(keys[t - 1], keys[t]) {
          if t < n - 1 {
            assert keys[t - 1] == p[t - 1] && keys[t] == p[t];
          }
        }
        if s > 0 {
          assert keys[s - 1] == p[s - 1] && keys[s] == p[s];
        }
      }
    }
  }

  /** The longest run is the longest unbroken chain anywhere in `keys`: some
      chain has exactly that length, and none is longer. */
  lemma LongestIsLongestChain<K>(keys: seq<K>, adj: (K, K) -> bool)
    requires keys != []
    ensures exists i, j :: Chain(keys, adj, i, j) && j - i == Longest(keys, adj)
    ensures forall i, j :: Chain(keys, adj, i, j) ==> j - i <= Longest(keys, adj)
  {
    LongestChainExists(keys, adj);
    forall i, j | Chain(keys, adj, i, j) ensures j - i <= Longest(keys, adj) {
      ChainAtMostLongest(keys, adj, i, j);
    }
  }

  /** The longest run either is the longest run before the last key or is
      the run that ends at the last key. */
  lemma LongestStep<K>(keys: seq<K>, adj: (K, K) -> bool)
    requires |keys| > 1
    ensures Longest(keys, adj) == Max(Longest(keys[..|keys| - 1], adj), TrailingRun(keys, adj))
  {
    LongestRunStep(keys, adj, |keys| - 1);
    assert keys[..|keys|] == keys;
    TrailingRunIsLastRun(keys, adj);
  }

  /** A chain within the first `m` keys is a chain of the whole sequence. */
  lemma ChainOfPrefix<K>(keys: seq<K>, adj: (K, K) -> bool, m: nat, i: int, j: int)
    requires m <= |keys|
    ensures Chain(keys[..m], adj, i, j) <==> Chain(keys, adj, i, j) && j <= m
  {
    assert forall t :: 0 <= t < m ==> keys[..m][t] == keys[t];
  }

  lemma {:induction false} LongestChainExists<K>(keys: seq<K>, adj: (K, K) -> bool)
    requires keys != []
    ensures exists i, j :: Chain(keys, adj, i, j) && j - i == Longest(keys, adj)
  {
    var n := |keys|;
    if n == 1 {
      assert RunLengths(keys, adj) == [1];
      assert [1][..0] == [];
      assert Chain(keys, adj, 0, 1) && 1 - 0 == Longest(keys, adj);
    } else {
      var L := TrailingRun(keys, adj);
      TrailingRunIsMaximalChain(keys, adj);
      LongestStep(keys, adj);
      var p := keys[..n - 1];
      if Longest(keys, adj) == L {
        assert Chain(keys, adj, n - L, n) && n - (n - L) == Longest(keys, adj);
      } else {
        assert Longest(keys, adj) == Longest(p, adj);
        LongestChainExists(p, adj);
        var i, j :| Chain(p, adj, i, j) && j - i == Longest(p, adj);
        ChainOfPrefix(keys, adj, n - 1, i, j);
        assert Chain(keys, adj, i, j) && j - i == Longest(keys, adj);
      }
    }
  }

  lemma {:induction false} ChainAtMostLongest<K>(keys: seq<K>, adj: (K, K) -> bool, i: int, j: int)
    requires Chain(keys, adj, i, j)
    ensures j - i <= Longest(keys, adj)
    decreases |keys|
  {
    var n := |keys|;
    if n == 1 {
      assert RunLengths(keys, adj) == [1];
      assert [1][..0] == [];
    } else {
      var L := TrailingRun(keys, adj);
      TrailingRunIsMaximalChain(keys, adj);
      LongestStep(keys, adj);
      var p := keys[..n - 1];
      if j < n {
        ChainOfPrefix(keys, adj, n - 1, i, j);
        ChainAtMostLongest(p, adj, i, j);
      } else {
        if 0 < n - L {
          assert !adj(keys[n - L - 1], keys[n - L]);
        }
        assert n - L <= i;
      }
    }
  }

  /** A non-empty key sequence has a longest run of at least 1 and at most
      the number of keys. */
  lemma LongestBounds<K>(keys: seq<K>, adj: (K, K) -> bool)
    requires keys != []
    ensures 1 <= Longest(keys, adj) <= |keys|
    ensures TrailingRun(keys, adj) <= Longest(keys, adj)
  {
    var runs := RunLengths(keys, adj);
    MaxOfBounds(runs);
    assert runs[|runs| - 1] <= MaxOf(runs);
    TrailingRunIsLastRun(keys, adj);
  }

  /** The mean run length is the number of keys over the number of runs,
      and lies between 1 and the longest run. */
  lemma MeanRunLengthBounds<K>(keys: seq<K>, adj: (K, K) -> bool)
    requires keys != []
    ensures MeanRunLength(keys, adj) == |keys| as real / |RunLengths(keys, adj)| as real
    ensures 1.0 <= MeanRunLength(keys, adj) <= Longest(keys, adj) as real
  {
    var runs := RunLengths(keys, adj);
    SumBounds(runs);
    DivisionBounds(Sum(runs), |runs|, 1, MaxOf(runs));
  }

  lemma DivisionBounds(total: nat, n: nat, lo: nat, hi: nat)
    requires n > 0 && n * lo <= total <= n * hi
    ensures lo as real <= total as real / n as real <= hi as real
  {
    CastProduct(n, lo);
    CastProduct(n, hi);
    RealDivisionBounds(total as real, n as real, lo as real, hi as real);
  }

  lemma {:induction false} CastProduct(a: nat, b: nat)
    ensures (a * b) as real == a as real * b as real
  {
    if a > 0 {
      CastProduct(a - 1, b);
      assert a * b == (a - 1) * b + b;
    }
  }

  lemma RealDivisionBounds(total: real, n: real, lo: real, hi: real)
    requires n > 0.0 && n * lo <= total <= n * hi
    ensures lo <= total / n <= hi
  {
    var q := total / n;
    assert q * n == total;
    assert (q - lo) * n >= 0.0;
    assert (hi - q) * n >= 0.0;
  }

  /** Stepping over repeated keys is walking the sequence with its repeats
      dropped. */
  lemma {:induction false} SkippingRepeatsIsCompressedTrail<K(!new)>(keys: seq<K>, adj: (K, K) -> bool)
    requires Irreflexive(adj)
    ensures TrailingRunSkippingRepeats(keys, adj) == TrailingRun(Compress(keys), adj)
  {
    var n := |keys|;
    if n > 1 {
      var p := keys[..n - 1];
      SkippingRepeatsIsCompressedTrail(p, adj);
      CompressSpec(p);
      var c := Compress(p);
      if keys[n - 1] != keys[n - 2] {
        var c' := c + [keys[n - 1]];
        assert c'[..|c|] == c;
        assert c'[|c'| - 2] == keys[n - 2];
      } else {
        assert !adj(keys[n - 2], keys[n - 1]);
      }
    }
  }

  /** Without stepping over repeats, the backward walk stops no later than
      it would on the sequence with its repeats dropped. */
  lemma {:induction false} TrailingRunAtMostCompressed<K(!new)>(keys: seq<K>, adj: (K, K) -> bool)
    requires Irreflexive(adj)
    ensures TrailingRun(keys, adj) <= TrailingRun(Compress(keys), adj)
    ensures keys != [] ==> 1 <= TrailingRun(keys, adj)
  {
    var n := |keys|;
    if n > 1 {
      var p := keys[..n - 1];
      TrailingRunAtMostCompressed(p, adj);
      CompressSpec(p);
      CompressSpec(keys);
      var c := Compress(p);
      if keys[n - 1] != keys[n - 2] {
        var c' := c + [keys[n - 1]];
        assert c'[..|c|] == c;
        assert c'[|c'| - 2] == keys[n - 2];
      } else {
        assert !adj(keys[n - 2], keys[n - 1]);
      }
    }
  }
}
