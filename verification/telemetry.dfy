/**
 * The engine's metrics collector (`Metrics`): message and error counters, the
 * recorded per-message latencies with their p50/p95/p99 selection, and the
 * last error message. The locks that guard each field are left out: every
 * operation here is one atomic step on an immutable value.
 */
module Telemetry {
  import opened Ints
  import opened Seqs

  datatype Metrics = Metrics(totalMessages: nat, replayErrors: nat, latencies: seq<u64>, lastError: string)

  /** A collector as constructed: zero counters, no samples, empty message. */
  const Initial: Metrics := Metrics(0, 0, [], "")

  /** `record_latency`: appends one sample at the end. */
  function RecordLatency(m: Metrics, ns: u64): (r: Metrics)
    ensures |r.latencies| == |m.latencies| + 1
    ensures r.latencies[..|m.latencies|] == m.latencies && r.latencies[|m.latencies|] == ns
    ensures r.totalMessages == m.totalMessages && r.replayErrors == m.replayErrors && r.lastError == m.lastError
  {
    m.(latencies := m.latencies + [ns])
  }

  /** `set_last_error`. */
  function SetLastError(m: Metrics, msg: string): (r: Metrics)
    ensures LastError(r) == msg
    ensures r.totalMessages == m.totalMessages && r.replayErrors == m.replayErrors && r.latencies == m.latencies
  {
    m.(lastError := msg)
  }

  /** `last_error`. */
  function LastError(m: Metrics): string {
    m.lastError
  }

  /** What a caught replay exception does: one more replay error, and its text
      becomes the last error. */
  function RecordReplayError(m: Metrics, what: string): (r: Metrics)
    ensures r.replayErrors == m.replayErrors + 1 && LastError(r) == what
    ensures r.totalMessages == m.totalMessages && r.latencies == m.latencies
  {
    SetLastError(m.(replayErrors := m.replayErrors + 1), what)
  }

  // ---------------------------------------------------------------------------
  // Sorting a copy of the samples (`std::sort` on ascending values)

  predicate Ascending(s: seq<int>) {
    forall i, j :: 0 <= i < j < |s| ==> s[i] <= s[j]
  }

  function Insert(x: int, s: seq<int>): (r: seq<int>)
    requires Ascending(s)
    ensures Ascending(r)
    ensures multiset(r) == multiset(s) + multiset{x}
    ensures |r| == |s| + 1
    ensures r[0] == if |s| == 0 || x <= s[0] then x else s[0]
  {
    if |s| == 0 || x <= s[0] then [x] + s
    else
      var rest := Insert(x, s[1..]);
      assert s == [s[0]] + s[1..];
      [s[0]] + rest
  }

  function Sort(s: seq<int>): (r: seq<int>)
    ensures Ascending(r)
    ensures multiset(r) == multiset(s)
    ensures |r| == |s|
  {
    if |s| == 0 then []
    else
      assert s == [s[0]] + s[1..];
      Insert(s[0], Sort(s[1..]))
  }

  // ---------------------------------------------------------------------------
  // Rank of a value among the samples

  /** How many samples are strictly below `v`. */
  function CountLess(s: seq<int>, v: int): nat {
    if |s| == 0 then 0 else (if s[0] < v then 1 else 0) + CountLess(s[1..], v)
  }

  /** `r` is the `k`-th smallest sample (0-based): at most `k` samples lie below
      it and more than `k` lie at or below it. */
  ghost predicate IsKthSmallest(s: seq<int>, k: nat, r: int) {
    CountLess(s, r) <= k < CountLess(s, r + 1)
  }

  lemma {:induction false} CountConcat(a: seq<int>, c: seq<int>, v: int)
    ensures CountLess(a + c, v) == CountLess(a, v) + CountLess(c, v)
  {
    if |a| > 0 {
      assert (a + c)[1..] == a[1..] + c;
      CountConcat(a[1..], c, v);
    } else {
      assert a + c == c;
    }
  }

  /** Removing one sample lowers the count by one exactly when it lies below `v`. */
  lemma {:induction false} CountDelete(t: seq<int>, j: nat, v: int)
    requires j < |t|
    ensures CountLess(t, v) == CountLess(Delete(t, j), v) + (if t[j] < v then 1 else 0)
  {
    if j > 0 {
      CountDelete(t[1..], j - 1, v);
      assert Delete(t, j) == [t[0]] + Delete(t[1..], j - 1);
      assert Delete(t, j)[1..] == Delete(t[1..], j - 1);
    } else {
      assert Delete(t, j) == t[1..];
    }
  }

  /** The rank of a value depends only on the multiset of samples. */
  lemma {:induction false} CountPermutation(s: seq<int>, t: seq<int>, v: int)
    requires multiset(s) == multiset(t)
    ensures CountLess(s, v) == CountLess(t, v)
    decreases |s|
  {
    if |s| > 0 {
      assert s[0] in multiset(t);
      var j :| 0 <= j < |t| && t[j] == s[0];
      assert s == [s[0]] + s[1..];
      DeleteMultiset(t, j);
      CountPermutation(s[1..], Delete(t, j), v);
      CountDelete(t, j, v);
    } else {
      assert |t| == |multiset(t)|;
    }
  }

  lemma {:induction false} CountBounded(s: seq<int>, v: int)
    ensures CountLess(s, v) <= |s|
  {
    if |s| > 0 {
      CountBounded(s[1..], v);
    }
  }

  lemma {:induction false} CountAllBelow(s: seq<int>, v: int)
    requires forall i :: 0 <= i < |s| ==> s[i] < v
    ensures CountLess(s, v) == |s|
  {
    if |s| > 0 {
      CountAllBelow(s[1..], v);
    }
  }

  lemma {:induction false} CountNoneBelow(s: seq<int>, v: int)
    requires forall i :: 0 <= i < |s| ==> s[i] >= v
    ensures CountLess(s, v) == 0
  {
    if |s| > 0 {
      CountNoneBelow(s[1..], v);
    }
  }

  /** In an ascending sequence the element at index `k` is the `k`-th smallest. */
  lemma SortedKth(t: seq<int>, k: nat)
    requires Ascending(t) && k < |t|
    ensures IsKthSmallest(t, k, t[k])
  {
    assert t == t[..k] + t[k..];
    assert t == t[..k + 1] + t[k + 1..];
    CountConcat(t[..k], t[k..], t[k]);
    CountBounded(t[..k], t[k]);
    CountNoneBelow(t[k..], t[k]);
    CountConcat(t[..k + 1], t[k + 1..], t[k] + 1);
    CountAllBelow(t[..k + 1], t[k] + 1);
  }

  /** Sorts a copy and reads index `k`: the `k`-th smallest recorded sample. */
  function Select(s: seq<int>, k: nat): (r: int)
    requires k < |s|
    ensures r in s
    ensures IsKthSmallest(s, k, r)
  {
    var t := Sort(s);
    SortedKth(t, k);
    CountPermutation(s, t, t[k]);
    CountPermutation(s, t, t[k] + 1);
    assert t[k] in multiset(s);
    t[k]
  }

  /** The index read for the 95th and 99th percentiles, clamped to the last sample. */
  function ClampedIndex(n: nat, pct: nat): (i: nat)
    requires n > 0
    ensures i < n
    ensures pct < 100 ==> i == n * pct / 100
  {
    var idx := n * pct / 100;
    if idx >= n then n - 1 else idx
  }

  /** `p50`: 0 with no samples, otherwise the sample of rank n/2. */
  function P50(m: Metrics): (r: int)
    ensures |m.latencies| == 0 ==> r == 0
    ensures |m.latencies| > 0 ==> r in m.latencies && IsKthSmallest(m.latencies, |m.latencies| / 2, r)
  {
    if |m.latencies| == 0 then 0 else Select(m.latencies, |m.latencies| / 2)
  }

  /** `p95`: 0 with no samples, otherwise the sample of rank floor(n * 95 / 100). */
  function P95(m: Metrics): (r: int)
    ensures |m.latencies| == 0 ==> r == 0
    ensures |m.latencies| > 0 ==> r in m.latencies && IsKthSmallest(m.latencies, |m.latencies| * 95 / 100, r)
  {
    if |m.latencies| == 0 then 0 else Select(m.latencies, ClampedIndex(|m.latencies|, 95))
  }

  /** `p99`: 0 with no samples, otherwise the sample of rank floor(n * 99 / 100). */
  function P99(m: Metrics): (r: int)
    ensures |m.latencies| == 0 ==> r == 0
    ensures |m.latencies| > 0 ==> r in m.latencies && IsKthSmallest(m.latencies, |m.latencies| * 99 / 100, r)
  {
    if |m.latencies| == 0 then 0 else Select(m.latencies, ClampedIndex(|m.latencies|, 99))
  }

  /** The `k`-th smallest sample is unique, so the selection does not depend on
      how the sort orders equal samples or on the order they were recorded in. */
  lemma KthSmallestUnique(s: seq<int>, k: nat, r1: int, r2: int)
    requires IsKthSmallest(s, k, r1) && IsKthSmallest(s, k, r2)
    ensures r1 == r2
  {
    if r1 < r2 {
      CountMonotone(s, r1 + 1, r2);
    } else if r2 < r1 {
      CountMonotone(s, r2 + 1, r1);
    }
  }

  lemma {:induction false} CountMonotone(s: seq<int>, v: int, w: int)
    requires v <= w
    ensures CountLess(s, v) <= CountLess(s, w)
  {
    if |s| > 0 {
      CountMonotone(s[1..], v, w);
    }
  }

  /** The percentiles are ordered: p50 <= p95 <= p99. */
  lemma PercentilesOrdered(m: Metrics)
    ensures P50(m) <= P95(m) <= P99(m)
  {
    var n := |m.latencies|;
    if n > 0 {
      assert n / 2 <= n * 95 / 100 <= n * 99 / 100;
      RankOrder(m.latencies, n / 2, n * 95 / 100, P50(m), P95(m));
      RankOrder(m.latencies, n * 95 / 100, n * 99 / 100, P95(m), P99(m));
    }
  }

  /** A lower rank never selects a larger sample. */
  lemma RankOrder(s: seq<int>, k1: nat, k2: nat, r1: int, r2: int)
    requires k1 <= k2 && IsKthSmallest(s, k1, r1) && IsKthSmallest(s, k2, r2)
    ensures r1 <= r2
  {
    if r2 < r1 {
      CountMonotone(s, r2 + 1, r1);
    }
  }
}
