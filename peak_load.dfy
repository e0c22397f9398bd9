/**
 * The peak-load query over the operation log: the specification that
 * getPeakLoad computes, and its relation to the plain "largest number of
 * logged operations inside one window" when the log is in time order.
 */
module PeakLoads {

  /** Timestamps that never decrease along the log: each is no later than the next. */
  ghost predicate NonDecreasing(log: seq<int>)
  {
    |log| < 2 || (log[0] <= log[1] && NonDecreasing(log[1..]))
  }

  /** In a log in time order, every entry is no later than any entry after it. */
  lemma {:induction false} NonDecreasingPairs(log: seq<int>)
    requires NonDecreasing(log)
    ensures forall i, j | 0 <= i <= j < |log| :: log[i] <= log[j]
  {
    if |log| >= 2 {
      NonDecreasingPairs(log[1..]);
      forall i, j | 0 <= i <= j < |log| ensures log[i] <= log[j] {
        if 0 < i { assert log[i] == log[1..][i - 1]; }
        if 0 < j { assert log[j] == log[1..][j - 1]; }
      }
    }
  }

  /** Logging a time no earlier than the last keeps the log in time order. */
  lemma {:induction false} AppendKeepsNonDecreasing(log: seq<int>, t: int)
    requires NonDecreasing(log) && (log != [] ==> log[|log| - 1] <= t)
    ensures NonDecreasing(log + [t])
  {
    if |log| >= 2 {
      AppendKeepsNonDecreasing(log[1..], t);
      assert (log + [t])[1..] == log[1..] + [t];
    }
  }

  function Max(a: int, b: int): int { if a < b then b else a }

  /**
   * The number of consecutive entries, starting at position k, that lie no
   * more than w after `anchor`; the scan stops at the first that does not.
   */
  function RunFrom(log: seq<int>, anchor: int, k: nat, w: int): (n: nat)
    requires k <= |log|
    ensures n <= |log| - k
    decreases |log| - k
  {
    if k < |log| && log[k] - anchor <= w then 1 + RunFrom(log, anchor, k + 1, w) else 0
  }

  /** The run covers entries within w of the anchor, and the entry after it (if any) is not. */
  lemma {:induction false} RunFromIsMaximal(log: seq<int>, anchor: int, k: nat, w: int)
    requires k <= |log|
    ensures var n := RunFrom(log, anchor, k, w);
            && (forall j | k <= j < k + n :: log[j] - anchor <= w)
            && (k + n < |log| ==> log[k + n] - anchor > w)
    decreases |log| - k
  {
    if k < |log| && log[k] - anchor <= w {
      RunFromIsMaximal(log, anchor, k + 1, w);
    }
  }

  /** The run of later entries within w of the entry at position i. */
  function Run(log: seq<int>, i: nat, w: int): nat
    requires i < |log|
  {
    RunFrom(log, log[i], i + 1, w)
  }

  /** The best count, 1 plus a run, over the anchors at positions below n; at least 1. */
  function MaxLoad(log: seq<int>, w: int, n: nat): (m: int)
    requires n <= |log|
    ensures 1 <= m
    ensures |log| > 0 ==> m <= |log|
  {
    if n == 0 then 1 else Max(MaxLoad(log, w, n - 1), 1 + Run(log, n - 1, w))
  }

  /**
   * getPeakLoad: 1 for a log of fewer than two entries; otherwise the best
   * count over every anchor but the last (whose run is empty anyway).
   */
  function PeakLoad(log: seq<int>, w: int): (p: int)
    ensures 1 <= p
    ensures |log| < 2 ==> p == 1
    ensures |log| > 0 ==> p <= |log|
  {
    if |log| < 2 then 1 else MaxLoad(log, w, |log| - 1)
  }

  /** MaxLoad is the maximum over its anchors, and one of them attains it. */
  lemma {:induction false} MaxLoadIsMaximum(log: seq<int>, w: int, n: nat)
    requires 0 < n <= |log|
    ensures forall i | 0 <= i < n :: 1 + Run(log, i, w) <= MaxLoad(log, w, n)
    ensures exists i | 0 <= i < n :: MaxLoad(log, w, n) == 1 + Run(log, i, w)
  {
    if n > 1 {
      MaxLoadIsMaximum(log, w, n - 1);
      var m := MaxLoad(log, w, n);
      assert m == Max(MaxLoad(log, w, n - 1), 1 + Run(log, n - 1, w));
      forall i | 0 <= i < n ensures 1 + Run(log, i, w) <= m {
      }
      var i :| 0 <= i < n - 1 && MaxLoad(log, w, n - 1) == 1 + Run(log, i, w);
      if m != 1 + Run(log, n - 1, w) {
        assert m == 1 + Run(log, i, w);
      }
    }
  }

  /**
   * The peak load is 1 plus the longest run after any anchor in the log,
   * and some anchor attains it.
   */
  lemma PeakLoadIsLongestRun(log: seq<int>, w: int)
    requires |log| > 0
    ensures forall i | 0 <= i < |log| :: 1 + Run(log, i, w) <= PeakLoad(log, w)
    ensures exists i | 0 <= i < |log| :: PeakLoad(log, w) == 1 + Run(log, i, w)
  {
    var n := |log|;
    if n == 1 {
      assert PeakLoad(log, w) == 1 + Run(log, 0, w);
    } else {
      MaxLoadIsMaximum(log, w, n - 1);
      assert Run(log, n - 1, w) == 0;
    }
  }

  /** The number of entries at positions a .. b-1 whose timestamp lies in [lo, hi]. */
  function CountBetween(log: seq<int>, lo: int, hi: int, a: nat, b: nat): nat
    requires a <= b <= |log|
    decreases b - a
  {
    if a == b then 0
    else (if lo <= log[a] <= hi then 1 else 0) + CountBetween(log, lo, hi, a + 1, b)
  }

  /** The number of logged operations in the window [anchor, anchor + w]. */
  function WindowCount(log: seq<int>, anchor: int, w: int): nat
  {
    CountBetween(log, anchor, anchor + w, 0, |log|)
  }

  lemma {:induction false} CountBetweenSplit(log: seq<int>, lo: int, hi: int, a: nat, m: nat, b: nat)
    requires a <= m <= b <= |log|
    ensures CountBetween(log, lo, hi, a, b) == CountBetween(log, lo, hi, a, m) + CountBetween(log, lo, hi, m, b)
    decreases m - a
  {
    if a < m {
      CountBetweenSplit(log, lo, hi, a + 1, m, b);
    }
  }

  lemma {:induction false} CountBetweenAllIn(log: seq<int>, lo: int, hi: int, a: nat, b: nat)
    requires a <= b <= |log|
    requires forall k | a <= k < b :: lo <= log[k] <= hi
    ensures CountBetween(log, lo, hi, a, b) == b - a
    decreases b - a
  {
    if a < b {
      CountBetweenAllIn(log, lo, hi, a + 1, b);
    }
  }

  lemma {:induction false} CountBetweenNoneIn(log: seq<int>, lo: int, hi: int, a: nat, b: nat)
    requires a <= b <= |log|
    requires forall k | a <= k < b :: !(lo <= log[k] <= hi)
    ensures CountBetween(log, lo, hi, a, b) == 0
    decreases b - a
  {
    if a < b {
      CountBetweenNoneIn(log, lo, hi, a + 1, b);
    }
  }

  /** The first position holding the same timestamp as position i. */
  function FirstWithSameTime(log: seq<int>, i: nat): (i0: nat)
    requires NonDecreasing(log) && i < |log|
    ensures i0 <= i && log[i0] == log[i]
    ensures i0 == 0 || log[i0 - 1] < log[i0]
  {
    if i == 0 || log[i - 1] < log[i] then i
    else
      NonDecreasingPairs(log);
      FirstWithSameTime(log, i - 1)
  }

  /**
   * In a log in time order, the window anchored at the first occurrence of a
   * timestamp holds exactly that entry and the run after it.
   */
  lemma WindowCountAtFirstOccurrence(log: seq<int>, w: int, i0: nat)
    requires NonDecreasing(log) && w >= 0
    requires i0 < |log| && (i0 == 0 || log[i0 - 1] < log[i0])
    ensures WindowCount(log, log[i0], w) == 1 + Run(log, i0, w)
  {
    NonDecreasingPairs(log);
    var lo, hi := log[i0], log[i0] + w;
    var e := i0 + 1 + Run(log, i0, w);
    RunFromIsMaximal(log, lo, i0 + 1, w);
    CountBetweenSplit(log, lo, hi, 0, i0, |log|);
    CountBetweenSplit(log, lo, hi, i0, e, |log|);
    forall k | 0 <= k < i0 ensures !(lo <= log[k] <= hi) {
      assert log[k] <= log[i0 - 1];
    }
    CountBetweenNoneIn(log, lo, hi, 0, i0);
    forall k | i0 <= k < e ensures lo <= log[k] <= hi {
      if k > i0 { assert log[i0] <= log[k]; }
    }
    CountBetweenAllIn(log, lo, hi, i0, e);
    forall k | e <= k < |log| ensures !(lo <= log[k] <= hi) {
      assert log[e] <= log[k];
    }
    CountBetweenNoneIn(log, lo, hi, e, |log|);
  }

  /** Two equal neighbouring timestamps: the earlier one's run is one longer. */
  lemma RunOfEqualNeighbours(log: seq<int>, w: int, i: nat)
    requires w >= 0 && i + 1 < |log| && log[i] == log[i + 1]
    ensures Run(log, i, w) == 1 + Run(log, i + 1, w)
  {
  }

  /**
   * For a log in time order and a window of non-negative length, the peak
   * load is the largest number of logged operations that fall in a window
   * [t, t + w] anchored at a logged timestamp t.
   */
  lemma PeakLoadIsLargestWindowCount(log: seq<int>, w: int)
    requires NonDecreasing(log) && w >= 0 && |log| > 0
    ensures forall i | 0 <= i < |log| :: WindowCount(log, log[i], w) <= PeakLoad(log, w)
    ensures exists i | 0 <= i < |log| :: WindowCount(log, log[i], w) == PeakLoad(log, w)
  {
    NonDecreasingPairs(log);
    PeakLoadIsLongestRun(log, w);
    forall i | 0 <= i < |log| ensures WindowCount(log, log[i], w) <= PeakLoad(log, w) {
      var i0 := FirstWithSameTime(log, i);
      WindowCountAtFirstOccurrence(log, w, i0);
    }
    var best :| 0 <= best < |log| && PeakLoad(log, w) == 1 + Run(log, best, w);
    if best > 0 && log[best - 1] == log[best] {
      RunOfEqualNeighbours(log, w, best - 1);
      assert false;
    }
    WindowCountAtFirstOccurrence(log, w, best);
  }

  /** When every logged operation falls within one window, the peak load counts them all. */
  lemma PeakLoadOfOneBurst(log: seq<int>, w: int)
    requires NonDecreasing(log) && |log| > 0
    requires log[|log| - 1] - log[0] <= w
    ensures PeakLoad(log, w) == |log|
  {
    NonDecreasingPairs(log);
    PeakLoadIsLongestRun(log, w);
    RunFromIsMaximal(log, log[0], 1, w);
    assert Run(log, 0, w) == |log| - 1;
  }

  /** Operations logged at offsets 0, 5, 5 and 20 ms. */
  lemma PeakLoadExample()
    ensures PeakLoad([0, 5, 5, 20], 5) == 3
    ensures PeakLoad([0, 5, 5, 20], 1) == 2
  {
    var log := [0, 5, 5, 20];
    assert Run(log, 0, 5) == 2 && Run(log, 1, 5) == 1 && Run(log, 2, 5) == 0;
    assert Run(log, 0, 1) == 0 && Run(log, 1, 1) == 1 && Run(log, 2, 1) == 0;
  }
}
