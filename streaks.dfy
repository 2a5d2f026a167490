/**
 * Recomputing a user's study streaks from the days on which sessions were
 * completed (`computeStreaksFromDates` in lib/queries.ts). Days are day
 * numbers (see module Calendar): the source's date strings are distinct
 * exactly when their days are, and `sort()` orders them as their days.
 */
module Streaks {
  import opened Js

  /** Strictly increasing: sorted and free of duplicates. */
  predicate Increasing(s: seq<int>) {
    forall i, j :: 0 <= i < j < |s| ==> s[i] < s[j]
  }

  /** Puts `x` in its place in the sequence `s`, unless it is there already. */
  function Insert(s: seq<int>, x: int): seq<int> {
    if s == [] then [x]
    else if x < s[0] then [x] + s
    else if x == s[0] then s
    else [s[0]] + Insert(s[1..], x)
  }

  /** `[...new Set(dates)].sort()` */
  function SortedDistinct(dates: seq<int>): seq<int> {
    if dates == [] then [] else Insert(SortedDistinct(dates[..|dates| - 1]), dates[|dates| - 1])
  }

  lemma {:induction false} InsertSpec(s: seq<int>, x: int)
    requires Increasing(s)
    ensures Increasing(Insert(s, x))
    ensures forall y :: y in Insert(s, x) <==> y in s || y == x
  {
    if s != [] && x > s[0] {
      var t := Insert(s[1..], x);
      InsertSpec(s[1..], x);
      forall k | 0 <= k < |t|
        ensures s[0] < t[k]
      {
        assert t[k] in t;
      }
    }
  }

  /** The sorted days are strictly increasing and are exactly the given days. */
  lemma {:induction false} SortedDistinctSpec(dates: seq<int>)
    ensures Increasing(SortedDistinct(dates))
    ensures forall y :: y in SortedDistinct(dates) <==> y in dates
    ensures forall k :: 0 <= k < |dates| ==> dates[k] in SortedDistinct(dates)
  {
    if dates != [] {
      var init := dates[..|dates| - 1];
      SortedDistinctSpec(init);
      InsertSpec(SortedDistinct(init), dates[|dates| - 1]);
      assert dates == init + [dates[|dates| - 1]];
    }
  }

  /** An increasing sequence is determined by its elements. */
  lemma {:induction false} IncreasingUnique(a: seq<int>, b: seq<int>)
    requires Increasing(a) && Increasing(b)
    requires forall y :: y in a <==> y in b
    ensures a == b
  {
    assert a != [] ==> a[0] in a && a[0] in b;
    assert b != [] ==> b[0] in b && b[0] in a;
    if a != [] && b != [] {
      var k :| 0 <= k < |b| && b[k] == a[0];
      var k' :| 0 <= k' < |a| && a[k'] == b[0];
      assert b[0] <= a[0] && a[0] <= b[0];
      forall y
        ensures y in a[1..] <==> y in b[1..]
      {
        if y in a[1..] {
          assert y in b && y != b[0];
        }
        if y in b[1..] {
          assert y in a && y != a[0];
        }
      }
      IncreasingUnique(a[1..], b[1..]);
      assert a == [a[0]] + a[1..] && b == [b[0]] + b[1..];
    }
  }

  /**
   * The recomputation depends only on the set of days: listing the days in
   * another order, or repeating some of them, gives the same sorted days.
   */
  lemma {:induction false} SortedDistinctDependsOnSetOnly(d1: seq<int>, d2: seq<int>)
    requires forall y :: y in d1 <==> y in d2
    ensures SortedDistinct(d1) == SortedDistinct(d2)
  {
    SortedDistinctSpec(d1);
    SortedDistinctSpec(d2);
    IncreasingUnique(SortedDistinct(d1), SortedDistinct(d2));
  }

  /** A new day later than every known day goes at the end. */
  lemma {:induction false} SortedDistinctAppendLater(dates: seq<int>, t: int)
    requires forall y :: y in dates ==> y < t
    ensures SortedDistinct(dates + [t]) == SortedDistinct(dates) + [t]
  {
    var s := SortedDistinct(dates);
    SortedDistinctSpec(dates);
    SortedDistinctSpec(dates + [t]);
    assert Increasing(s + [t]) by {
      forall i, j | 0 <= i < j < |s + [t]|
        ensures (s + [t])[i] < (s + [t])[j]
      {
        assert (s + [t])[i] == s[i];
        if j < |s| {
          assert (s + [t])[j] == s[j];
        } else {
          assert s[i] in dates;
        }
      }
    }
    IncreasingUnique(SortedDistinct(dates + [t]), s + [t]);
  }

  /** A day that is already known changes nothing. */
  lemma {:induction false} SortedDistinctAppendKnown(dates: seq<int>, t: int)
    requires t in dates
    ensures SortedDistinct(dates + [t]) == SortedDistinct(dates)
  {
    SortedDistinctDependsOnSetOnly(dates + [t], dates);
  }

  /** The last of the sorted days is the latest day. */
  lemma {:induction false} SortedDistinctLast(dates: seq<int>)
    requires dates != []
    ensures var s := SortedDistinct(dates);
            s != [] && s[|s| - 1] in dates && forall y :: y in dates ==> y <= s[|s| - 1]
  {
    var s := SortedDistinct(dates);
    SortedDistinctSpec(dates);
    assert dates[0] in s;
    forall y | y in dates
      ensures y <= s[|s| - 1]
    {
      var i :| 0 <= i < |s| && s[i] == y;
    }
  }

  /** `s[i..j]` is a run of days each exactly one after the previous. */
  ghost predicate IsRun(s: seq<int>, i: int, j: int) {
    0 <= i < j <= |s| && forall k :: i <= k < j - 1 ==> s[k + 1] == s[k] + 1
  }

  /** The length of the run of consecutive days that ends at `s[n - 1]`. */
  function TrailingRun(s: seq<int>, n: nat): (r: nat)
    requires n <= |s|
    ensures n == 0 ==> r == 0
    ensures n > 0 ==> 1 <= r <= n
  {
    if n <= 1 then n
    else if s[n - 1] == s[n - 2] + 1 then TrailingRun(s, n - 1) + 1
    else 1
  }

  /** The length of the longest run of consecutive days among the first `n`. */
  function LongestRun(s: seq<int>, n: nat): (r: nat)
    requires n <= |s|
    ensures TrailingRun(s, n) <= r <= n
  {
    if n == 0 then 0 else Max(LongestRun(s, n - 1), TrailingRun(s, n))
  }

  /**
   * Walking back from `s[n - 1]`: if every step back to index `k` is exactly
   * one day and the step before `k` is not (or there is none), the trailing
   * run starts at `k`.
   */
  lemma {:induction false} TrailingRunStartsAt(s: seq<int>, n: nat, k: int)
    requires 0 <= k < n <= |s|
    requires forall m :: k <= m < n - 1 ==> s[m + 1] == s[m] + 1
    requires k == 0 || s[k] != s[k - 1] + 1
    ensures TrailingRun(s, n) == n - k
  {
    if k < n - 1 {
      assert s[n - 1] == s[n - 2] + 1;
      TrailingRunStartsAt(s, n - 1, k);
    }
  }

  /** The trailing run is a run, and no run ending at `s[n - 1]` is longer. */
  lemma {:induction false} TrailingRunIsLongestAtEnd(s: seq<int>, n: nat, i: int)
    requires 0 < n <= |s|
    ensures IsRun(s, n - TrailingRun(s, n), n)
    ensures IsRun(s, i, n) ==> n - i <= TrailingRun(s, n)
  {
    if n > 1 && s[n - 1] == s[n - 2] + 1 {
      TrailingRunIsLongestAtEnd(s, n - 1, i);
      if IsRun(s, i, n) && i < n - 1 {
        assert IsRun(s, i, n - 1);
      }
    }
  }

  /** No run among the first `n` days is longer than `LongestRun`. */
  lemma {:induction false} LongestRunIsUpperBound(s: seq<int>, n: nat, i: int, j: int)
    requires n <= |s|
    requires IsRun(s, i, j) && j <= n
    ensures j - i <= LongestRun(s, n)
  {
    if j == n {
      TrailingRunIsLongestAtEnd(s, n, i);
    } else {
      LongestRunIsUpperBound(s, n - 1, i, j);
    }
  }

  /** Some run among the first `n` days is exactly `LongestRun` days long. */
  lemma {:induction false} LongestRunIsAttained(s: seq<int>, n: nat) returns (i: int, j: int)
    requires 0 < n <= |s|
    ensures IsRun(s, i, j) && j <= n && j - i == LongestRun(s, n)
  {
    if n == 1 || LongestRun(s, n - 1) <= TrailingRun(s, n) {
      TrailingRunIsLongestAtEnd(s, n, 0);
      i, j := n - TrailingRun(s, n), n;
    } else {
      i, j := LongestRunIsAttained(s, n - 1);
    }
  }

  /** The runs among the first `n` days do not depend on the days after them. */
  lemma {:induction false} RunsOfPrefix(s: seq<int>, t: seq<int>, n: nat)
    requires n <= |s| && n <= |t| && s[..n] == t[..n]
    ensures TrailingRun(s, n) == TrailingRun(t, n)
    ensures LongestRun(s, n) == LongestRun(t, n)
  {
    if n > 0 {
      assert s[..n - 1] == t[..n - 1];
      assert n > 1 ==> s[n - 1] == t[n - 1] && s[n - 2] == t[n - 2] by {
        if n > 1 {
          assert s[n - 1] == s[..n][n - 1] && s[n - 2] == s[..n][n - 2];
          assert t[n - 1] == t[..n][n - 1] && t[n - 2] == t[..n][n - 2];
        }
      }
      RunsOfPrefix(s, t, n - 1);
    }
  }

  /**
   * `computeStreaksFromDates`: sorts the distinct days, then scans forwards
   * for the longest run and backwards from the last day for the current run.
   */
  method ComputeStreaksFromDates(dates: seq<int>) returns (current: nat, longest: nat)
    ensures var sorted := SortedDistinct(dates);
            current == TrailingRun(sorted, |sorted|) && longest == LongestRun(sorted, |sorted|)
  {
    var sorted := SortedDistinct(dates);
    if |sorted| == 0 {
      return 0, 0;
    }
    longest := 1;
    var run := 1;
    for i := 1 to |sorted|
      invariant run == TrailingRun(sorted, i)
      invariant longest == LongestRun(sorted, i)
    {
      var gap := sorted[i] - sorted[i - 1];
      if gap == 1 {
        run := run + 1;
        longest := Max(longest, run);
      } else {
        run := 1;
      }
    }
    run := 1;
    var i := |sorted| - 2;
    while i >= 0
      invariant -1 <= i <= |sorted| - 2
      invariant run == |sorted| - 1 - i
      invariant forall m :: i + 1 <= m < |sorted| - 1 ==> sorted[m + 1] == sorted[m] + 1
    {
      if sorted[i + 1] - sorted[i] == 1 {
        run := run + 1;
      } else {
        TrailingRunStartsAt(sorted, |sorted|, i + 1);
        break;
      }
      i := i - 1;
    }
    if i < 0 {
      TrailingRunStartsAt(sorted, |sorted|, 0);
    }
    current := run;
  }

  /** The current streak of a list of days, as the recomputation defines it. */
  function CurrentStreak(dates: seq<int>): nat {
    var s := SortedDistinct(dates);
    TrailingRun(s, |s|)
  }

  /** The longest streak of a list of days, as the recomputation defines it. */
  function LongestStreak(dates: seq<int>): nat {
    var s := SortedDistinct(dates);
    LongestRun(s, |s|)
  }

  /**
   * No days give `{current: 0, longest: 0}`; otherwise
   * 1 <= current <= longest <= the number of distinct days.
   */
  lemma {:induction false} StreakBounds(dates: seq<int>)
    ensures dates == [] ==> CurrentStreak(dates) == 0 && LongestStreak(dates) == 0
    ensures dates != [] ==> 1 <= CurrentStreak(dates) <= LongestStreak(dates) <= |SortedDistinct(dates)|
  {
    if dates != [] {
      SortedDistinctSpec(dates);
      assert dates[0] in SortedDistinct(dates);
    }
  }

  /** The result depends only on which days occur, not on their order or repetition. */
  lemma StreaksIgnoreOrderAndRepeats(d1: seq<int>, d2: seq<int>)
    requires forall y :: y in d1 <==> y in d2
    ensures CurrentStreak(d1) == CurrentStreak(d2)
    ensures LongestStreak(d1) == LongestStreak(d2)
  {
    SortedDistinctDependsOnSetOnly(d1, d2);
  }

  /** In particular a permutation of the days gives the same streaks. */
  lemma StreaksIgnorePermutation(d1: seq<int>, d2: seq<int>)
    requires multiset(d1) == multiset(d2)
    ensures CurrentStreak(d1) == CurrentStreak(d2)
    ensures LongestStreak(d1) == LongestStreak(d2)
  {
    forall y
      ensures y in d1 <==> y in d2
    {
      assert y in d1 <==> y in multiset(d1);
      assert y in d2 <==> y in multiset(d2);
    }
    StreaksIgnoreOrderAndRepeats(d1, d2);
  }

  /**
   * `longest` is the length of the longest run of consecutive days among the
   * sorted distinct days: some run is that long and none is longer.
   */
  lemma {:induction false} LongestStreakIsLongestRun(dates: seq<int>, i: int, j: int)
    requires dates != []
    ensures var s := SortedDistinct(dates);
            (exists i', j' :: IsRun(s, i', j') && j' - i' == LongestStreak(dates))
            && (IsRun(s, i, j) ==> j - i <= LongestStreak(dates))
  {
    StreakBounds(dates);
    var s := SortedDistinct(dates);
    var i', j' := LongestRunIsAttained(s, |s|);
    if IsRun(s, i, j) {
      LongestRunIsUpperBound(s, |s|, i, j);
    }
  }

  /**
   * `current` is the run that ends at the latest day and nothing else: it
   * does not look at today, so a run that ended long ago still counts.
   */
  lemma {:induction false} CurrentStreakIsRunEndingAtLatest(dates: seq<int>, i: int)
    requires dates != []
    ensures var s := SortedDistinct(dates);
            IsRun(s, |s| - CurrentStreak(dates), |s|)
            && (IsRun(s, i, |s|) ==> |s| - i <= CurrentStreak(dates))
  {
    StreakBounds(dates);
    var s := SortedDistinct(dates);
    TrailingRunIsLongestAtEnd(s, |s|, i);
  }
}
