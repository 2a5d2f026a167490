/**
 * The per-user statistics record and the reducer that updates it when a
 * study session is completed: totals, the current and longest streak and
 * the day of the last session. The database table is a map from user id to
 * record held by `StatsStore`; the read-modify-write of one completion is
 * its method `UpsertUserStatsForCompletion`.
 */
module UserStats {
  import opened Js
  import opened Calendar
  import opened Streaks

  /** One row of the `userStats` table. `lastSessionDate` is a day number. */
  datatype StatsRow = StatsRow(
    totalStudyTime: int,
    totalSessions: int,
    currentStreak: int,
    longestStreak: int,
    lastSessionDate: Option<int>)

  /** What a missing row reads as: every `existing?.field ?? 0` gives 0 and there is no last day. */
  const NoStats := StatsRow(0, 0, 0, 0, None)

  /**
   * The override is honoured only when it looks like a date; a string of
   * that shape must also name a real day (`2024-13-45` is excluded).
   */
  predicate OverrideIsUsable(completedDateStr: Option<string>) {
    completedDateStr.Some? && IsDateShape(completedDateStr.value)
  }

  predicate OverrideIsReal(completedDateStr: Option<string>) {
    OverrideIsUsable(completedDateStr) ==> IsCalendarDate(completedDateStr.value)
  }

  /**
   * The day the completion is booked on: the client's `YYYY-MM-DD` when
   * given and of that shape (the empty string fails the pattern as well as
   * the truthiness test), otherwise the server's current UTC day.
   */
  function EffectiveDay(completedDateStr: Option<string>, serverToday: int): (day: int)
    requires OverrideIsReal(completedDateStr)
    ensures OverrideIsUsable(completedDateStr) ==>
              day == DayNumber(YearOf(completedDateStr.value), MonthOf(completedDateStr.value), DayOf(completedDateStr.value))
    ensures !OverrideIsUsable(completedDateStr) ==> day == serverToday
  {
    if completedDateStr.Some? && completedDateStr.value != "" && IsDateShape(completedDateStr.value)
    then ParseDay(completedDateStr.value)
    else serverToday
  }

  /** The new current streak, from the previous row and the day of the completion. */
  function NextStreak(prev: StatsRow, day: int): int {
    match prev.lastSessionDate
    case None => 1
    case Some(last) =>
      var daysDiff := day - last;
      if daysDiff == 0 then prev.currentStreak
      else if daysDiff == 1 then prev.currentStreak + 1
      else 1
  }

  /** The row written for a completion on `day` lasting `durationMinutes`; create and update write the same. */
  function CompletedStats(existing: Option<StatsRow>, day: int, durationMinutes: int): StatsRow {
    var prev := existing.GetOr(NoStats);
    var newStreak := NextStreak(prev, day);
    StatsRow(
      prev.totalStudyTime + durationMinutes,
      prev.totalSessions + 1,
      newStreak,
      Max(prev.longestStreak, newStreak),
      Some(day))
  }

  /**
   * The streak transition: the first completion starts a streak of 1, a
   * second completion on the same day keeps it, the next day extends it by
   * one, and any other day, a backdated one included, restarts it at 1.
   */
  lemma StreakTransition(existing: Option<StatsRow>, day: int, durationMinutes: int)
    ensures var r := CompletedStats(existing, day, durationMinutes);
            var prev := existing.GetOr(NoStats);
            && (prev.lastSessionDate.None? ==> r.currentStreak == 1)
            && (prev.lastSessionDate == Some(day) ==> r.currentStreak == prev.currentStreak)
            && (prev.lastSessionDate == Some(day - 1) ==> r.currentStreak == prev.currentStreak + 1)
            && ((prev.lastSessionDate.Some? && day != prev.lastSessionDate.value
                 && day != prev.lastSessionDate.value + 1) ==> r.currentStreak == 1)
  {
  }

  /**
   * A missing row counts as all zero; afterwards the session count is one
   * more, the study time grows by the duration (negative durations are not
   * refused), the longest streak is the larger of the old longest and the new
   * current streak, and the last session is the day of the completion.
   */
  lemma CompletionTotals(existing: Option<StatsRow>, day: int, durationMinutes: int)
    ensures var r := CompletedStats(existing, day, durationMinutes);
            var prevSessions := if existing.Some? then existing.value.totalSessions else 0;
            var prevTime := if existing.Some? then existing.value.totalStudyTime else 0;
            var prevLongest := if existing.Some? then existing.value.longestStreak else 0;
            && r.totalSessions == prevSessions + 1
            && r.totalStudyTime == prevTime + durationMinutes
            && r.longestStreak >= prevLongest && r.longestStreak >= r.currentStreak
            && (r.longestStreak == prevLongest || r.longestStreak == r.currentStreak)
            && r.lastSessionDate == Some(day)
  {
  }

  /** The invariant every row written by the reducer satisfies. */
  predicate WellFormed(r: StatsRow) {
    && 0 <= r.totalSessions
    && 0 <= r.currentStreak <= r.longestStreak
    && (r.lastSessionDate.Some? <==> r.totalSessions > 0)
    && (r.lastSessionDate.Some? ==> 1 <= r.currentStreak)
  }

  lemma CompletionKeepsWellFormed(existing: Option<StatsRow>, day: int, durationMinutes: int)
    requires existing.Some? ==> WellFormed(existing.value)
    ensures WellFormed(CompletedStats(existing, day, durationMinutes))
  {
  }

  /** Completing sessions on the given days, in order, with the given durations. */
  function CompleteAll(existing: Option<StatsRow>, days: seq<int>, durations: seq<int>): Option<StatsRow>
    requires |days| == |durations|
    decreases |days|
  {
    if days == [] then existing
    else CompleteAll(Some(CompletedStats(existing, days[0], durations[0])), days[1..], durations[1..])
  }

  function SumOf(xs: seq<int>): int {
    if xs == [] then 0 else xs[0] + SumOf(xs[1..])
  }

  /**
   * Over any sequence of completions the longest streak never shrinks, the
   * session count grows by one per completion and the study time by the sum
   * of the durations.
   */
  lemma {:induction false} CompleteAllAccumulates(existing: Option<StatsRow>, days: seq<int>, durations: seq<int>)
    requires |days| == |durations|
    ensures var prev := existing.GetOr(NoStats);
            var r := CompleteAll(existing, days, durations).GetOr(NoStats);
            && r.longestStreak >= prev.longestStreak
            && r.totalSessions == prev.totalSessions + |days|
            && r.totalStudyTime == prev.totalStudyTime + SumOf(durations)
    decreases |days|
  {
    if days != [] {
      var next := CompletedStats(existing, days[0], durations[0]);
      CompleteAllAccumulates(Some(next), days[1..], durations[1..]);
    }
  }

  /** A second completion on the same day changes neither streak. */
  lemma SameDayRepeatKeepsStreaks(existing: Option<StatsRow>, day: int, d1: int, d2: int)
    ensures var once := CompletedStats(existing, day, d1);
            var twice := CompletedStats(Some(once), day, d2);
            twice.currentStreak == once.currentStreak && twice.longestStreak == once.longestStreak
  {
  }

  /**
   * The cached row agrees with the recomputation from the days of all
   * completed sessions: the streaks are those `computeStreaksFromDates`
   * gives, the last session is the latest day and one session was counted
   * per completion.
   */
  ghost predicate AgreesWithHistory(r: StatsRow, history: seq<int>) {
    && r.totalSessions == |history|
    && r.currentStreak == CurrentStreak(history)
    && r.longestStreak == LongestStreak(history)
    && (if history == [] then r.lastSessionDate.None?
        else var s := SortedDistinct(history); r.lastSessionDate == Some(s[|s| - 1]))
  }

  lemma NoStatsAgreesWithNoHistory()
    ensures AgreesWithHistory(NoStats, [])
  {
    StreakBounds([]);
  }

  /**
   * When no completion is booked on a day before the last one, the
   * incremental reducer keeps the cached row equal to the recomputation
   * over the whole history.
   */
  lemma {:induction false} CompletionAgreesWithRecompute(prev: StatsRow, history: seq<int>, day: int, durationMinutes: int)
    requires AgreesWithHistory(prev, history)
    requires prev.lastSessionDate.Some? ==> prev.lastSessionDate.value <= day
    ensures AgreesWithHistory(CompletedStats(Some(prev), day, durationMinutes), history + [day])
  {
    var r := CompletedStats(Some(prev), day, durationMinutes);
    var h := history + [day];
    SortedDistinctLast(h);
    if history == [] {
      assert h == [day];
      assert SortedDistinct(h) == [day];
      assert TrailingRun([day], 1) == 1;
    } else {
      var s := SortedDistinct(history);
      SortedDistinctLast(history);
      StreakBounds(history);
      var last := s[|s| - 1];
      if day == last {
        SortedDistinctAppendKnown(history, day);
      } else {
        SortedDistinctAppendLater(history, day);
        var s' := s + [day];
        assert SortedDistinct(h) == s';
        assert s'[..|s|] == s[..|s|];
        RunsOfPrefix(s, s', |s|);
        assert s'[|s| - 1] == last;
      }
    }
  }

  /**
   * A backdated completion breaks the agreement: after completions on days
   * 10, 11 and 12, one booked on day 9 resets the cached streak to 1 while
   * the recomputation finds the run 9..12 of length 4.
   */
  lemma BackdatedCompletionDisagrees()
    ensures var prev := StatsRow(90, 3, 3, 3, Some(12));
            var r := CompletedStats(Some(prev), 9, 30);
            && AgreesWithHistory(prev, [10, 11, 12])
            && r.currentStreak == 1
            && CurrentStreak([10, 11, 12, 9]) == 4
            && !AgreesWithHistory(r, [10, 11, 12, 9])
  {
    SortedIs([10, 11, 12], [10, 11, 12]);
    SortedIs([10, 11, 12, 9], [9, 10, 11, 12]);
    assert TrailingRun([9, 10, 11, 12], 4) == 4 by {
      TrailingRunStartsAt([9, 10, 11, 12], 4, 0);
    }
    assert LongestRun([10, 11, 12], 3) == 3;
  }

  /** The sorted distinct days of a concrete list, found from its elements. */
  lemma {:induction false} SortedIs(dates: seq<int>, sorted: seq<int>)
    requires Increasing(sorted)
    requires forall y :: y in dates <==> y in sorted
    ensures SortedDistinct(dates) == sorted
  {
    SortedDistinctSpec(dates);
    IncreasingUnique(SortedDistinct(dates), sorted);
  }

  /** The `userStats` table: one row per user id. */
  class StatsStore {
    var rows: map<string, StatsRow>

    ghost predicate Valid()
      reads this
    {
      forall u :: u in rows ==> WellFormed(rows[u])
    }

    constructor ()
      ensures rows == map[] && Valid()
    {
      rows := map[];
    }

    /** The stored row of a user, if any. */
    function Lookup(userId: string): (r: Option<StatsRow>)
      reads this
      ensures r.Some? <==> userId in rows
      ensures r.Some? ==> r.value == rows[userId]
    {
      if userId in rows then Some(rows[userId]) else None
    }

    /**
     * Books one completed session: reads the user's row, computes the new
     * one and writes it back, leaving every other user's row as it was.
     */
    method UpsertUserStatsForCompletion(userId: string, durationMinutes: int, completedDateStr: Option<string>, serverToday: int)
        returns (row: StatsRow)
      requires Valid()
      requires OverrideIsReal(completedDateStr)
      modifies this
      ensures Valid()
      ensures row == CompletedStats(old(Lookup(userId)), EffectiveDay(completedDateStr, serverToday), durationMinutes)
      ensures rows == old(rows)[userId := row]
    {
      var todayDay := EffectiveDay(completedDateStr, serverToday);
      var existing := Lookup(userId);
      row := CompletedStats(existing, todayDay, durationMinutes);
      CompletionKeepsWellFormed(existing, todayDay, durationMinutes);
      rows := rows[userId := row];
    }
  }

  /** Examples: a first completion, a repeat on the same day, the next day, and a gap. */
  lemma StreakScenarios()
    ensures CompletedStats(None, 100, 25) == StatsRow(25, 1, 1, 1, Some(100))
    ensures CompletedStats(Some(StatsRow(25, 1, 1, 1, Some(100))), 100, 5) == StatsRow(30, 2, 1, 1, Some(100))
    ensures CompletedStats(Some(StatsRow(30, 2, 1, 1, Some(100))), 101, 10) == StatsRow(40, 3, 2, 2, Some(101))
    ensures CompletedStats(Some(StatsRow(40, 3, 2, 2, Some(101))), 105, 10) == StatsRow(50, 4, 1, 2, Some(105))
  {
  }

  /** The year, month and day of a date-shaped string, digit by digit. */
  lemma DateFields(s: string)
    requires IsDateShape(s)
    ensures YearOf(s) == 1000 * DigitValue(s[0]) + 100 * DigitValue(s[1]) + 10 * DigitValue(s[2]) + DigitValue(s[3])
    ensures MonthOf(s) == 10 * DigitValue(s[5]) + DigitValue(s[6])
    ensures DayOf(s) == 10 * DigitValue(s[8]) + DigitValue(s[9])
  {
    var y := s[0..4];
    assert ParseNat(y[..1]) == DigitValue(s[0]) by {
      assert y[..1][..0] == [];
    }
    assert ParseNat(y[..2]) == 10 * DigitValue(s[0]) + DigitValue(s[1]) by {
      assert y[..2][..1] == y[..1];
    }
    assert ParseNat(y[..3]) == 100 * DigitValue(s[0]) + 10 * DigitValue(s[1]) + DigitValue(s[2]) by {
      assert y[..3][..2] == y[..2];
    }
    assert y[..4][..3] == y[..3] && y[..4] == y;
    var m := s[5..7];
    assert ParseNat(m[..1]) == DigitValue(s[5]) by {
      assert m[..1][..0] == [];
    }
    assert m[..2] == m;
    var d := s[8..10];
    assert ParseNat(d[..1]) == DigitValue(s[8]) by {
      assert d[..1][..0] == [];
    }
    assert d[..2] == d;
  }

  /** A client override names the day it spells out; one that does not look like a date is ignored. */
  lemma EffectiveDayExamples(serverToday: int)
    ensures IsCalendarDate("1970-01-01") && EffectiveDay(Some("1970-01-01"), serverToday) == 0
    ensures EffectiveDay(Some("not a date"), serverToday) == serverToday
    ensures EffectiveDay(None, serverToday) == serverToday
  {
    var s := "1970-01-01";
    assert IsDateShape(s);
    DateFields(s);
    assert YearOf(s) == 1970 && MonthOf(s) == 1 && DayOf(s) == 1;
    assert DaysBeforeYear(1970) == UnixEpochDays;
  }

  /** 2024 is a leap year: the override 2024-03-01 is the day after 2024-02-29. */
  lemma LeapDayExample(serverToday: int)
    ensures IsCalendarDate("2024-03-01") && IsCalendarDate("2024-02-29")
            && EffectiveDay(Some("2024-03-01"), serverToday) == EffectiveDay(Some("2024-02-29"), serverToday) + 1
  {
    var march, feb := "2024-03-01", "2024-02-29";
    assert IsDateShape(march) && IsDateShape(feb);
    DateFields(march);
    DateFields(feb);
    assert YearOf(march) == 2024 && MonthOf(march) == 3 && DayOf(march) == 1;
    assert YearOf(feb) == 2024 && MonthOf(feb) == 2 && DayOf(feb) == 29;
    assert IsLeapYear(2024);
    NextDateIsNextDay(2024, 2, 29);
  }
}
