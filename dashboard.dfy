/**
 * The computations of the dashboard page: how a total of study minutes is
 * shown, the first name greeting the user, the energy level sent with a new
 * session, the duration sent when a session is completed, and the four
 * statistics cards.
 */
module Dashboard {
  import opened Js
  import opened Moods

  /**
   * `formatStudyTime`: hours are `Math.floor(total / 60)` and minutes
   * `total % 60`, the remainder of a division truncated toward zero.
   */
  function FormatStudyTime(totalMinutes: int): string {
    var h := totalMinutes / 60;
    var m := Rem(totalMinutes, 60);
    if h > 0 && m > 0 then IntToString(h) + "h " + IntToString(m) + "m"
    else if h > 0 then IntToString(h) + "h"
    else IntToString(m) + "m"
  }

  /** Reads a total back from a text of the forms `Xh Ym`, `Xh` and `Ym`. */
  function ParseStudyTime(s: string): Option<int> {
    if |s| < 2 then None
    else
      var body := s[..|s| - 1];
      var hours := TakeDigits(body);
      if s[|s| - 1] == 'h' && hours == body && body != [] then Some(60 * ParseNat(body))
      else if s[|s| - 1] != 'm' || hours == [] then None
      else if hours == body then Some(ParseNat(body))
      else
        var rest := body[|hours|..];
        if |rest| > 2 && rest[..2] == "h " && AllDigits(rest[2..]) then Some(60 * ParseNat(hours) + ParseNat(rest[2..]))
        else None
  }

  /** For totals of zero or more minutes the hours and minutes add back up to the total. */
  lemma StudyTimeSplit(totalMinutes: int)
    requires totalMinutes >= 0
    ensures var h, m := totalMinutes / 60, Rem(totalMinutes, 60);
            h * 60 + m == totalMinutes && 0 <= m < 60 && h >= 0
  {
  }

  lemma {:induction false} ParseHoursAndMinutes(hs: string, ms: string)
    requires hs != [] && AllDigits(hs) && ms != [] && AllDigits(ms)
    ensures ParseStudyTime(hs + "h " + ms + "m") == Some(60 * ParseNat(hs) + ParseNat(ms))
  {
    var s := hs + "h " + ms + "m";
    var tail := "h " + ms;
    var body := hs + tail;
    assert s == body + "m";
    assert s[..|s| - 1] == body && s[|s| - 1] == 'm';
    TakeDigitsOfDigits(hs, tail);
    assert TakeDigits(body) == hs && hs != body;
    assert body[|hs|..] == tail;
    assert |tail| > 2 && tail[..2] == "h " && tail[2..] == ms;
  }

  lemma {:induction false} ParseWholeHours(hs: string)
    requires hs != [] && AllDigits(hs)
    ensures ParseStudyTime(hs + "h") == Some(60 * ParseNat(hs))
  {
    var s := hs + "h";
    assert s[..|s| - 1] == hs;
    TakeDigitsOfDigits(hs, "");
    assert hs + "" == hs;
  }

  lemma {:induction false} ParseMinutesOnly(ms: string)
    requires ms != [] && AllDigits(ms)
    ensures ParseStudyTime(ms + "m") == Some(ParseNat(ms))
  {
    var s := ms + "m";
    assert s[..|s| - 1] == ms;
    TakeDigitsOfDigits(ms, "");
    assert ms + "" == ms;
  }

  /**
   * The shown text determines the total: reading it back gives the number
   * of minutes it was made from, so no two totals look the same.
   */
  lemma FormatStudyTimeRoundTrip(totalMinutes: int)
    requires totalMinutes >= 0
    ensures ParseStudyTime(FormatStudyTime(totalMinutes)) == Some(totalMinutes)
  {
    var h, m := totalMinutes / 60, Rem(totalMinutes, 60);
    StudyTimeSplit(totalMinutes);
    if h > 0 && m > 0 {
      RoundTripHoursAndMinutes(totalMinutes, h, m);
    } else if h > 0 {
      RoundTripWholeHours(totalMinutes, h);
    } else {
      RoundTripMinutesOnly(totalMinutes, m);
    }
  }

  lemma RoundTripHoursAndMinutes(t: int, h: int, m: int)
    requires t >= 0 && h == t / 60 && m == Rem(t, 60) && h > 0 && m > 0 && h * 60 + m == t
    ensures ParseStudyTime(FormatStudyTime(t)) == Some(t)
  {
    var hs, ms := NatToString(h), NatToString(m);
    calc {
      ParseStudyTime(FormatStudyTime(t));
      { HoursAndMinutesText(t, h, m); }
      ParseStudyTime(hs + "h " + ms + "m");
      { ParseHoursAndMinutes(hs, ms); }
      Some(60 * ParseNat(hs) + ParseNat(ms));
      { ParseNatToString(h); ParseNatToString(m); }
      Some(t);
    }
  }

  lemma HoursAndMinutesText(t: int, h: int, m: int)
    requires h == t / 60 && m == Rem(t, 60) && h > 0 && m > 0
    ensures FormatStudyTime(t) == NatToString(h) + "h " + NatToString(m) + "m"
  {
  }

  lemma RoundTripWholeHours(t: int, h: int)
    requires t >= 0 && h == t / 60 && Rem(t, 60) == 0 && h > 0 && h * 60 == t
    ensures ParseStudyTime(FormatStudyTime(t)) == Some(t)
  {
    ParseNatToString(h);
    assert FormatStudyTime(t) == NatToString(h) + "h";
    ParseWholeHours(NatToString(h));
  }

  lemma RoundTripMinutesOnly(t: int, m: int)
    requires t >= 0 && t / 60 == 0 && m == Rem(t, 60) && m == t
    ensures ParseStudyTime(FormatStudyTime(t)) == Some(t)
  {
    ParseNatToString(m);
    assert FormatStudyTime(t) == NatToString(m) + "m";
    ParseMinutesOnly(NatToString(m));
  }

  lemma FormatStudyTimeInjective(t1: int, t2: int)
    requires t1 >= 0 && t2 >= 0
    ensures FormatStudyTime(t1) == FormatStudyTime(t2) ==> t1 == t2
  {
    FormatStudyTimeRoundTrip(t1);
    FormatStudyTimeRoundTrip(t2);
  }

  /**
   * Negative totals are shown as well, and there the text no longer
   * determines the total: -5 and -65 minutes both read `-5m`.
   */
  lemma NegativeTotalsCollide()
    ensures FormatStudyTime(-5) == "-5m" && FormatStudyTime(-65) == "-5m"
  {
    assert -5 / 60 == -1 && Rem(-5, 60) == -5;
    assert -65 / 60 == -2 && Rem(-65, 60) == -5;
    assert IntToString(-5) == "-5";
  }

  /** No time at all reads `0m`. */
  lemma FormatNoStudyTime()
    ensures FormatStudyTime(0) == "0m"
  {
    assert Rem(0, 60) == 0;
    assert IntToString(0) == "0";
  }

  /** Under an hour only minutes are shown. */
  lemma FormatMinutesExample()
    ensures FormatStudyTime(45) == "45m"
  {
    assert 45 / 60 == 0 && Rem(45, 60) == 45;
    assert NatToString(45) == NatToString(4) + [DigitChar(5)];
    assert NatToString(4) == "4";
  }

  /** Whole hours show no minutes. */
  lemma FormatHoursExample()
    ensures FormatStudyTime(120) == "2h"
  {
    assert 120 / 60 == 2 && Rem(120, 60) == 0;
    assert IntToString(2) == "2";
  }

  /** Otherwise both parts are shown. */
  lemma FormatHoursAndMinutesExample()
    ensures FormatStudyTime(135) == "2h 15m"
  {
    assert 135 / 60 == 2 && Rem(135, 60) == 15;
    assert IntToString(2) == "2";
    assert NatToString(15) == NatToString(1) + [DigitChar(5)];
    assert NatToString(1) == "1";
  }

  /**
   * `firstName`: the first word of the trimmed display name when that is
   * not empty, else the first word of the trimmed `full_name` of the user's
   * metadata when that is a non-empty string, else the empty string.
   */
  function FirstName(displayName: Option<string>, fullName: Value): (r: string)
    ensures NoSpace(r)
  {
    var fromDisplay := if displayName.Some? && displayName.value != "" then FirstWord(displayName.value) else "";
    var fromFull := if Truthy(fullName) && fullName.Str? then FirstWord(fullName.s) else "";
    if fromDisplay != "" then fromDisplay
    else if fromFull != "" then fromFull
    else ""
  }

  predicate AllSpace(s: string) {
    forall i :: 0 <= i < |s| ==> IsSpace(s[i])
  }

  /** A display name with a word in it gives the greeting. */
  lemma FirstNameFromDisplayName(displayName: string, fullName: Value)
    requires !AllSpace(displayName)
    ensures FirstName(Some(displayName), fullName) == FirstWord(displayName)
  {
    FirstWordShape(displayName);
  }

  /** A missing or blank display name falls back to the full name when that is a string. */
  lemma FirstNameFromFullName(displayName: Option<string>, fullName: string)
    requires displayName.None? || AllSpace(displayName.value)
    ensures FirstName(displayName, Str(fullName)) == FirstWord(fullName)
  {
    FirstNameOfBoth(displayName, Str(fullName));
    FirstWordShape(displayName.GetOr(""));
  }

  /** The greeting is empty exactly when neither name holds a word. */
  lemma FirstNameEmpty(displayName: Option<string>, fullName: Value)
    ensures FirstName(displayName, fullName) == "" <==>
              (displayName.None? || AllSpace(displayName.value)) && (!fullName.Str? || AllSpace(fullName.s))
  {
    var d := displayName.GetOr("");
    var f := if fullName.Str? then fullName.s else "";
    FirstNameOfBoth(displayName, fullName);
    FirstWordShape(d);
    FirstWordShape(f);
  }

  /** Both names in one: a missing name behaves as an empty one. */
  lemma FirstNameOfBoth(displayName: Option<string>, fullName: Value)
    ensures var d := displayName.GetOr("");
            var f := if fullName.Str? then fullName.s else "";
            FirstName(displayName, fullName) == (if FirstWord(d) != "" then FirstWord(d) else FirstWord(f))
  {
    EmptyHasNoFirstWord();
    var fromDisplay := if displayName.Some? && displayName.value != "" then FirstWord(displayName.value) else "";
    var fromFull := if Truthy(fullName) && fullName.Str? then FirstWord(fullName.s) else "";
    assert fromDisplay == FirstWord(displayName.GetOr(""));
    assert fromFull == FirstWord(if fullName.Str? then fullName.s else "");
  }

  /** `energy_level` sent when a session starts. */
  function EnergyLevel(mood: Option<Mood>): int {
    if mood == Some(High) then 8 else if mood == Some(Moderate) then 5 else 3
  }

  function MoodRank(mood: Option<Mood>): int {
    match mood
    case Some(High) => 2
    case Some(Moderate) => 1
    case _ => 0
  }

  /** Energy is 8, 5 or 3, and a higher mood never gives less energy. */
  lemma EnergyFollowsMood(m1: Option<Mood>, m2: Option<Mood>)
    ensures EnergyLevel(m1) in {3, 5, 8}
    ensures MoodRank(m1) <= MoodRank(m2) <==> EnergyLevel(m1) <= EnergyLevel(m2)
  {
  }

  /** `Math.floor(elapsed / 60000)`: the whole minutes that have passed. */
  function ActualDuration(startMs: int, nowMs: int): (minutes: int)
    ensures 60000 * minutes <= nowMs - startMs < 60000 * (minutes + 1)
  {
    (nowMs - startMs) / 60000
  }

  datatype CompleteSessionRequest = CompleteSessionRequest(id: string, durationActual: int, completed: bool, notes: string)

  /**
   * `completeSession`: nothing is sent unless a session id (a non-empty
   * string) and a start time are held.
   */
  function CompleteSession(currentSessionId: Option<string>, sessionStartMs: Option<int>, nowMs: int): (r: Option<CompleteSessionRequest>)
    ensures r.Some? <==> currentSessionId.Some? && currentSessionId.value != "" && sessionStartMs.Some?
    ensures r.Some? ==> && r.value.id == currentSessionId.value
                        && 60000 * r.value.durationActual <= nowMs - sessionStartMs.value < 60000 * (r.value.durationActual + 1)
                        && r.value.completed
  {
    if currentSessionId.None? || currentSessionId.value == "" || sessionStartMs.None? then None
    else Some(CompleteSessionRequest(
      currentSessionId.value,
      ActualDuration(sessionStartMs.value, nowMs),
      true,
      "Session completed from dashboard"))
  }

  /** The statistics as fetched; a field may be missing. */
  datatype StatsView = StatsView(
    totalStudyTime: Option<int>,
    totalSessions: Option<int>,
    currentStreak: Option<int>,
    longestStreak: Option<int>)

  /** `x || 0` on a number that may be missing. */
  function OrZero(x: Option<int>): int {
    if x.Some? && x.value != 0 then x.value else 0
  }

  datatype StatCards = StatCards(currentStreak: string, longestStreak: string, totalStudyTime: string, sessions: int)

  /** `stats?.field`: without statistics every field reads as missing. */
  const NoStatsView := StatsView(None, None, None, None)

  /** The texts and numbers of the four cards. */
  function ShowStatCards(stats: Option<StatsView>): StatCards {
    var v := stats.GetOr(NoStatsView);
    StatCards(
      IntToString(OrZero(v.currentStreak)) + " days",
      IntToString(OrZero(v.longestStreak)) + " days",
      FormatStudyTime(v.totalStudyTime.GetOr(0)),
      OrZero(v.totalSessions))
  }

  /** `|| 0` and `?? 0` agree on numbers: the only falsy number is zero. */
  lemma OrZeroIsDefaultZero(x: Option<int>)
    ensures OrZero(x) == x.GetOr(0)
  {
  }

  /** Missing statistics show as zero on every card; present ones show their value. */
  lemma StatCardsShowValuesOrZero(stats: Option<StatsView>)
    ensures stats.None? ==> ShowStatCards(stats) == StatCards("0 days", "0 days", "0m", 0)
    ensures stats.Some? ==>
              var v := stats.value;
              && ShowStatCards(stats).currentStreak == IntToString(v.currentStreak.GetOr(0)) + " days"
              && ShowStatCards(stats).longestStreak == IntToString(v.longestStreak.GetOr(0)) + " days"
              && ShowStatCards(stats).totalStudyTime == FormatStudyTime(v.totalStudyTime.GetOr(0))
              && ShowStatCards(stats).sessions == v.totalSessions.GetOr(0)
  {
    if stats.None? {
      assert IntToString(0) == "0";
      FormatNoStudyTime();
    }
  }
}
