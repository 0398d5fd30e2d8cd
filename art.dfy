/**
 * The Art screen: the twenty-minute daily countdown, the weekly stopwatch
 * that starts again every Monday, their `MM:SS` and `HH:MM:SS` displays, and
 * the day's challenge drawn from the prompts.
 */
module Art {
  import opened Wrappers
  import opened Text
  import opened Calendar
  import opened Storage
  import opened QuoteOfDay

  const WeeklyTimeKey := "weekly_art_time"
  const WeekStartKey := "week_start_date"
  const ChallengeDateKey := "challenge_date"
  const ChallengeKey := "todays_challenge"

  /** `20 * 60`: the daily countdown's length in seconds. */
  const DailyLength := 1200

  /** `120 * 60`: the weekly goal in seconds. */
  const WeeklyGoal := 7200

  // ----- displays -----

  /** `String(n).padStart(2, '0')`. */
  function Pad2(n: int): string
  {
    PadStart(IntToString(n), 2, '0')
  }

  /** JavaScript's `%`: the remainder takes the sign of the dividend. */
  function JsRem(x: int, m: int): (r: int)
    requires m > 0
    ensures x >= 0 ==> r == x % m
    ensures x < 0 ==> -m < r <= 0
  {
    if x >= 0 then x % m else 0 - ((0 - x) % m)
  }

  /** `formatTime`: `Math.floor(s / 60)` and `s % 60`, each padded to two digits. */
  function FormatTime(seconds: int): string
  {
    Pad2(seconds / 60) + ":" + Pad2(JsRem(seconds, 60))
  }

  /** `formatStopwatch`: hours, minutes and seconds, each padded to two digits; `NaN` prints as such. */
  function FormatStopwatch(seconds: Option<int>): string
  {
    match seconds
    case None => "NaN:NaN:NaN"
    case Some(s) => Pad2(s / 3600) + ":" + Pad2(JsRem(s, 3600) / 60) + ":" + Pad2(JsRem(s, 60))
  }

  /** For a count that is not negative, `Pad2` is the digit string of the count, of length two below 100. */
  lemma Pad2Digits(n: int)
    requires n >= 0
    ensures Pad2(n) == ZeroPad(n, 2)
    ensures AllDigits(Pad2(n)) && DecimalValue(Pad2(n)) == n && |Pad2(n)| >= 2
    ensures n < 100 ==> |Pad2(n)| == 2
  {
    assert Pow10(2) == 100;
  }

  /** Reading back `a:b` for digit strings `a` (two or more) and `b` (two). */
  lemma ReadTwo(r: string, a: string, b: string)
    requires AllDigits(a) && AllDigits(b) && |a| >= 2 && |b| == 2 && r == a + ":" + b
    ensures var k := |r| - 3;
      |r| >= 5 && k == |a| && r[k] == ':' && r[..k] == a && r[k + 1..] == b &&
      AllDigits(r[..k]) && AllDigits(r[k + 1..]) &&
      DecimalValue(r[..k]) == DecimalValue(a) && DecimalValue(r[k + 1..]) == DecimalValue(b)
  {
    assert r[..|a|] == a;
    assert r[|a| + 1..] == b;
  }

  /** Reading back `a:b:c` for digit strings `a` (two or more), `b` and `c` (two each). */
  lemma ReadThree(a: string, b: string, c: string)
    requires AllDigits(a) && AllDigits(b) && AllDigits(c) && |a| >= 2 && |b| == 2 && |c| == 2
    ensures var r := a + ":" + b + ":" + c; var k := |r| - 6;
      |r| >= 8 && k == |a| && r[k] == ':' && r[k + 3] == ':' && r[..k] == a && r[k + 1..k + 3] == b && r[k + 4..] == c &&
      AllDigits(r[..k]) && AllDigits(r[k + 1..k + 3]) && AllDigits(r[k + 4..]) &&
      DecimalValue(r[..k]) == DecimalValue(a) && DecimalValue(r[k + 1..k + 3]) == DecimalValue(b) &&
      DecimalValue(r[k + 4..]) == DecimalValue(c)
  {
    var r := a + ":" + b + ":" + c;
    assert r[..|a|] == a;
    assert r[|a| + 1..|a| + 3] == b;
    assert r[|a| + 4..] == c;
  }

  /**
   * `r` reads as `minutes:seconds`: at least two digits of minutes, a colon
   * and two digits of seconds below 60, which together make up `count`.
   */
  ghost predicate ShowsMinutes(r: string, count: int)
  {
    var k := |r| - 3;
    |r| >= 5 && r[k] == ':' && AllDigits(r[..k]) && AllDigits(r[k + 1..]) &&
    DecimalValue(r[..k]) * 60 + DecimalValue(r[k + 1..]) == count && DecimalValue(r[k + 1..]) < 60
  }

  /** Two digit strings joined by a colon show the minutes and seconds they spell. */
  lemma MinutesShown(r: string, a: string, b: string)
    requires AllDigits(a) && AllDigits(b) && |a| >= 2 && |b| == 2 && r == a + ":" + b && DecimalValue(b) < 60
    ensures ShowsMinutes(r, DecimalValue(a) * 60 + DecimalValue(b))
  {
    ReadTwo(r, a, b);
  }

  /** `formatTime` of a count that is not negative shows it as minutes and seconds; five characters below 100 minutes. */
  lemma {:induction false} FormatTimeSpec(seconds: nat)
    ensures ShowsMinutes(FormatTime(seconds), seconds)
    ensures seconds < 6000 ==> |FormatTime(seconds)| == 5
  {
    var x, y := seconds / 60, JsRem(seconds, 60);
    var m, s := Pad2(x), Pad2(y);
    Pad2Digits(x);
    Pad2Digits(y);
    var r := FormatTime(seconds);
    assert r == m + ":" + s;
    MinutesShown(r, m, s);
    assert x * 60 + y == seconds;
  }

  /** The three parts of a stopwatch count: hours, minutes below 60 and seconds below 60, which together make up the count. */
  lemma StopwatchParts(s: nat)
    ensures 0 <= JsRem(s, 3600) / 60 < 60 && 0 <= JsRem(s, 60) < 60
    ensures (s / 3600) * 3600 + (JsRem(s, 3600) / 60) * 60 + JsRem(s, 60) == s
  {
    var q, r := s / 3600, s % 3600;
    var q2, r2 := r / 60, r % 60;
    assert s == 3600 * q + r;
    assert r == 60 * q2 + r2;
    ModUnique(s, 60, 60 * q + q2, r2);
  }

  /**
   * `formatStopwatch` writes hours, minutes and seconds separated by colons,
   * with minutes and seconds of two digits below 60, which together make up
   * the count; eight characters below 100 hours.
   */
  lemma FormatStopwatchSpec(seconds: nat)
    ensures var r := FormatStopwatch(Some(seconds)); var k := |r| - 6;
      |r| >= 8 && r[k] == ':' && r[k + 3] == ':' &&
      AllDigits(r[..k]) && AllDigits(r[k + 1..k + 3]) && AllDigits(r[k + 4..]) &&
      DecimalValue(r[..k]) * 3600 + DecimalValue(r[k + 1..k + 3]) * 60 + DecimalValue(r[k + 4..]) == seconds &&
      DecimalValue(r[k + 1..k + 3]) < 60 && DecimalValue(r[k + 4..]) < 60
    ensures seconds < 360000 ==> |FormatStopwatch(Some(seconds))| == 8
  {
    StopwatchParts(seconds);
    var x, y, z := seconds / 3600, JsRem(seconds, 3600) / 60, JsRem(seconds, 60);
    var h, m, s := Pad2(x), Pad2(y), Pad2(z);
    Pad2Digits(x);
    Pad2Digits(y);
    Pad2Digits(z);
    var r := FormatStopwatch(Some(seconds));
    assert r == h + ":" + m + ":" + s;
    ReadThree(h, m, s);

  }

  /** The countdown's first display. */
  lemma FormatTimeStart()
    ensures FormatTime(DailyLength) == "20:00"
  {
    assert DailyLength / 60 == 20 && JsRem(DailyLength, 60) == 0;
    assert NatToString(20) == NatToString(2) + [DigitChar(0)] == "20";
    assert Pad2(20) == "20";
    assert NatToString(0) == [DigitChar(0)] == "0";
    assert Pad2(0) == Repeat('0', 1) + "0" == "00";
    assert "20" + ":" + "00" == "20:00";
  }

  /** `weeklyGoalMet`: at least 120 minutes this week (`NaN` never meets it). */
  predicate WeeklyGoalMet(weeklyTime: Option<int>)
  {
    weeklyTime.Some? && weeklyTime.value >= WeeklyGoal
  }

  // ----- the countdown -----

  /** The countdown's state updater: at one second or less it ends at 0, otherwise one second less. */
  function Countdown(prev: int): (r: int)
    ensures r >= 0
    ensures prev > 1 ==> r == prev - 1
    ensures prev <= 1 ==> r == 0
  {
    if prev <= 1 then 0 else prev - 1
  }

  /** The count after `k` ticks from `start`. */
  function CountdownAfter(start: int, k: nat): int
  {
    if k == 0 then start else Countdown(CountdownAfter(start, k - 1))
  }

  /** From a count that is not negative, after `k` ticks the count is `k` less, and never below 0. */
  lemma {:induction false} CountdownTicks(start: nat, k: nat)
    ensures CountdownAfter(start, k) == if k >= start then 0 else start - k
  {
    if k > 0 {
      CountdownTicks(start, k - 1);
    }
  }

  /** A full countdown reaches 0 after exactly 1200 ticks, and not before. */
  lemma CountdownLasts()
    ensures CountdownAfter(DailyLength, DailyLength) == 0
    ensures forall k: nat :: k < DailyLength ==> CountdownAfter(DailyLength, k) > 0
  {
    CountdownTicks(DailyLength, DailyLength);
    forall k: nat | k < DailyLength
      ensures CountdownAfter(DailyLength, k) > 0
    {
      CountdownTicks(DailyLength, k);
    }
  }

  // ----- the week -----

  /** `getWeekStart`: the date moved back to its Monday, a Sunday counting as the end of its week. */
  function WeekStart(d: Date): (r: Date)
    requires ValidDate(d)
    ensures ValidDate(r)
  {
    Back(d, MondayGap(Weekday(d)))
  }

  /** `day === 0 ? -6 : 1` added to `-day`: how many days back the Monday lies, `(w + 6) % 7`. */
  function MondayGap(w: int): (k: nat)
    requires 0 <= w < 7
    ensures k == (w + 6) % 7 && k <= 6
  {
    if w == 0 then 6 else w - 1
  }

  /** Going back that far from a number with remainder `w` lands on remainder 1. */
  lemma BackToMonday(x: int, w: int)
    requires 0 <= w < 7 && x % 7 == w
    ensures (x - MondayGap(w)) % 7 == 1
  {
    var q := x / 7;
    assert x == 7 * q + w;
    if w == 0 {
      ModUnique(x - 6, 7, q - 1, 1);
    } else {
      ModUnique(x - (w - 1), 7, q, 1);
    }
  }

  /** The week start is a Monday at most six days before the date, and a Sunday is six days after it. */
  lemma WeekStartSpec(d: Date)
    requires ValidDate(d)
    ensures Weekday(WeekStart(d)) == 1
    ensures 0 <= DayNumber(d) - DayNumber(WeekStart(d)) <= 6
    ensures DayNumber(d) - DayNumber(WeekStart(d)) == (Weekday(d) + 6) % 7
    ensures Weekday(d) == 0 ==> DayNumber(d) - DayNumber(WeekStart(d)) == 6
  {
    var w := Weekday(d);
    var k := MondayGap(w);
    var s := Back(d, k);
    assert WeekStart(d) == s;
    BackNumber(d, k);
    BackToMonday(DayNumber(d) + 4, w);
    assert DayNumber(s) + 4 == DayNumber(d) + 4 - k;
  }

  /** Going back from the next day reaches one day further. */
  lemma {:induction false} BackFromNext(d: Date, k: nat)
    requires ValidDate(d)
    ensures Back(NextDay(d), k + 1) == Back(d, k)
  {
    if k == 0 {
      PrevNext(d);
    } else {
      BackFromNext(d, k - 1);
    }
  }

  /** Every day from Monday to Saturday has the same week start as the day after it. */
  lemma WeekStartSameWeek(d: Date)
    requires ValidDate(d) && Weekday(d) != 0
    ensures WeekStart(NextDay(d)) == WeekStart(d)
  {
    var w := Weekday(d);
    var n := NextDay(d);
    NextWeekday(d);
    assert Weekday(n) == if w == 6 then 0 else w + 1;
    assert WeekStart(n) == Back(n, w);
    assert WeekStart(d) == Back(d, w - 1);
    BackFromNext(d, w - 1);
  }

  /** A Monday is its own week start, so the week start of a week start is itself. */
  lemma WeekStartIdempotent(d: Date)
    requires ValidDate(d)
    ensures WeekStart(WeekStart(d)) == WeekStart(d)
  {
    var s := WeekStart(d);
    WeekStartSpec(d);
    assert WeekStart(s) == Back(s, MondayGap(1));
  }

  /** The outcome of `loadWeeklyTime`: the store after it and the weekly time shown. */
  datatype WeeklyLoad = WeeklyLoad(store: Store, time: Option<int>)

  /**
   * `loadWeeklyTime` with `weekStart` the current week's start: when the
   * stored week start differs (or is missing), the new start is stored and
   * the time shown is 0; otherwise a non-empty stored time is read with
   * `parseInt` (`None` for `NaN`), and with none the time is left at `current`.
   */
  function LoadWeekly(store: Store, weekStart: string, current: Option<int>): (r: WeeklyLoad)
    ensures GetItem(store, WeekStartKey) != Some(weekStart) ==> r.time == Some(0)
    ensures GetItem(r.store, WeekStartKey) == Some(weekStart)
    ensures forall key :: key != WeekStartKey ==> GetItem(r.store, key) == GetItem(store, key)
  {
    if GetItem(store, WeekStartKey) != Some(weekStart) then
      WeeklyLoad(store[WeekStartKey := weekStart], Some(0))
    else
      var saved := GetItem(store, WeeklyTimeKey);
      WeeklyLoad(store, if HasText(saved) then ParseInt(saved.value) else current)
  }

  /** Within a week, a time stored when the stopwatch stopped is the time loaded next. */
  lemma WeeklyTimeReloads(store: Store, weekStart: string, t: int, current: Option<int>)
    requires GetItem(store, WeekStartKey) == Some(weekStart)
    ensures LoadWeekly(store[WeeklyTimeKey := IntToString(t)], weekStart, current).time == Some(t)
  {
    var text := IntToString(t);
    var saved := store[WeeklyTimeKey := text];
    assert GetItem(saved, WeekStartKey) == Some(weekStart);
    assert GetItem(saved, WeeklyTimeKey) == Some(text);
    ParseIntIntToString(t);
    assert |text| > 0;
  }

  /**
   * The goal badge after a reload within the week: shown exactly when the
   * stored time is at least 120 minutes; an unreadable time never shows it.
   */
  lemma WeeklyGoalAfterReload(store: Store, weekStart: string, t: int, current: Option<int>)
    requires GetItem(store, WeekStartKey) == Some(weekStart)
    ensures WeeklyGoalMet(LoadWeekly(store[WeeklyTimeKey := TimeText(Some(t))], weekStart, current).time) <==> t >= 7200
    ensures !WeeklyGoalMet(None)
  {
    WeeklyTimeReloads(store, weekStart, t, current);
  }

  /**
   * The new week's 0 is shown but not stored: opening the screen again in
   * the same week brings back the time stored in the previous week.
   */
  lemma StaleWeeklyTimeReturns(store: Store, weekStart: string, t: int)
    requires GetItem(store, WeekStartKey) != Some(weekStart)
    requires GetItem(store, WeeklyTimeKey) == Some(IntToString(t))
    ensures var first := LoadWeekly(store, weekStart, Some(0));
      first.time == Some(0) && LoadWeekly(first.store, weekStart, Some(0)).time == Some(t)
  {
    var first := LoadWeekly(store, weekStart, Some(0));
    assert first.store == store[WeekStartKey := weekStart];
    WeeklyTimeReloads(first.store, weekStart, t, Some(0));
    assert first.store[WeeklyTimeKey := IntToString(t)] == first.store;
  }

  /** `loadWeeklyTime` as evidently intended: a new week also stores its time of 0. */
  function LoadWeeklyCorrected(store: Store, weekStart: string, current: Option<int>): WeeklyLoad
  {
    if GetItem(store, WeekStartKey) != Some(weekStart) then
      WeeklyLoad(store[WeekStartKey := weekStart][WeeklyTimeKey := "0"], Some(0))
    else LoadWeekly(store, weekStart, current)
  }

  /**
   * With the correction, a new week starts at 0, and loading again in the
   * same week, with nothing saved in between, shows 0 again and changes nothing.
   */
  lemma CorrectedReloadIsStable(store: Store, weekStart: string, c1: Option<int>, c2: Option<int>)
    requires GetItem(store, WeekStartKey) != Some(weekStart)
    ensures LoadWeeklyCorrected(store, weekStart, c1).time == Some(0)
    ensures var first := LoadWeeklyCorrected(store, weekStart, c1);
      LoadWeeklyCorrected(first.store, weekStart, c2) == first
  {
    var first := LoadWeeklyCorrected(store, weekStart, c1);
    assert first.store[WeeklyTimeKey] == "0";
    assert ParseInt("0") == Some(0) by {
      ParseIntNatToString(0);
    }
  }

  // ----- the day's challenge -----

  /** The outcome of `loadDailyChallenge`: the store after it and the challenge shown. */
  datatype ChallengeLoad = ChallengeLoad(store: Store, challenge: string)

  /**
   * `loadDailyChallenge` on `today`: a challenge already stored for today is
   * reused; otherwise the day's prompt, `promptsData[dayOfYear % length]`, is
   * shown and stored with today's date.
   */
  function LoadChallenge(store: Store, today: Date, prompts: seq<string>): (r: ChallengeLoad)
    requires ValidDate(today) && |prompts| > 0
    ensures GetItem(store, ChallengeDateKey) == Some(DateString(today)) && HasText(GetItem(store, ChallengeKey)) ==>
              r == ChallengeLoad(store, store[ChallengeKey])
    ensures !(GetItem(store, ChallengeDateKey) == Some(DateString(today)) && HasText(GetItem(store, ChallengeKey))) ==>
              r.challenge == prompts[QuoteIndex(today, |prompts|).value] &&
              r.store == store[ChallengeDateKey := DateString(today)][ChallengeKey := r.challenge]
  {
    var day := DateString(today);
    var savedDate := GetItem(store, ChallengeDateKey);
    var savedChallenge := GetItem(store, ChallengeKey);
    if savedDate == Some(day) && HasText(savedChallenge) then ChallengeLoad(store, savedChallenge.value)
    else
      var challenge := prompts[QuoteIndex(today, |prompts|).value];
      ChallengeLoad(store[ChallengeDateKey := day][ChallengeKey := challenge], challenge)
  }

  /** Loading the challenge again on the same day shows the same challenge. */
  lemma ChallengeStable(store: Store, today: Date, prompts: seq<string>)
    requires ValidDate(today) && |prompts| > 0
    ensures var first := LoadChallenge(store, today, prompts);
      LoadChallenge(first.store, today, prompts).challenge == first.challenge
  {
  }

  /** The shown challenge is one of the prompts, or the one stored for today. */
  lemma ChallengeSource(store: Store, today: Date, prompts: seq<string>)
    requires ValidDate(today) && |prompts| > 0
    ensures var r := LoadChallenge(store, today, prompts);
      r.challenge in prompts || (GetItem(store, ChallengeDateKey) == Some(DateString(today)) && GetItem(store, ChallengeKey) == Some(r.challenge))
  {
  }

  // ----- the screen -----

  /** `time.toString()` for the stored weekly time. */
  function TimeText(t: Option<int>): string
  {
    match t
    case Some(n) => IntToString(n)
    case None => "NaN"
  }

  /** The screen's timers, its challenge and the store it reads and writes. */
  class ArtStudio {
    var store: Store
    var dailyTime: int
    var isDailyRunning: bool
    var weeklyTime: Option<int>
    var isWeeklyRunning: bool
    var todaysChallenge: string

    /** The countdown stays within its twenty minutes. */
    ghost predicate Valid()
      reads this
    {
      0 <= dailyTime <= DailyLength
    }

    /** The screen as it mounts, before anything is loaded. */
    constructor(store: Store)
      ensures Valid()
      ensures this.store == store && dailyTime == DailyLength && !isDailyRunning
      ensures weeklyTime == Some(0) && !isWeeklyRunning && todaysChallenge == ""
    {
      this.store := store;
      dailyTime := DailyLength;
      isDailyRunning := false;
      weeklyTime := Some(0);
      isWeeklyRunning := false;
      todaysChallenge := "";
    }

    /** `loadWeeklyTime` on `today`. */
    method LoadWeeklyTime(today: Date)
      requires ValidDate(today)
      modifies this
      ensures var r := LoadWeekly(old(store), DateString(WeekStart(today)), old(weeklyTime));
        store == r.store && weeklyTime == r.time
      ensures dailyTime == old(dailyTime) && isDailyRunning == old(isDailyRunning)
      ensures isWeeklyRunning == old(isWeeklyRunning) && todaysChallenge == old(todaysChallenge)
    {
      var saved := GetItem(store, WeeklyTimeKey);
      var weekStart := GetItem(store, WeekStartKey);
      var currentWeekStart := DateString(WeekStart(today));
      if weekStart != Some(currentWeekStart) {
        store := store[WeekStartKey := currentWeekStart];
        weeklyTime := Some(0);
      } else if HasText(saved) {
        weeklyTime := ParseInt(saved.value);
      }
    }

    /** `loadDailyChallenge` on `today` with the bundled prompts. */
    method LoadDailyChallenge(today: Date, prompts: seq<string>)
      requires ValidDate(today) && |prompts| > 0
      modifies this
      ensures var r := LoadChallenge(old(store), today, prompts);
        store == r.store && todaysChallenge == r.challenge
      ensures dailyTime == old(dailyTime) && isDailyRunning == old(isDailyRunning)
      ensures weeklyTime == old(weeklyTime) && isWeeklyRunning == old(isWeeklyRunning)
    {
      var day := DateString(today);
      var savedDate := GetItem(store, ChallengeDateKey);
      var savedChallenge := GetItem(store, ChallengeKey);
      if savedDate == Some(day) && HasText(savedChallenge) {
        todaysChallenge := savedChallenge.value;
      } else {
        var promptIndex := DayOfYear(today) % |prompts|;
        var newChallenge := prompts[promptIndex];
        todaysChallenge := newChallenge;
        store := store[ChallengeDateKey := day];
        store := store[ChallengeKey := newChallenge];
      }
    }

    /** `toggleDailyTimer`: pauses a running countdown, starts a paused one. */
    method ToggleDailyTimer()
      modifies this
      ensures isDailyRunning == !old(isDailyRunning)
      ensures dailyTime == old(dailyTime) && store == old(store)
      ensures weeklyTime == old(weeklyTime) && isWeeklyRunning == old(isWeeklyRunning) && todaysChallenge == old(todaysChallenge)
    {
      if isDailyRunning {
        isDailyRunning := false;
      } else {
        isDailyRunning := true;
      }
    }

    /** One second of the running countdown; at the last second it stops at 0. */
    method DailyTick()
      requires Valid()
      modifies this
      ensures Valid()
      ensures dailyTime == Countdown(old(dailyTime))
      ensures isDailyRunning == (old(isDailyRunning) && old(dailyTime) > 1)
      ensures store == old(store) && weeklyTime == old(weeklyTime) && isWeeklyRunning == old(isWeeklyRunning)
      ensures todaysChallenge == old(todaysChallenge)
    {
      if dailyTime <= 1 {
        isDailyRunning := false;
        dailyTime := 0;
      } else {
        dailyTime := dailyTime - 1;
      }
    }

    /** `resetDailyTimer`: stopped, with the full twenty minutes. */
    method ResetDailyTimer()
      modifies this
      ensures Valid()
      ensures dailyTime == DailyLength && !isDailyRunning
      ensures store == old(store) && weeklyTime == old(weeklyTime) && isWeeklyRunning == old(isWeeklyRunning)
      ensures todaysChallenge == old(todaysChallenge)
    {
      isDailyRunning := false;
      dailyTime := DailyLength;
    }

    /** `toggleWeeklyStopwatch`: stopping stores the weekly time; starting stores nothing. */
    method ToggleWeeklyStopwatch()
      modifies this
      ensures isWeeklyRunning == !old(isWeeklyRunning)
      ensures old(isWeeklyRunning) ==> store == old(store)[WeeklyTimeKey := TimeText(weeklyTime)]
      ensures !old(isWeeklyRunning) ==> store == old(store)
      ensures weeklyTime == old(weeklyTime) && dailyTime == old(dailyTime) && isDailyRunning == old(isDailyRunning)
      ensures todaysChallenge == old(todaysChallenge)
    {
      if isWeeklyRunning {
        isWeeklyRunning := false;
        store := store[WeeklyTimeKey := TimeText(weeklyTime)];
      } else {
        isWeeklyRunning := true;
      }
    }

    /** One second of the running stopwatch (`NaN` stays `NaN`). */
    method WeeklyTick()
      modifies this
      ensures weeklyTime == if old(weeklyTime).Some? then Some(old(weeklyTime).value + 1) else None
      ensures store == old(store) && dailyTime == old(dailyTime) && isDailyRunning == old(isDailyRunning)
      ensures isWeeklyRunning == old(isWeeklyRunning) && todaysChallenge == old(todaysChallenge)
    {
      match weeklyTime
      case Some(t) =>
        weeklyTime := Some(t + 1);
      case None =>
    }

    /** The confirmed weekly reset: stopped, at 0, and 0 stored. */
    method ResetWeeklyStopwatch()
      modifies this
      ensures weeklyTime == Some(0) && !isWeeklyRunning
      ensures store == old(store)[WeeklyTimeKey := "0"]
      ensures dailyTime == old(dailyTime) && isDailyRunning == old(isDailyRunning)
      ensures todaysChallenge == old(todaysChallenge)
    {
      isWeeklyRunning := false;
      weeklyTime := Some(0);
      store := store[WeeklyTimeKey := TimeText(Some(0))];
    }
  }
}
