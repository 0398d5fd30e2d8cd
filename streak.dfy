/**
 * The Grow screen's bookkeeping: which of the five MAGIC tasks (manifest, art,
 * goal, inspire, courage) each calendar day has, and the streak statistics read
 * from the store.
 */
module Streak {
  import opened Wrappers
  import opened Text
  import opened Json
  import opened Calendar
  import opened Seqs
  import opened Storage
  import StringOrder

  /** The record kept for a calendar day. */
  datatype Tasks = Tasks(manifest: bool, art: bool, goal: bool, inspire: bool, courage: bool)

  predicate AnyTask(t: Tasks)
  {
    t.manifest || t.art || t.goal || t.inspire || t.courage
  }

  /** The calendar star is drawn highlighted when all five points are lit. */
  predicate AllComplete(t: Tasks)
  {
    t.manifest && t.art && t.goal && t.inspire && t.courage
  }

  /** The stored public artworks: `publicRaw ? JSON.parse(publicRaw) : []`, `None` where the parse throws. */
  function PublicArtworks(store: Store): (r: Option<Json>)
    ensures !HasText(GetItem(store, "public_artworks")) ==> r == Some(JArr([]))
  {
    var raw := GetItem(store, "public_artworks");
    if HasText(raw) then Parse(raw.value) else Some(JArr([]))
  }

  /**
   * Whether a stored manifest entry has a growth goal: its `growthGoal` is a
   * string that is not blank.  Every error this test can raise (text that is not
   * JSON, a `null` entry, a `growthGoal` that has no `trim`) counts as no goal.
   */
  predicate HasGoal(raw: string)
  {
    match Parse(raw)
    case Some(JObj(ms)) =>
      (match Lookup(ms, "growthGoal")
       case Some(JStr(g)) => Trim(g) != ""
       case _ => false)
    case _ => false
  }

  /** `parseInt(raw) > 0`. */
  predicate PositiveInt(raw: string)
  {
    var n := ParseInt(raw);
    n.Some? && n.value > 0
  }

  function ManifestKey(ds: string): string { "manifest_" + ds }
  function RankedKey(ds: string): string { "ranked_" + ds }
  function ArtTimeKey(ds: string): string { "art_time_" + ds }

  /** The manifest point: an entry is stored for the day and is not empty. */
  predicate ManifestDone(store: Store, ds: string)
  {
    HasText(GetItem(store, ManifestKey(ds)))
  }

  /** The goal point: the day's manifest entry is present and holds a growth goal. */
  predicate GoalDone(store: Store, ds: string)
  {
    ManifestDone(store, ds) && HasGoal(store[ManifestKey(ds)])
  }

  /**
   * The art point of the day written `ds`, `age` days before today: a
   * positive timer total stored for the day, or, for the seven days ending
   * today, a positive total on the weekly stopwatch.
   */
  predicate ArtDone(store: Store, ds: string, age: int)
  {
    var daily := GetItem(store, ArtTimeKey(ds));
    var weekly := GetItem(store, "weekly_art_time");
    (HasText(daily) && PositiveInt(daily.value)) ||
    (0 <= age < 7 && HasText(weekly) && PositiveInt(weekly.value))
  }

  /** The inspire point: the day's ranking flag is the text `true`. */
  predicate InspireDone(store: Store, ds: string)
  {
    GetItem(store, RankedKey(ds)) == Some("true")
  }

  /** The artwork `a` has `a.date === ds`. */
  predicate DatedOn(a: Json, ds: string)
  {
    Get(a, "date") == Some(JStr(ds))
  }

  /**
   * The tasks of the day written `ds`, `age` days before today (`diffDays`),
   * or `None` where computing them throws.
   */
  function DayTasks(store: Store, artworks: Json, ds: string, age: int): Option<Tasks>
  {
    if !artworks.JArr? then None
    else
      match SomeMember(artworks.items, "date", Some(JStr(ds))) // artworks.some(a => a.date === ds)
      case None => None
      case Some(c) => Some(Tasks(ManifestDone(store, ds), ArtDone(store, ds, age), GoalDone(store, ds), InspireDone(store, ds), c))
  }

  /**
   * What a day's tasks mean: a goal only with an entry, the inspire point
   * exactly for a `true` ranking flag, and the courage point exactly for an
   * artwork dated that day.
   */
  lemma DayTasksSpec(store: Store, artworks: Json, ds: string, age: int)
    ensures var r := DayTasks(store, artworks, ds, age);
            r.Some? ==> (r.value.goal ==> r.value.manifest)
    ensures var r := DayTasks(store, artworks, ds, age);
            r.Some? ==> (r.value.inspire <==> GetItem(store, RankedKey(ds)) == Some("true"))
    ensures var r := DayTasks(store, artworks, ds, age);
            r.Some? ==> artworks.JArr? && (r.value.courage <==> exists i :: 0 <= i < |artworks.items| && Get(artworks.items[i], "date") == Some(JStr(ds)))
  {
    if artworks.JArr? {
      SomeMemberTrue(artworks.items, "date", Some(JStr(ds)));
      SomeMemberFalse(artworks.items, "date", Some(JStr(ds)));
    }
  }

  /** Computing a day's tasks throws exactly where the artworks are no list or the scan for the day reaches a `null`. */
  lemma DayTasksThrows(store: Store, artworks: Json, ds: string, age: int)
    ensures DayTasks(store, artworks, ds, age).None? <==>
              !artworks.JArr? ||
              exists i :: 0 <= i < |artworks.items| && artworks.items[i] == JNull && forall k :: 0 <= k < i ==> Get(artworks.items[k], "date") != Some(JStr(ds))
  {
    if artworks.JArr? {
      SomeMemberNone(artworks.items, "date", Some(JStr(ds)));
    }
  }

  /** The date string of day `d` of month `ym`: `getDateString(new Date(year, month, day))`. */
  function MonthDayString(ym: YearMonth, d: int): string
    requires ValidMonth(ym) && 1 <= d <= DaysInMonth(ym.year, ym.month)
  {
    DateString(Date(ym.year, ym.month, d))
  }

  /** How many days before `today` day `d` of month `ym` lies: `diffDays`. */
  function MonthDayAge(ym: YearMonth, d: int, today: Date): int
    requires ValidMonth(ym) && 1 <= d <= DaysInMonth(ym.year, ym.month) && ValidDate(today)
  {
    DayNumber(today) - DayNumber(Date(ym.year, ym.month, d))
  }

  /** The tasks of day `d` of month `ym`, with the artworks read from the store; `None` where that throws. */
  function MonthDay(store: Store, ym: YearMonth, d: int, today: Date): Option<Tasks>
    requires ValidMonth(ym) && 1 <= d <= DaysInMonth(ym.year, ym.month) && ValidDate(today)
  {
    match PublicArtworks(store)
    case None => None
    case Some(artworks) => DayTasks(store, artworks, MonthDayString(ym, d), MonthDayAge(ym, d, today))
  }

  /**
   * Day `d` of month `ym` was computed without a throw and `dayData` holds
   * its tasks exactly when at least one is done.
   */
  ghost predicate Recorded(store: Store, ym: YearMonth, today: Date, dayData: map<int, Tasks>, d: int)
    requires ValidMonth(ym) && ValidDate(today)
  {
    1 <= d <= DaysInMonth(ym.year, ym.month) &&
    var t := MonthDay(store, ym, d, today);
    t.Some? && (d in dayData <==> AnyTask(t.value)) && (d in dayData ==> dayData[d] == t.value)
  }

  /** Recording day `day` (into the map when it has a task) extends the recorded days by one. */
  lemma RecordStep(store: Store, ym: YearMonth, today: Date, dayData: map<int, Tasks>, day: int, t: Tasks)
    requires ValidMonth(ym) && ValidDate(today) && 1 <= day <= DaysInMonth(ym.year, ym.month)
    requires forall d :: d in dayData ==> 1 <= d < day
    requires forall d :: 1 <= d < day ==> Recorded(store, ym, today, dayData, d)
    requires MonthDay(store, ym, day, today) == Some(t)
    ensures var next := if AnyTask(t) then dayData[day := t] else dayData;
            (forall d :: d in next ==> 1 <= d < day + 1) &&
            (forall d :: 1 <= d < day + 1 ==> Recorded(store, ym, today, next, d))
  {
    var next := if AnyTask(t) then dayData[day := t] else dayData;
    forall d | 1 <= d < day + 1
      ensures Recorded(store, ym, today, next, d)
    {
      if d < day {
        assert Recorded(store, ym, today, dayData, d);
      }
    }
  }

  /**
   * `loadMonthData(year, month)`: the days of the month that have at least one
   * task, in a map from day number to tasks.  A throw stops the scan, so the map
   * then holds only the days before the day that threw.
   */
  method LoadMonthData(store: Store, ym: YearMonth, today: Date) returns (dayData: map<int, Tasks>)
    requires ValidMonth(ym) && ValidDate(today)
    ensures forall d :: d in dayData ==> 1 <= d <= DaysInMonth(ym.year, ym.month)
    ensures forall d :: d in dayData ==> MonthDay(store, ym, d, today) == Some(dayData[d]) && AnyTask(dayData[d])
    ensures forall d :: 1 <= d <= DaysInMonth(ym.year, ym.month) ==>
              (d in dayData <==> (forall e :: 1 <= e <= d ==> MonthDay(store, ym, e, today).Some?) &&
                                 AnyTask(MonthDay(store, ym, d, today).value))
  {
    dayData := map[];
    var artworks := PublicArtworks(store);
    if artworks.None? {
      return;
    }
    var dim := DaysInMonth(ym.year, ym.month);
    var day := 1;
    while day <= dim
      invariant 1 <= day <= dim + 1
      invariant forall d :: d in dayData ==> 1 <= d < day
      invariant forall d :: 1 <= d < day ==> Recorded(store, ym, today, dayData, d)
    {
      var tasks := DayTasks(store, artworks.value, MonthDayString(ym, day), MonthDayAge(ym, day, today));
      if tasks.None? {
        assert MonthDay(store, ym, day, today).None?;
        RecordedUpTo(store, ym, today, dayData, day);
        return;
      }
      assert MonthDay(store, ym, day, today) == tasks;
      RecordStep(store, ym, today, dayData, day, tasks.value);
      if AnyTask(tasks.value) {
        dayData := dayData[day := tasks.value];
      }
      day := day + 1;
    }
    RecordedUpTo(store, ym, today, dayData, dim + 1);
  }

  /**
   * With the days before `day` recorded and `day` itself throwing or past the
   * month, the map holds just the days with tasks before the first throw.
   */
  lemma RecordedUpTo(store: Store, ym: YearMonth, today: Date, dayData: map<int, Tasks>, day: int)
    requires ValidMonth(ym) && ValidDate(today) && 1 <= day <= DaysInMonth(ym.year, ym.month) + 1
    requires forall d :: d in dayData ==> 1 <= d < day
    requires forall d :: 1 <= d < day ==> Recorded(store, ym, today, dayData, d)
    requires day <= DaysInMonth(ym.year, ym.month) ==> MonthDay(store, ym, day, today).None?
    ensures forall d :: d in dayData ==> 1 <= d <= DaysInMonth(ym.year, ym.month)
    ensures forall d :: d in dayData ==> MonthDay(store, ym, d, today) == Some(dayData[d]) && AnyTask(dayData[d])
    ensures forall d :: 1 <= d <= DaysInMonth(ym.year, ym.month) ==>
              (d in dayData <==> (forall e :: 1 <= e <= d ==> MonthDay(store, ym, e, today).Some?) &&
                                 AnyTask(MonthDay(store, ym, d, today).value))
  {
    forall d | 1 <= d <= DaysInMonth(ym.year, ym.month)
      ensures d in dayData <==> (forall e :: 1 <= e <= d ==> MonthDay(store, ym, e, today).Some?) &&
                                AnyTask(MonthDay(store, ym, d, today).value)
    {
      if d < day {
        assert Recorded(store, ym, today, dayData, d);
        forall e | 1 <= e <= d
          ensures MonthDay(store, ym, e, today).Some?
        {
          assert Recorded(store, ym, today, dayData, e);
        }
      } else {
        assert !(1 <= day <= d && MonthDay(store, ym, day, today).Some?);
      }
    }
    forall d | d in dayData
      ensures MonthDay(store, ym, d, today) == Some(dayData[d]) && AnyTask(dayData[d])
    {
      assert Recorded(store, ym, today, dayData, d);
    }
  }

  /** A day with every point lit is exactly one with an entry, art time, a goal, a ranking and a post. */
  lemma AllCompleteMeans(store: Store, artworks: Json, ds: string, age: int)
    requires DayTasks(store, artworks, ds, age).Some?
    ensures var t := DayTasks(store, artworks, ds, age).value;
            AllComplete(t) <==> GoalDone(store, ds) && ArtDone(store, ds, age) && InspireDone(store, ds) && t.courage
  {
  }

  /** A positive weekly stopwatch total lights the art point of each of the seven days ending today. */
  lemma WeeklyArtCoversWeek(store: Store, today: Date, k: nat)
    requires ValidDate(today) && k < 7
    requires HasText(GetItem(store, "weekly_art_time")) && PositiveInt(store["weekly_art_time"])
    ensures var day := Back(today, k);
            ArtDone(store, DateString(day), DayNumber(today) - DayNumber(day))
  {
    BackNumber(today, k);
  }

  /** A day the weekly total does not cover is lit only by its own timer total. */
  lemma ArtOutsideWeek(store: Store, today: Date, k: nat)
    requires ValidDate(today) && k >= 7
    ensures var day := Back(today, k);
            var daily := GetItem(store, ArtTimeKey(DateString(day)));
            ArtDone(store, DateString(day), DayNumber(today) - DayNumber(day)) <==> HasText(daily) && PositiveInt(daily.value)
  {
    BackNumber(today, k);
  }

  // ─── Streak statistics ───────────────────────────────────────────

  datatype Stats = Stats(
    currentStreak: nat,
    longestStreak: nat,
    totalActiveDays: nat,
    manifestDays: nat,
    artDays: nat,
    goalsSet: nat,
    goalsMet: nat,
    inspireDays: nat,
    couragePosts: nat)

  /** The suffixes after `prefix` of the keys that start with it: `keys.filter(...).forEach(k => add(k.replace(prefix, '')))`. */
  function KeyDates(keys: seq<string>, prefix: string): (r: set<string>)
    ensures forall k :: k in keys && StartsWith(k, prefix) ==> DropPrefix(k, prefix) in r
    ensures forall ds :: ds in r ==> prefix + ds in keys
  {
    set k | k in keys && StartsWith(k, prefix) :: DropPrefix(k, prefix)
  }

  /**
   * The truthy `date`s of the artworks that are strings, or `None` where an
   * element is `null` and reading its `date` throws.
   */
  function ArtworkDates(artworks: seq<Json>): (r: Option<set<string>>)
    ensures r.None? <==> JNull in artworks
    ensures r.Some? ==> forall ds :: ds in r.value <==> ds != "" && exists i :: 0 <= i < |artworks| && DatedOn(artworks[i], ds)
  {
    if artworks == [] then Some({})
    else if artworks[0] == JNull then None
    else
      var rest := ArtworkDates(artworks[1..]);
      assert forall i :: 1 <= i < |artworks| ==> artworks[i] == artworks[1..][i - 1];
      assert JNull in artworks <==> JNull in artworks[1..];
      if rest.None? then None
      else match Get(artworks[0], "date")
        case Some(JStr(ds)) => if ds != "" then Some(rest.value + {ds}) else rest
        case _ => rest
  }

  /** The active dates: manifest entries, rankings and dated public artworks; `None` where reading them throws. */
  function ActiveDates(store: Store, keys: seq<string>): Option<set<string>>
  {
    match PublicArtworks(store)
    case Some(JArr(items)) =>
      (match ArtworkDates(items)
       case Some(posted) => Some(KeyDates(keys, "manifest_") + KeyDates(keys, "ranked_") + posted)
       case None => None)
    case _ => None
  }

  /** Where the current streak is counted back from: today, or yesterday when today is not active yet. */
  function StreakStart(active: set<string>, today: Date): (r: Date)
    requires ValidDate(today)
    ensures ValidDate(r)
  {
    if DateString(today) in active then today else PrevDay(today)
  }

  /** The day `k` days before `start` is active. */
  ghost predicate ActiveBack(active: set<string>, start: Date, k: nat)
    requires ValidDate(start)
  {
    DateString(Back(start, k)) in active
  }

  /** `current` consecutive active days end at the start day, and the day before them is not active (up to the cap of 3650). */
  ghost predicate IsCurrentStreak(active: set<string>, today: Date, current: nat)
    requires ValidDate(today)
  {
    var start := StreakStart(active, today);
    current <= 3650 &&
    (forall k: nat :: k < current ==> ActiveBack(active, start, k)) &&
    (current < 3650 ==> !ActiveBack(active, start, current))
  }

  /** The current-streak loop of `loadStreakStats`. */
  method CurrentStreak(active: set<string>, today: Date) returns (current: nat)
    requires ValidDate(today)
    ensures IsCurrentStreak(active, today, current)
    ensures current == 0 <==> DateString(today) !in active && DateString(PrevDay(today)) !in active
  {
    ghost var start := StreakStart(active, today);
    var checkDate := today;
    if DateString(today) !in active {
      checkDate := PrevDay(today);
    }
    current := 0;
    var i := 0;
    var stopped := false;
    while i < 3650 && !stopped
      invariant 0 <= i <= 3650 && current == i
      invariant checkDate == Back(start, current)
      invariant forall k: nat :: k < current ==> ActiveBack(active, start, k)
      invariant stopped ==> !ActiveBack(active, start, current)
      decreases 3650 - i, if stopped then 0 else 1
    {
      if DateString(checkDate) in active {
        assert ActiveBack(active, start, current);
        current := current + 1;
        checkDate := PrevDay(checkDate);
        i := i + 1;
      } else {
        stopped := true;
      }
    }
    assert Back(start, 0) == start;
    if current == 0 {
      assert !ActiveBack(active, start, 0);
    } else {
      assert ActiveBack(active, start, 0);
    }
  }

  /**
   * `b` is the day after `a`: both are read as dates (`new Date(ds)`, given
   * here as `dayOf`, a day number or `None` for an invalid date) and their
   * difference is one day.
   */
  ghost predicate DayAfter(dayOf: string -> Option<int>, a: string, b: string)
  {
    dayOf(a).Some? && dayOf(b).Some? && dayOf(b).value - dayOf(a).value == 1
  }

  /** The date at `k + 1` is the day after the date at `k`. */
  ghost predicate Linked(s: seq<string>, k: int, dayOf: string -> Option<int>)
    requires 0 <= k < |s| - 1
  {
    DayAfter(dayOf, s[k], s[k + 1])
  }

  /** `s[i..j+1]` is a run of consecutive calendar days. */
  ghost predicate IsRun(s: seq<string>, i: int, j: int, dayOf: string -> Option<int>)
  {
    0 <= i <= j < |s| && forall k :: i <= k < j ==> Linked(s, k, dayOf)
  }

  /** `longest` is the length of the longest run of consecutive days in `s`, and 0 for an empty list. */
  ghost predicate IsLongestRun(s: seq<string>, longest: nat, dayOf: string -> Option<int>)
  {
    (s == [] ==> longest == 0) &&
    (s != [] ==> exists i, j :: IsRun(s, i, j, dayOf) && longest == j - i + 1) &&
    (forall i, j :: IsRun(s, i, j, dayOf) ==> j - i + 1 <= longest)
  }

  function Max(a: int, b: int): int { if a < b then b else a }

  /** The longest run ending at index `j` has length `len`. */
  ghost predicate RunEndsAt(s: seq<string>, j: int, len: int, dayOf: string -> Option<int>)
  {
    1 <= len <= j + 1 && IsRun(s, j - len + 1, j, dayOf) && (j - len + 1 == 0 || !Linked(s, j - len, dayOf))
  }

  /** No run ending at `j` is longer than the longest one. */
  lemma RunEndsAtBound(s: seq<string>, i: int, j: int, len: int, dayOf: string -> Option<int>)
    requires RunEndsAt(s, j, len, dayOf) && IsRun(s, i, j, dayOf)
    ensures j - i + 1 <= len
  {
  }

  /** A date one day after the one before extends the longest run by one. */
  lemma RunEndsAtExtend(s: seq<string>, j: int, len: int, dayOf: string -> Option<int>)
    requires RunEndsAt(s, j, len, dayOf) && j + 1 < |s| && DayAfter(dayOf, s[j], s[j + 1])
    ensures RunEndsAt(s, j + 1, len + 1, dayOf)
  {
    assert Linked(s, j, dayOf);
  }

  /** Any other date starts a new run. */
  lemma RunEndsAtRestart(s: seq<string>, j: int, dayOf: string -> Option<int>)
    requires 0 <= j && j + 1 < |s| && !DayAfter(dayOf, s[j], s[j + 1])
    ensures RunEndsAt(s, j + 1, 1, dayOf)
  {
    assert !Linked(s, j, dayOf);
  }

  /** After an empty string, which is no date, the run starts afresh, and the run ending at it has length one. */
  lemma RunAfterEmpty(s: seq<string>, j: int, len: int, dayOf: string -> Option<int>)
    requires 0 <= j && j + 1 < |s| && s[j] == "" && dayOf("") == None && RunEndsAt(s, j, len, dayOf)
    ensures RunEndsAt(s, j + 1, 1, dayOf) && len == 1
  {
    RunEndsAtRestart(s, j, dayOf);
    if len > 1 {
      RunLinks(s, j - len + 1, j, j - 1, dayOf);
      assert false;
    }
  }

  /** Each neighbouring pair inside a run is one day apart. */
  lemma RunLinks(s: seq<string>, i: int, j: int, k: int, dayOf: string -> Option<int>)
    requires IsRun(s, i, j, dayOf) && i <= k < j
    ensures DayAfter(dayOf, s[k], s[k + 1])
  {
    assert Linked(s, k, dayOf);
  }

  /** The bound on the runs ending before `idx` carries over to the next index. */
  lemma LongestStep(s: seq<string>, idx: int, bound: int, len: int, dayOf: string -> Option<int>)
    requires 0 <= idx < |s| && RunEndsAt(s, idx, len, dayOf)
    requires forall i, j :: IsRun(s, i, j, dayOf) && j < idx ==> j - i + 1 <= bound
    ensures forall i, j :: IsRun(s, i, j, dayOf) && j < idx + 1 ==> j - i + 1 <= Max(bound, len)
  {
    forall i, j | IsRun(s, i, j, dayOf) && j < idx + 1
      ensures j - i + 1 <= Max(bound, len)
    {
      if j == idx {
        RunEndsAtBound(s, i, j, len, dayOf);
      }
    }
  }

  /**
   * The longest-streak loop of `loadStreakStats`, over the sorted active
   * dates, with the date reading `new Date(ds)` given as `dayOf`; the empty
   * string, which the loop treats as no previous date, reads as no date.
   */
  method LongestStreak(sorted: seq<string>, dayOf: string -> Option<int>) returns (longest: nat)
    requires dayOf("") == None
    ensures IsLongestRun(sorted, longest, dayOf)
  {
    longest := 0;
    var runLen := 0;
    var idx := 0;
    while idx < |sorted|
      invariant 0 <= idx <= |sorted|
      invariant idx == 0 ==> runLen == 0 && longest == 0
      invariant idx > 0 ==> RunEndsAt(sorted, idx - 1, runLen, dayOf)
      invariant longest > 0 ==> exists i, j :: IsRun(sorted, i, j, dayOf) && j < idx && longest == j - i + 1
      invariant forall i, j :: IsRun(sorted, i, j, dayOf) && j < idx ==> j - i + 1 <= Max(longest, runLen)
    {
      ghost var oldLongest, oldRun := longest, runLen;
      var ds := sorted[idx];
      if idx > 0 && sorted[idx - 1] != "" {
        var prev, next := dayOf(sorted[idx - 1]), dayOf(ds);
        if prev.Some? && next.Some? && next.value - prev.value == 1 {
          RunEndsAtExtend(sorted, idx - 1, runLen, dayOf);
          runLen := runLen + 1;
        } else {
          RunEndsAtRestart(sorted, idx - 1, dayOf);
          longest := Max(longest, runLen);
          runLen := 1;
        }
      } else {
        if idx > 0 {
          RunAfterEmpty(sorted, idx - 1, runLen, dayOf);
        } else {
          assert IsRun(sorted, 0, 0, dayOf);
        }
        runLen := 1;
      }
      LongestStep(sorted, idx, Max(oldLongest, oldRun), runLen, dayOf);
      idx := idx + 1;
    }
    if runLen > longest {
      longest := runLen;
    }
  }

  /** The listing `[...activeDates].sort()` of a set: sorted and with the same members. */
  ghost predicate ListsSorted(s: seq<string>, active: set<string>)
  {
    StringOrder.Sorted(s) && forall x :: x in s <==> x in active
  }

  /** A manifest key whose stored entry has a growth goal. */
  predicate GoalSetKey(store: Store, key: string)
  {
    HasText(GetItem(store, key)) && HasGoal(store[key])
  }

  /** A goal acknowledgement answered `yes`. */
  predicate GoalMetKey(store: Store, key: string)
  {
    GetItem(store, key) == Some("yes")
  }

  /** The goals loop: how many of `keys` hold an entry with a growth goal. */
  method CountGoalsSet(store: Store, keys: seq<string>) returns (n: nat)
    ensures n == Count(keys, (k: string) => GoalSetKey(store, k))
    ensures n <= |keys|
  {
    n := 0;
    var i := 0;
    while i < |keys|
      invariant 0 <= i <= |keys|
      invariant n == Count(keys[..i], (k: string) => GoalSetKey(store, k))
    {
      var raw := GetItem(store, keys[i]);
      CountPrefixStep(keys, i, (k: string) => GoalSetKey(store, k));
      if HasText(raw) && HasGoal(raw.value) {
        n := n + 1;
      }
      i := i + 1;
    }
    assert keys[..|keys|] == keys;
  }

  /** The acknowledgement loop: how many of `keys` hold `yes`. */
  method CountGoalsMet(store: Store, keys: seq<string>) returns (n: nat)
    ensures n == Count(keys, (k: string) => GoalMetKey(store, k))
    ensures n <= |keys|
  {
    n := 0;
    var i := 0;
    while i < |keys|
      invariant 0 <= i <= |keys|
      invariant n == Count(keys[..i], (k: string) => GoalMetKey(store, k))
    {
      var val := GetItem(store, keys[i]);
      CountPrefixStep(keys, i, (k: string) => GoalMetKey(store, k));
      if val == Some("yes") {
        n := n + 1;
      }
      i := i + 1;
    }
    assert keys[..|keys|] == keys;
  }

  /** The artwork loop: the string dates `publicArtworks.forEach(a => { if (a.date) add(a.date) })` adds. */
  method CollectArtworkDates(artworks: seq<Json>) returns (dates: Option<set<string>>)
    ensures dates == ArtworkDates(artworks)
  {
    var acc: set<string> := {};
    var i := 0;
    while i < |artworks|
      invariant 0 <= i <= |artworks|
      invariant forall k :: 0 <= k < i ==> artworks[k] != JNull
      invariant forall ds :: ds in acc <==> ds != "" && exists k :: 0 <= k < i && DatedOn(artworks[k], ds)
    {
      var a := artworks[i];
      if a == JNull {
        assert JNull in artworks;
        assert ArtworkDates(artworks).None?;
        return None;
      }
      match Get(a, "date") {
        case Some(JStr(ds)) =>
          if ds != "" {
            acc := acc + {ds};
          }
        case _ =>
      }
      i := i + 1;
    }
    var all := ArtworkDates(artworks);
    assert all.Some?;
    assert forall ds :: ds in acc <==> ds in all.value;
    assert acc == all.value;
    dates := Some(acc);
  }

  /**
   * `loadStreakStats()`: the statistics shown under the calendar, or `None`
   * where reading the artworks throws and the previous statistics stay.
   */
  method LoadStreakStats(store: Store, allKeys: seq<string>, today: Date) returns (stats: Option<Stats>)
    requires AllKeysOf(store, allKeys) && ValidDate(today)
    ensures stats.Some? <==> ActiveDates(store, allKeys).Some?
    ensures stats.Some? ==>
              var active := ActiveDates(store, allKeys).value;
              var manifestKeys := KeysWithPrefix(allKeys, "manifest_");
              var st := stats.value;
              IsCurrentStreak(active, today, st.currentStreak) &&
              (exists sorted :: ListsSorted(sorted, active) && IsLongestRun(sorted, st.longestStreak, DayOf)) &&
              st.totalActiveDays == |active| &&
              st.manifestDays == |manifestKeys| &&
              st.artDays == 0 &&
              st.goalsSet == Count(manifestKeys, (k: string) => GoalSetKey(store, k)) &&
              st.goalsSet <= st.manifestDays &&
              st.goalsMet == Count(KeysWithPrefix(allKeys, "goal_acknowledged_"), (k: string) => GoalMetKey(store, k)) &&
              st.inspireDays == |KeysWithPrefix(allKeys, "ranked_")| &&
              st.couragePosts == |PublicArtworks(store).value.items|
  {
    var active := CollectActiveDates(store, allKeys);
    if active.None? {
      return None;
    }
    var current, longest := Streaks(active.value, today);
    var manifestKeys := KeysWithPrefix(allKeys, "manifest_");
    var goalsSet := CountGoalsSet(store, manifestKeys);
    var goalsMet := CountGoalsMet(store, KeysWithPrefix(allKeys, "goal_acknowledged_"));
    var rankedKeys := KeysWithPrefix(allKeys, "ranked_");
    var items := PublicArtworks(store).value.items;
    stats := Some(Stats(current, longest, |active.value|, |manifestKeys|, 0, goalsSet, goalsMet, |rankedKeys|, |items|));
  }

  /** The first half of `loadStreakStats`: the artwork dates and the dated keys gathered into one set. */
  method CollectActiveDates(store: Store, allKeys: seq<string>) returns (active: Option<set<string>>)
    ensures active == ActiveDates(store, allKeys)
    ensures active.Some? ==> PublicArtworks(store).Some? && PublicArtworks(store).value.JArr?
  {
    var publicArtworks := PublicArtworks(store);
    if publicArtworks.None? || !publicArtworks.value.JArr? {
      return None;
    }
    var posted := CollectArtworkDates(publicArtworks.value.items);
    if posted.None? {
      return None;
    }
    active := Some(KeyDates(allKeys, "manifest_") + KeyDates(allKeys, "ranked_") + posted.value);
  }

  /** The current streak counted back from today and the longest run in the sorted listing of the active dates. */
  method Streaks(active: set<string>, today: Date) returns (current: nat, longest: nat)
    requires ValidDate(today)
    ensures IsCurrentStreak(active, today, current)
    ensures exists sorted :: ListsSorted(sorted, active) && IsLongestRun(sorted, longest, DayOf)
  {
    current := CurrentStreak(active, today);
    var sorted := StringOrder.SortSet(active);
    assert DayOf("") == None;
    longest := LongestStreak(sorted, DayOf);
    assert ListsSorted(sorted, active);
  }

  /** The date strings of the `n` days counted back from `start`. */
  ghost function StreakDays(start: Date, n: nat): set<string>
    requires ValidDate(start)
  {
    set k: nat | k < n :: DateString(Back(start, k))
  }

  /** Days counted back from a four-digit year are written with pairwise different strings. */
  lemma {:induction false} StreakDaysCount(start: Date, n: nat)
    requires ValidDate(start) && 11 <= start.year <= 9999 && n <= 3651
    ensures |StreakDays(start, n)| == n
  {
    if n > 0 {
      StreakDaysCount(start, n - 1);
      StreakDaysSplit(start, n - 1);
      StreakDaysFresh(start, n - 1);
    }
  }

  lemma StreakDaysSplit(start: Date, n: nat)
    requires ValidDate(start)
    ensures StreakDays(start, n + 1) == StreakDays(start, n) + {DateString(Back(start, n))}
  {
  }

  /** The day `n` back is written differently from every day before it. */
  lemma StreakDaysFresh(start: Date, n: nat)
    requires ValidDate(start) && 11 <= start.year <= 9999 && n <= 3650
    ensures DateString(Back(start, n)) !in StreakDays(start, n)
  {
    if DateString(Back(start, n)) in StreakDays(start, n) {
      var k: nat :| k < n && DateString(Back(start, k)) == DateString(Back(start, n));
      SameDayString(start, k, n);
      assert false;
    }
  }

  lemma SameDayString(start: Date, k: nat, n: nat)
    requires ValidDate(start) && 11 <= start.year <= 9999 && k < n <= 3650
    ensures DateString(Back(start, k)) != DateString(Back(start, n))
  {
    BackYear(start, k);
    BackYear(start, n);
    BackNumber(start, k);
    BackNumber(start, n);
    if DateString(Back(start, k)) == DateString(Back(start, n)) {
      DateStringInjective(Back(start, k), Back(start, n));
    }
  }

  /** The current streak never exceeds the number of active days (for years 12 .. 9999). */
  lemma CurrentStreakAtMostActive(active: set<string>, today: Date, current: nat)
    requires ValidDate(today) && 12 <= today.year <= 9999
    requires IsCurrentStreak(active, today, current)
    ensures current <= |active|
  {
    var start := StreakStart(active, today);
    assert start.year >= 11;
    StreakDaysCount(start, current);
    forall x | x in StreakDays(start, current)
      ensures x in active
    {
      var k: nat :| k < current && x == DateString(Back(start, k));
      assert ActiveBack(active, start, k);
    }
    SubsetCardinality(StreakDays(start, current), active);
  }

  lemma SubsetCardinality(a: set<string>, b: set<string>)
    requires a <= b
    ensures |a| <= |b|
  {
    assert b == a + (b - a);
  }

  /** The goal percentage: `Math.round(goalsMet / goalsSet * 100)`, or 0 with no goals set. */
  function GoalPct(goalsMet: nat, goalsSet: nat): (pct: nat)
    ensures goalsSet == 0 ==> pct == 0
    ensures goalsSet > 0 ==> 2 * goalsSet * pct <= 200 * goalsMet + goalsSet < 2 * goalsSet * (pct + 1)
  {
    if goalsSet > 0 then (200 * goalsMet + goalsSet) / (2 * goalsSet) else 0
  }

  /** When no more goals are met than set, the percentage is at most 100. */
  lemma GoalPctBound(goalsMet: nat, goalsSet: nat)
    requires goalsMet <= goalsSet
    ensures GoalPct(goalsMet, goalsSet) <= 100
  {
    if goalsSet > 0 {
      var pct := GoalPct(goalsMet, goalsSet);
      if pct > 100 {
        MulMono(2 * goalsSet, 101, pct);
        assert false;
      }
    }
  }

  lemma {:induction false} MulMono(d: nat, a: nat, b: nat)
    requires a <= b
    ensures d * a <= d * b
    decreases b - a
  {
    if a < b {
      MulMono(d, a + 1, b);
    }
  }
}
