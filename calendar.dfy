/**
 * Calendar arithmetic of the proleptic Gregorian calendar, the way the app's
 * `Date` objects do it: months numbered 0..11 as `getMonth` does, day numbers
 * counted from 1970-01-01, weekdays 0 (Sunday) .. 6 (Saturday) as `getDay` does,
 * and the `YYYY-MM-DD` strings that `toISOString().split('T')[0]` produces.
 */
module Calendar {
  import opened Wrappers
  import opened Text

  /** A calendar day; `month` runs 0..11. */
  datatype Date = Date(year: int, month: int, day: int)

  /** A month of a year, as the `{ year, month }` records of the month helpers. */
  datatype YearMonth = YearMonth(year: int, month: int)

  predicate IsLeap(year: int)
  {
    year % 4 == 0 && (year % 100 != 0 || year % 400 == 0)
  }

  predicate ValidMonth(ym: YearMonth)
  {
    0 <= ym.month < 12
  }

  /** The length of a month: what `new Date(year, month + 1, 0).getDate()` gives. */
  function DaysInMonth(year: int, month: int): (n: int)
    requires 0 <= month < 12
    ensures 28 <= n <= 31
    ensures month == 1 ==> (n == 29 <==> IsLeap(year))
  {
    if month == 1 then (if IsLeap(year) then 29 else 28)
    else if month == 3 || month == 5 || month == 8 || month == 10 then 30
    else 31
  }

  predicate ValidDate(d: Date)
  {
    0 <= d.month < 12 && 1 <= d.day <= DaysInMonth(d.year, d.month)
  }

  function YearLength(year: int): int
  {
    if IsLeap(year) then 366 else 365
  }

  /** The days of the months of `year` before `month`. */
  function DaysBeforeMonth(year: int, month: int): int
    requires 0 <= month <= 12
  {
    var common :=
      if month == 0 then 0 else if month == 1 then 31 else if month == 2 then 59
      else if month == 3 then 90 else if month == 4 then 120 else if month == 5 then 151
      else if month == 6 then 181 else if month == 7 then 212 else if month == 8 then 243
      else if month == 9 then 273 else if month == 10 then 304 else if month == 11 then 334
      else 365;
    common + (if IsLeap(year) && month >= 2 then 1 else 0)
  }

  /** Each month starts where the one before it ends, and the twelve make up the year. */
  lemma MonthStep(year: int, month: int)
    requires 0 <= month < 12
    ensures DaysBeforeMonth(year, month + 1) == DaysBeforeMonth(year, month) + DaysInMonth(year, month)
    ensures DaysBeforeMonth(year, 12) == YearLength(year)
  {
  }

  /** Leap years among 1 .. n (for negative `n`, minus those among n+1 .. 0). */
  function LeapsUpTo(n: int): int
  {
    n / 4 - n / 100 + n / 400
  }

  /** Days from 1970-01-01 to the first of January of `year` (negative before 1970). */
  function DaysBeforeYear(year: int): int
  {
    365 * (year - 1970) + LeapsUpTo(year - 1) - LeapsUpTo(1969)
  }

  lemma LeapStep(year: int)
    ensures LeapsUpTo(year) - LeapsUpTo(year - 1) == if IsLeap(year) then 1 else 0
  {
    DivPred(year, 4);
    DivPred(year, 100);
    DivPred(year, 400);
  }

  /** The quotient drops by one going down from a multiple, and stays otherwise. */
  lemma DivPred(x: int, m: int)
    requires m > 0
    ensures (x - 1) / m == if x % m == 0 then x / m - 1 else x / m
  {
    var q, r := x / m, x % m;
    assert x == m * q + r;
    if r == 0 {
      assert m * (q - 1) == m * q - m;
      ModUnique(x - 1, m, q - 1, m - 1);
    } else {
      ModUnique(x - 1, m, q, r - 1);
    }
  }

  /** Consecutive new years lie a year's length apart. */
  lemma YearStep(year: int)
    ensures DaysBeforeYear(year + 1) == DaysBeforeYear(year) + YearLength(year)
  {
    LeapStep(year);
  }

  /** Days from 1970-01-01 to `d`: the count the app's millisecond differences divide out. */
  function DayNumber(d: Date): int
    requires ValidDate(d)
  {
    DaysBeforeYear(d.year) + DaysBeforeMonth(d.year, d.month) + d.day - 1
  }

  /** The weekday of `d` as `getDay` numbers it; 1970-01-01 was a Thursday. */
  function Weekday(d: Date): (w: int)
    requires ValidDate(d)
    ensures 0 <= w < 7
  {
    (DayNumber(d) + 4) % 7
  }

  /** The day after `d`, rolling over month and year ends as `setDate(getDate() + 1)` does. */
  function NextDay(d: Date): (r: Date)
    requires ValidDate(d)
    ensures ValidDate(r)
  {
    if d.day < DaysInMonth(d.year, d.month) then Date(d.year, d.month, d.day + 1)
    else if d.month < 11 then Date(d.year, d.month + 1, 1)
    else Date(d.year + 1, 0, 1)
  }

  /** The day before `d`, as `setDate(getDate() - 1)` does. */
  function PrevDay(d: Date): (r: Date)
    requires ValidDate(d)
    ensures ValidDate(r)
  {
    if d.day > 1 then Date(d.year, d.month, d.day - 1)
    else if d.month > 0 then Date(d.year, d.month - 1, DaysInMonth(d.year, d.month - 1))
    else Date(d.year - 1, 11, 31)
  }

  lemma ValidDay(d: Date)
    requires ValidDate(d)
    ensures d.month == 11 ==> d.day <= 31 && DaysInMonth(d.year, 11) == 31
  {
  }

  /** Stepping forward counts one more day. */
  lemma NextDayNumber(d: Date)
    requires ValidDate(d)
    ensures DayNumber(NextDay(d)) == DayNumber(d) + 1
  {
    if d.day == DaysInMonth(d.year, d.month) && d.month == 11 {
      YearStep(d.year);
      MonthStep(d.year, 11);
    } else if d.day == DaysInMonth(d.year, d.month) {
      MonthStep(d.year, d.month);
    }
  }

  /** Stepping back counts one day less. */
  lemma PrevDayNumber(d: Date)
    requires ValidDate(d)
    ensures DayNumber(PrevDay(d)) == DayNumber(d) - 1
  {
    NextPrev(d);
    NextDayNumber(PrevDay(d));
  }

  /** `PrevDay` undoes `NextDay`. */
  lemma PrevNext(d: Date)
    requires ValidDate(d)
    ensures PrevDay(NextDay(d)) == d
  {
  }

  /** `NextDay` undoes `PrevDay`. */
  lemma NextPrev(d: Date)
    requires ValidDate(d)
    ensures NextDay(PrevDay(d)) == d
  {
  }

  /** Each day's weekday follows the previous one's. */
  lemma NextWeekday(d: Date)
    requires ValidDate(d)
    ensures Weekday(NextDay(d)) == (Weekday(d) + 1) % 7
  {
    NextDayNumber(d);
    ModSucc(DayNumber(d) + 4, 7);
  }

  /** Counting on by one commutes with taking the remainder. */
  lemma ModSucc(n: int, m: int)
    requires m > 0
    ensures (n + 1) % m == (n % m + 1) % m
  {
    var q, r := n / m, n % m;
    if r == m - 1 {
      ModUnique(n + 1, m, q + 1, 0);
      ModUnique(r + 1, m, 1, 0);
    } else {
      ModUnique(n + 1, m, q, r + 1);
      ModUnique(r + 1, m, 0, r + 1);
    }
  }

  /** The remainder is the one of any division with a remainder in range. */
  lemma ModUnique(x: int, m: int, q: int, r: int)
    requires m > 0 && x == m * q + r && 0 <= r < m
    ensures x % m == r && x / m == q
  {
    var q2, r2 := x / m, x % m;
    assert m * q2 + r2 == m * q + r;
    assert m * (q2 - q) == r - r2;
    ProductBound(m, q2 - q);
  }

  /** A multiple of `m` strictly between `-m` and `m` is zero times `m`. */
  lemma ProductBound(m: int, d: int)
    requires m > 0 && -m < m * d < m
    ensures d == 0
  {
    if d > 0 {
      ProductAtLeast(m, d);
    } else if d < 0 {
      ProductAtLeast(m, -d);
    }
  }

  lemma {:induction false} ProductAtLeast(m: int, d: int)
    requires m > 0 && d >= 1
    ensures m * d >= m
  {
    if d > 1 {
      ProductAtLeast(m, d - 1);
      assert m * d == m * (d - 1) + m;
    }
  }

  /** The date `k` days before `d`. */
  function Back(d: Date, k: nat): (r: Date)
    requires ValidDate(d)
    ensures ValidDate(r)
  {
    if k == 0 then d else PrevDay(Back(d, k - 1))
  }

  lemma {:induction false} BackNumber(d: Date, k: nat)
    requires ValidDate(d)
    ensures DayNumber(Back(d, k)) == DayNumber(d) - k
  {
    if k > 0 {
      BackNumber(d, k - 1);
      PrevDayNumber(Back(d, k - 1));
    }
  }

  /** Each year has at least 365 days. */
  lemma {:induction false} YearsSpan(a: int, b: int)
    requires a <= b
    ensures DaysBeforeYear(b) - DaysBeforeYear(a) >= 365 * (b - a)
    decreases b - a
  {
    if a < b {
      YearStep(a);
      YearsSpan(a + 1, b);
    }
  }

  /** Going back at most 3651 days stays within the eleven years before. */
  lemma BackYear(d: Date, k: nat)
    requires ValidDate(d) && k <= 3651
    ensures d.year - 11 <= Back(d, k).year <= d.year
  {
    var b := Back(d, k);
    BackNumber(d, k);
    if b.year > d.year {
      EarlierYear(d, b);
    } else if b.year < d.year - 11 {
      YearBounds(b);
      YearBounds(d);
      DaysBeforeYearMonotone(b.year + 1, d.year - 11);
      YearsSpan(d.year - 11, d.year);
    }
  }

  /** Valid dates with the same day number are the same date. */
  lemma DayNumberInjective(a: Date, b: Date)
    requires ValidDate(a) && ValidDate(b) && DayNumber(a) == DayNumber(b)
    ensures a == b
  {
    if a.year != b.year {
      if a.year < b.year { EarlierYear(a, b); } else { EarlierYear(b, a); }
    } else if a.month != b.month {
      if a.month < b.month { EarlierMonth(a, b); } else { EarlierMonth(b, a); }
    }
  }

  lemma EarlierYear(a: Date, b: Date)
    requires ValidDate(a) && ValidDate(b) && a.year < b.year
    ensures DayNumber(a) < DayNumber(b)
  {
    YearBounds(a);
    YearBounds(b);
    DaysBeforeYearMonotone(a.year + 1, b.year);
  }

  lemma EarlierMonth(a: Date, b: Date)
    requires ValidDate(a) && ValidDate(b) && a.year == b.year && a.month < b.month
    ensures DayNumber(a) < DayNumber(b)
  {
    DaysBeforeMonthMonotone(a.year, a.month, b.month);
  }

  /** A date's day number lies inside its own year. */
  lemma YearBounds(d: Date)
    requires ValidDate(d)
    ensures DaysBeforeYear(d.year) <= DayNumber(d) < DaysBeforeYear(d.year + 1)
  {
    YearStep(d.year);
    DaysBeforeMonthMonotone(d.year, d.month, 12);
    MonthStep(d.year, d.month);
  }

  lemma {:induction false} DaysBeforeYearMonotone(a: int, b: int)
    requires a <= b
    ensures DaysBeforeYear(a) <= DaysBeforeYear(b)
    decreases b - a
  {
    if a < b {
      YearStep(a);
      DaysBeforeYearMonotone(a + 1, b);
    }
  }

  lemma {:induction false} DaysBeforeMonthMonotone(year: int, a: int, b: int)
    requires 0 <= a <= b <= 12
    ensures DaysBeforeMonth(year, a) <= DaysBeforeMonth(year, b)
    ensures a < b ==> DaysBeforeMonth(year, a) + DaysInMonth(year, a) <= DaysBeforeMonth(year, b)
    decreases b - a
  {
    if a < b {
      MonthStep(year, a);
      DaysBeforeMonthMonotone(year, a + 1, b);
    }
  }

  /** The day of the year, 1 for the first of January: `floor((now - new Date(year, 0, 0)) / day)`. */
  function DayOfYear(d: Date): (n: int)
    requires ValidDate(d)
    ensures 1 <= n <= YearLength(d.year)
    ensures n == DayNumber(d) - DayNumber(Date(d.year, 0, 1)) + 1
  {
    DaysBeforeMonthMonotone(d.year, d.month, 12);
    MonthStep(d.year, d.month);
    DaysBeforeMonth(d.year, d.month) + d.day
  }

  // ----- the month helpers -----

  /** `getPrevMonth`. */
  function PrevMonth(ym: YearMonth): YearMonth
  {
    if ym.month == 0 then YearMonth(ym.year - 1, 11) else YearMonth(ym.year, ym.month - 1)
  }

  /** `getNextMonth`. */
  function NextMonth(ym: YearMonth): YearMonth
  {
    if ym.month == 11 then YearMonth(ym.year + 1, 0) else YearMonth(ym.year, ym.month + 1)
  }

  /** Months in order, the way the screen compares them: by year, then by month. */
  predicate MonthAfter(a: YearMonth, b: YearMonth)
  {
    a.year > b.year || (a.year == b.year && a.month > b.month)
  }

  /** The number of the month counted from January of year 0; consecutive months differ by one. */
  function MonthIndex(ym: YearMonth): int
  {
    12 * ym.year + ym.month
  }

  /** Stepping a valid month keeps it valid, `PrevMonth` and `NextMonth` undo each other, and the year changes only at the wrap. */
  lemma MonthSteps(ym: YearMonth)
    requires ValidMonth(ym)
    ensures ValidMonth(NextMonth(ym)) && ValidMonth(PrevMonth(ym))
    ensures PrevMonth(NextMonth(ym)) == ym && NextMonth(PrevMonth(ym)) == ym
    ensures MonthIndex(NextMonth(ym)) == MonthIndex(ym) + 1 && MonthIndex(PrevMonth(ym)) == MonthIndex(ym) - 1
    ensures NextMonth(ym).year != ym.year <==> ym.month == 11
    ensures PrevMonth(ym).year != ym.year <==> ym.month == 0
  {
  }

  /** For valid months the year-then-month comparison is the comparison of month numbers. */
  lemma MonthAfterIndex(a: YearMonth, b: YearMonth)
    requires ValidMonth(a) && ValidMonth(b)
    ensures MonthAfter(a, b) <==> MonthIndex(a) > MonthIndex(b)
  {
  }

  /** The weekday of the first of the month: `getFirstDayOfMonth`. */
  function FirstDayOfMonth(ym: YearMonth): (w: int)
    requires ValidMonth(ym)
    ensures 0 <= w < 7
  {
    Weekday(Date(ym.year, ym.month, 1))
  }

  /** The first of the next month comes `DaysInMonth` days after the first of this one. */
  lemma MonthLength(ym: YearMonth)
    requires ValidMonth(ym)
    ensures var n := NextMonth(ym);
      DayNumber(Date(n.year, n.month, 1)) - DayNumber(Date(ym.year, ym.month, 1)) == DaysInMonth(ym.year, ym.month)
  {
    MonthStep(ym.year, ym.month);
    if ym.month == 11 {
      YearStep(ym.year);
    }
  }

  // ----- date strings -----

  /**
   * The year as `toISOString` writes it: four digits, or a sign and six digits
   * outside 0..9999 (every year a JavaScript date can hold has at most six).
   */
  function YearString(year: int): string
  {
    if 0 <= year <= 9999 then Digits(year, 4)
    else (if year < 0 then "-" else "+") + Digits(if year < 0 then 0 - year else year, 6)
  }

  /** `date.toISOString().split('T')[0]` for a date whose local and UTC calendar days agree. */
  function DateString(d: Date): (s: string)
    requires ValidDate(d)
    ensures 0 <= d.year <= 9999 ==> |s| == 10 && s[4] == '-' && s[7] == '-'
  {
    YearString(d.year) + "-" + Digits(d.month + 1, 2) + "-" + Digits(d.day, 2)
  }

  /** The month and day are `padStart(2, '0')` of their numbers, and so is a four-digit year. */
  lemma DateStringPadded(d: Date)
    requires ValidDate(d)
    ensures DateString(d) == YearString(d.year) + "-" + ZeroPad(d.month + 1, 2) + "-" + ZeroPad(d.day, 2)
    ensures 0 <= d.year <= 9999 ==> YearString(d.year) == ZeroPad(d.year, 4)
  {
    DigitsZeroPad(d.month + 1, 2);
    DigitsZeroPad(d.day, 2);
    if 0 <= d.year <= 9999 {
      DigitsZeroPad(d.year, 4);
    }
  }

  /** `YYYY-MM-DD` read back to a date, or `None` where `new Date(s)` is an invalid date. */
  function ParseDate(s: string): (r: Option<Date>)
    ensures r.Some? ==> ValidDate(r.value)
  {
    if |s| == 10 && s[4] == '-' && s[7] == '-' && AllDigits(s[..4]) && AllDigits(s[5..7]) && AllDigits(s[8..]) then
      var y, m, d := DecimalValue(s[..4]), DecimalValue(s[5..7]), DecimalValue(s[8..]);
      if 1 <= m <= 12 && 1 <= d <= DaysInMonth(y, m - 1) then Some(Date(y, m - 1, d)) else None
    else None
  }

  /** Date strings of four-digit years read back to the date they were written from. */
  lemma ParseDateString(d: Date)
    requires ValidDate(d) && 0 <= d.year <= 9999
    ensures ParseDate(DateString(d)) == Some(d)
  {
    var s := DateString(d);
    var ys, ms, ds := Digits(d.year, 4), Digits(d.month + 1, 2), Digits(d.day, 2);
    DigitsSpec(d.year, 4);
    DigitsSpec(d.month + 1, 2);
    DigitsSpec(d.day, 2);
    assert s == ys + "-" + ms + "-" + ds;
    assert s[..4] == ys;
    assert s[5..7] == ms;
    assert s[8..] == ds;
  }

  /** Different dates of four-digit years are written differently. */
  lemma DateStringInjective(a: Date, b: Date)
    requires ValidDate(a) && ValidDate(b) && 0 <= a.year <= 9999 && 0 <= b.year <= 9999
    requires DateString(a) == DateString(b)
    ensures a == b
  {
    ParseDateString(a);
    ParseDateString(b);
  }

  /** `new Date(s)` for a date string: the day number of the date it names, or `None` for an invalid date. */
  function DayOf(s: string): Option<int>
  {
    match ParseDate(s)
    case Some(d) => Some(DayNumber(d))
    case None => None
  }

  /**
   * The string of a date reads back as its day number, the string of the
   * next day as one more, and no other string reads as that next day number.
   */
  lemma DayOfNext(d: Date)
    requires ValidDate(d) && 0 <= d.year && d.year + 1 <= 9999
    ensures DayOf(DateString(d)) == Some(DayNumber(d))
    ensures DayOf(DateString(NextDay(d))) == Some(DayNumber(d) + 1)
    ensures forall s :: DayOf(s) == Some(DayNumber(d) + 1) ==> ParseDate(s) == Some(NextDay(d))
  {
    ParseDateString(d);
    ParseDateString(NextDay(d));
    NextDayNumber(d);
    forall s | DayOf(s) == Some(DayNumber(d) + 1)
      ensures ParseDate(s) == Some(NextDay(d))
    {
      DayNumberInjective(ParseDate(s).value, NextDay(d));
    }
  }

}
