/**
 * The calendar half of the streak screen: the pair of months it shows side
 * by side, the arrows that move them, and the cells of one month's grid.
 */
module StreakView {
  import opened Wrappers
  import opened Calendar
  import Streak

  /** The month of a date. */
  function MonthOf(d: Date): YearMonth
  {
    YearMonth(d.year, d.month)
  }

  // ----- navigation -----

  /** The first of the two months the screen opens on: the month before today's. */
  function InitialView(today: Date): (first: YearMonth)
    requires ValidDate(today)
    ensures ValidMonth(first) && NextMonth(first) == MonthOf(today)
  {
    MonthSteps(MonthOf(today));
    PrevMonth(MonthOf(today))
  }

  /**
   * `forwardBlocked`: the month after the second one shown (the first shown is
   * `first`) lies after the current month `now`.
   */
  predicate Blocked(first: YearMonth, now: YearMonth)
  {
    var next := NextMonth(first);
    var next2 := NextMonth(next);
    next2.year > now.year || (next2.year == now.year && next2.month > now.month)
  }

  /** `goForward`: one month on, unless forward is blocked. */
  function Forward(first: YearMonth, now: YearMonth): (r: YearMonth)
    ensures Blocked(first, now) ==> r == first
    ensures !Blocked(first, now) ==> r == NextMonth(first)
  {
    if Blocked(first, now) then first else NextMonth(first)
  }

  /** The view never shows a month after the current one as its second month. */
  predicate InView(first: YearMonth, now: YearMonth)
  {
    ValidMonth(first) && ValidMonth(now) && !MonthAfter(NextMonth(first), now)
  }

  /** With the view in range, forward is blocked exactly when the second month shown is the current month. */
  lemma BlockedAtNow(first: YearMonth, now: YearMonth)
    requires InView(first, now)
    ensures Blocked(first, now) <==> NextMonth(first) == now
  {
    MonthSteps(first);
    MonthSteps(NextMonth(first));
    MonthAfterIndex(NextMonth(first), now);
    MonthAfterIndex(NextMonth(NextMonth(first)), now);
    if NextMonth(first) != now {
      assert MonthIndex(NextMonth(first)) != MonthIndex(now);
    }
  }

  /** Going back one month and then forward returns to the same view. */
  lemma ForwardUndoesBack(first: YearMonth, now: YearMonth)
    requires InView(first, now)
    ensures InView(PrevMonth(first), now)
    ensures Forward(PrevMonth(first), now) == first
  {
    MonthSteps(first);
    MonthSteps(PrevMonth(first));
    MonthAfterIndex(NextMonth(first), now);
    MonthAfterIndex(first, now);
  }

  /** Each arrow and the Today button keep the view in range. */
  lemma MovesStayInView(first: YearMonth, now: YearMonth)
    requires InView(first, now)
    ensures InView(Forward(first, now), now)
    ensures InView(PrevMonth(first), now)
  {
    MonthSteps(first);
    MonthSteps(NextMonth(first));
    MonthSteps(PrevMonth(first));
    MonthAfterIndex(NextMonth(NextMonth(first)), now);
    MonthAfterIndex(NextMonth(first), now);
    MonthAfterIndex(first, now);
  }

  /**
   * The screen's view state: the first of the two months shown
   * (`viewYear`, `viewMonth`) and the day the screen reads as today.
   */
  class MonthPager {
    var viewYear: int
    var viewMonth: int
    const today: Date

    ghost predicate Valid()
      reads this
    {
      ValidDate(today) && InView(First(), MonthOf(today))
    }

    function First(): YearMonth
      reads this
    {
      YearMonth(viewYear, viewMonth)
    }

    /** The second month shown: `getNextMonth(m1Year, m1Month)`. */
    function Second(): YearMonth
      reads this
    {
      NextMonth(First())
    }

    predicate ForwardBlocked()
      reads this
    {
      Blocked(First(), MonthOf(today))
    }

    /** The initial state: the previous month and the current month. */
    constructor(today: Date)
      requires ValidDate(today)
      ensures this.today == today && Valid()
      ensures First() == InitialView(today) && Second() == MonthOf(today)
    {
      this.today := today;
      viewMonth := if today.month == 0 then 11 else today.month - 1;
      viewYear := if today.month == 0 then today.year - 1 else today.year;
      new;
      MonthSteps(InitialView(today));
      MonthAfterIndex(MonthOf(today), MonthOf(today));
    }

    /** `goBack`: one month back, never blocked. */
    method GoBack()
      requires Valid()
      modifies this
      ensures Valid()
      ensures First() == PrevMonth(old(First()))
    {
      MovesStayInView(First(), MonthOf(today));
      var prev := PrevMonth(First());
      viewYear := prev.year;
      viewMonth := prev.month;
    }

    /** `goForward`: one month on, or nothing when forward is blocked. */
    method GoForward()
      requires Valid()
      modifies this
      ensures Valid()
      ensures First() == Forward(old(First()), MonthOf(today))
      ensures old(ForwardBlocked()) ==> First() == old(First())
    {
      MovesStayInView(First(), MonthOf(today));
      var next := NextMonth(First());
      var next2 := NextMonth(next);
      if next2.year > today.year || (next2.year == today.year && next2.month > today.month) {
        return;
      }
      viewYear := next.year;
      viewMonth := next.month;
    }

    /** `goToNow`: back to the previous month and the current month. */
    method GoToNow()
      requires Valid()
      modifies this
      ensures Valid()
      ensures First() == InitialView(today) && Second() == MonthOf(today)
    {
      var prev := PrevMonth(MonthOf(today));
      viewYear := prev.year;
      viewMonth := prev.month;
      MonthSteps(InitialView(today));
      MonthAfterIndex(MonthOf(today), MonthOf(today));
    }
  }

  // ----- the cells of one month -----

  /** `isToday` for day `d` of month `ym`. */
  predicate IsToday(ym: YearMonth, d: int, today: Date)
  {
    d == today.day && ym.month == today.month && ym.year == today.year
  }

  /** `isFuture`: (year, month, day) compared with today, field by field. */
  predicate IsFuture(ym: YearMonth, d: int, today: Date)
  {
    ym.year > today.year ||
    (ym.year == today.year && ym.month > today.month) ||
    (ym.year == today.year && ym.month == today.month && d > today.day)
  }

  /**
   * A day is today exactly when it is the same date, in the future exactly
   * when it comes later in the calendar, and never both.
   */
  lemma TodayAndFuture(ym: YearMonth, d: int, today: Date)
    requires ValidMonth(ym) && 1 <= d <= DaysInMonth(ym.year, ym.month) && ValidDate(today)
    ensures IsToday(ym, d, today) <==> Date(ym.year, ym.month, d) == today
    ensures IsFuture(ym, d, today) <==> DayNumber(Date(ym.year, ym.month, d)) > DayNumber(today)
    ensures !(IsToday(ym, d, today) && IsFuture(ym, d, today))
  {
    var x := Date(ym.year, ym.month, d);
    if x.year > today.year {
      EarlierYear(today, x);
    } else if x.year < today.year {
      EarlierYear(x, today);
    } else if x.month > today.month {
      EarlierMonth(today, x);
    } else if x.month < today.month {
      EarlierMonth(x, today);
    }
  }

  datatype Cell =
    | Empty(index: nat)
    | DayCell(day: int, isToday: bool, isFuture: bool, tasks: Option<Streak.Tasks>)

  /** The cell of day `d`: `data[day] || null` for its tasks. */
  function CellOf(ym: YearMonth, d: int, data: map<int, Streak.Tasks>, today: Date): Cell
  {
    DayCell(d, IsToday(ym, d, today), IsFuture(ym, d, today), if d in data then Some(data[d]) else None)
  }

  /**
   * `MiniMonth`'s cells: one empty cell per weekday before the first of the
   * month, then one cell per day.
   */
  method MiniMonthCells(ym: YearMonth, data: map<int, Streak.Tasks>, today: Date) returns (cells: seq<Cell>)
    requires ValidMonth(ym) && ValidDate(today)
    ensures |cells| == FirstDayOfMonth(ym) + DaysInMonth(ym.year, ym.month)
    ensures forall i :: 0 <= i < FirstDayOfMonth(ym) ==> cells[i] == Empty(i)
    ensures forall d :: 1 <= d <= DaysInMonth(ym.year, ym.month) ==>
              cells[FirstDayOfMonth(ym) + d - 1] == CellOf(ym, d, data, today)
  {
    var firstDay := FirstDayOfMonth(ym);
    var dim := DaysInMonth(ym.year, ym.month);
    cells := [];
    var i := 0;
    while i < firstDay
      invariant 0 <= i <= firstDay && |cells| == i
      invariant forall k :: 0 <= k < i ==> cells[k] == Empty(k)
    {
      cells := cells + [Empty(i)];
      i := i + 1;
    }
    var day := 1;
    while day <= dim
      invariant 1 <= day <= dim + 1 && |cells| == firstDay + day - 1
      invariant forall k :: 0 <= k < firstDay ==> cells[k] == Empty(k)
      invariant forall d :: 1 <= d < day ==> cells[firstDay + d - 1] == CellOf(ym, d, data, today)
    {
      var isToday := day == today.day && ym.month == today.month && ym.year == today.year;
      var isFuture := (ym.year > today.year) ||
        (ym.year == today.year && ym.month > today.month) ||
        (ym.year == today.year && ym.month == today.month && day > today.day);
      var tasks := if day in data then Some(data[day]) else None;
      cells := cells + [DayCell(day, isToday, isFuture, tasks)];
      day := day + 1;
    }
  }

  /** In a seven-column grid the cell of day `d` falls in the column of its weekday. */
  lemma {:induction false} ColumnIsWeekday(ym: YearMonth, d: int)
    requires ValidMonth(ym) && 1 <= d <= DaysInMonth(ym.year, ym.month)
    ensures (FirstDayOfMonth(ym) + d - 1) % 7 == Weekday(Date(ym.year, ym.month, d))
  {
    if d > 1 {
      ColumnIsWeekday(ym, d - 1);
      var prev := Date(ym.year, ym.month, d - 1);
      assert NextDay(prev) == Date(ym.year, ym.month, d);
      NextWeekday(prev);
      ModSucc(FirstDayOfMonth(ym) + d - 2, 7);
    }
  }
}
