/**
 * The quote of the day shared by the Home and Manifest screens:
 * `quotesData[dayOfYear % quotesData.length]`, where `dayOfYear` counts the
 * days since the last day of the previous year, so that 1 January is day 1.
 */
module QuoteOfDay {
  import opened Wrappers
  import opened Calendar

  /**
   * The index of the day's quote in a list of `count` quotes, or `None` when
   * the list is empty (`x % 0` is `NaN`, and `quotesData[NaN]` is `undefined`).
   */
  function QuoteIndex(today: Date, count: nat): (r: Option<nat>)
    requires ValidDate(today)
    ensures r.Some? <==> count > 0
    ensures r.Some? ==> r.value < count
  {
    if count == 0 then None else Some(DayOfYear(today) % count)
  }

  /** Within a year, each day shows the quote after the previous day's, wrapping at the end of the list. */
  lemma QuoteIndexNextDay(today: Date, count: nat)
    requires ValidDate(today) && count > 0 && NextDay(today).year == today.year
    ensures QuoteIndex(NextDay(today), count).value == (QuoteIndex(today, count).value + 1) % count
  {
    NextDayNumber(today);
    assert DayOfYear(NextDay(today)) == DayOfYear(today) + 1;
    ModSucc(DayOfYear(today), count);
  }

  /** 1 January shows the quote at index `1 % count`, whatever the day before showed. */
  lemma QuoteIndexNewYear(today: Date, count: nat)
    requires ValidDate(today) && count > 0 && today.month == 0 && today.day == 1
    ensures QuoteIndex(today, count).value == 1 % count
  {
  }
}
