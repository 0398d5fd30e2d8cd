# MAGIC Tracker — a verified model of the app's core

MAGIC Tracker is a React Native app for a daily creative practice. "MAGIC" stands for five
daily tasks: **M**anifest (a journal entry), **A**rt (timed art practice), **G**oal (a growth
goal), **I**nspire (ranking other people's art) and **C**ourage (posting art in public). All
state lives in the device's key-value store (AsyncStorage) as text, mostly JSON. This
project models the parts of the app that compute something from that store or change it:

- the Grow screen (`screens/StreakScreen.js`): the five-point star for each calendar day,
  the two-month calendar pager, the current and longest streaks, and the goal counters;
- the Manifest screen (`screens/ManifestScreen.js`): today's entry saved and reloaded, past
  entries newest first, the entry search, and hearting quotes;
- the Art screen (`screens/ArtScreen.js`): the 20-minute countdown, the weekly stopwatch and
  its week-start reset, the day's challenge, and the time formats;
- the Home screen (`screens/HomeScreen.js`): the quote of the day, the star row, the hearts
  and the artwork browser;
- the Quotes screen (`screens/QuotesScreen.js`): favourite quotes loaded and searched;
- both settings screens (`screens/SettingsScreen.js` and `screens/menu-pages/SettingsScreen.js`),
  which share one `app_settings` JSON object;
- the data import script (`update-data.js`), which turns spreadsheet rows into the quotes,
  prompts, ranking criteria and art mediums the app ships with.

The modules:

| module | file | what it holds |
|---|---|---|
| `Wrappers` | wrappers.dfy | `Option` |
| `Seqs` | seqs.dfy | subsequences, `filter`, counting, distinctness |
| `Text` | text.dfy | JavaScript `trim`, ASCII case mapping, `includes`, decimal text, `parseInt` |
| `StringOrder` | order.dfy | the default `Array.prototype.sort` order on strings, and a sort |
| `Json` | json.dfy | JSON values, objects with insertion order, `JSON.stringify` and `JSON.parse` |
| `Storage` | storage.dfy | the key-value store, `getItem`, `getAllKeys` and prefix filters |
| `Calendar` | calendar.dfy | dates, day numbers, weekdays, months, `YYYY-MM-DD` strings |
| `QuoteOfDay` | daily_quote.dfy | the day-of-year index shared by Home, Manifest and Art |
| `Streak` | streak.dfy | the day's tasks, the month's calendar data, the streak statistics |
| `StreakView` | streak_view.dfy | the month pager and the month grid |
| `Manifest` | manifest.dfy | the Manifest screen |
| `Art` | art.dfy | the Art screen |
| `Home` | home.dfy | the Home screen |
| `Quotes` | quotes.dfy | the Quotes screen |
| `AppSettings` | app_settings.dfy | the shared `app_settings` entry |
| `Preferences` | preferences.dfy | `screens/SettingsScreen.js` |
| `MenuSettings` | menu_settings.dfy | `screens/menu-pages/SettingsScreen.js` |
| `DataImport` | data_import.dfy | `update-data.js` |

The screens' component state is modelled by a class per screen (`ManifestScreen`,
`ArtStudio`, `MonthPager` and the two `SettingsScreen`s). Each class has a field for each
piece of state the screen keeps and a field `store` for the key-value store. Each
`setState` call and each store write is an assignment in a method. Everything the screens
only compute is modelled as functions, with lemmas about them.

The store is a `map<string, string>`. `JSON.parse` and `JSON.stringify` are a codec of
their own (`Json.Parse`, `Json.Stringify`), and `Json.ParseStringify` proves the round
trip. Numbers in JSON keep their text. Objects keep their members in insertion order, and
when a key repeats the last one wins, as in JavaScript. A `catch` that swallows an error is
modelled as `None` (an `Option`) or as "state unchanged", depending on where the source
catches it.

The clock is a parameter. "Today" is a date passed in. `new Date(ds)` on a date string is
the abstract `dayOf`, a function from a string to its day number: `Calendar.DayOf` where
the model fixes one. The description-detecting regular expressions in `update-data.js` are
the abstract parameter `describe`.

## Model

| member | source | states |
|---|---|---|
| Calendar.DaysInMonth | screens/StreakScreen.js:100 | a month has 28 to 31 days; February has 29 exactly in leap years |
| Calendar.MonthStep | screens/StreakScreen.js:100 | the days before month m+1 are the days before m plus the length of m; the 12 months make up the year |
| Calendar.NextDay | screens/StreakScreen.js:306 | the day after a valid date is a valid date |
| Calendar.PrevDay | screens/StreakScreen.js:306 | the day before a valid date is a valid date (`setDate(getDate() - 1)`) |
| Calendar.NextDayNumber | screens/StreakScreen.js:311 | stepping one day forward increases the day number by exactly one |
| Calendar.PrevDayNumber | screens/StreakScreen.js:311 | stepping one day back decreases the day number by exactly one |
| Calendar.PrevNext | screens/StreakScreen.js:311 | going one day forward then back returns to the same date |
| Calendar.NextPrev | screens/StreakScreen.js:311 | going one day back then forward returns to the same date |
| Calendar.Weekday | screens/StreakScreen.js:101 | `getDay` is a weekday 0 (Sunday) to 6 |
| Calendar.NextWeekday | screens/StreakScreen.js:101 | the next day's weekday is the following weekday, mod 7 |
| Calendar.Back | screens/StreakScreen.js:311 | stepping back k days from a valid date gives a valid date |
| Calendar.BackNumber | screens/StreakScreen.js:311 | stepping back k days lowers the day number by k |
| Calendar.BackYear | screens/StreakScreen.js:308 | within the 3650-step streak window, the year drops by at most 11 |
| Calendar.DayNumberInjective | screens/StreakScreen.js:320 | two valid dates with the same day number are the same date |
| Calendar.EarlierYear | screens/StreakScreen.js:186 | a date in an earlier year has a smaller day number |
| Calendar.EarlierMonth | screens/StreakScreen.js:187 | a date in an earlier month of the same year has a smaller day number |
| Calendar.DayOfYear | screens/ManifestScreen.js:38 | the day of the year lies in 1..year length, and is the day count since the 0th of January |
| Calendar.MonthSteps | screens/StreakScreen.js:103-111 | `getPrevMonth` and `getNextMonth` undo each other, move the month index by one, and change the year exactly at December and January |
| Calendar.MonthAfterIndex | screens/StreakScreen.js:374-375 | the "later month" comparison is the comparison of month indexes |
| Calendar.FirstDayOfMonth | screens/StreakScreen.js:101 | the weekday of the 1st is 0..6 |
| Calendar.MonthLength | screens/StreakScreen.js:100 | from the 1st of a month to the 1st of the next is that month's number of days |
| Calendar.DateString | screens/StreakScreen.js:93 | `toISOString().split('T')[0]` is ten characters `YYYY-MM-DD` for years 0..9999 |
| Calendar.DateStringPadded | screens/StreakScreen.js:93 | the date string is the year, the 1-based month and the day, zero-padded and joined by `-` |
| Calendar.ParseDateString | screens/ManifestScreen.js:86 | `new Date` reads a date string back as the same date |
| Calendar.DateStringInjective | screens/StreakScreen.js:309 | different dates have different date strings |
| Calendar.DayOfNext | screens/StreakScreen.js:320 | a date string's day number, and the next day's, differ by exactly one; a string read as the next day is the next day |
| Calendar.ParseDate | screens/StreakScreen.js:320 | a date string that reads as a date reads as a valid date |
| QuoteOfDay.QuoteIndex | screens/HomeScreen.js:31-32 | the quote index exists exactly when there are quotes, and is below their count |
| QuoteOfDay.QuoteIndexNextDay | screens/ManifestScreen.js:38-39 | within a year, the next day's quote is the next quote, wrapping around |
| QuoteOfDay.QuoteIndexNewYear | screens/ArtScreen.js:90-91 | on the 1st of January the index is 1 mod the count |
| Streak.PublicArtworks | screens/StreakScreen.js:119-120 | with no `public_artworks` text the artworks are the empty list, otherwise the parsed text |
| Streak.DayTasksSpec | screens/StreakScreen.js:130-154 | the goal point implies the manifest point; inspire holds exactly when `ranked_<date>` is `true`; courage holds exactly when some public artwork is dated that day |
| Streak.DayTasksThrows | screens/StreakScreen.js:154 | a day's tasks fail exactly when the artworks are not an array, or a `null` artwork comes before any artwork dated that day |
| Streak.AllCompleteMeans | screens/StreakScreen.js:33 | the full star shows exactly when the goal, art and inspire tasks are done and courage holds |
| Streak.WeeklyArtCoversWeek | screens/StreakScreen.js:142-149 | a positive weekly art time marks art on every one of the last 7 days |
| Streak.ArtOutsideWeek | screens/StreakScreen.js:140-146 | a day 7 or more days ago has the art point exactly when its own `art_time_<date>` is positive |
| Streak.RecordStep | screens/StreakScreen.js:155-165 | recording a day keeps every earlier day recorded, and adds the day exactly when it has some task |
| Streak.LoadMonthData | screens/StreakScreen.js:114-172 | the month's data holds exactly the days, up to the first throw, that have some task, each with that day's tasks |
| Streak.RecordedUpTo | screens/StreakScreen.js:123-171 | after the last day or a throw, the recorded days are the month's data as `LoadMonthData` states it |
| Streak.KeyDates | screens/StreakScreen.js:297-298 | every key with the prefix gives its date, and every date comes from such a key |
| Streak.ArtworkDates | screens/StreakScreen.js:299 | the artworks' dates fail exactly when an artwork is `null`; otherwise they are the non-empty string dates that some artwork carries (other truthy dates: see Left out) |
| Streak.CollectArtworkDates | screens/StreakScreen.js:299 | the loop over the artworks computes `ArtworkDates` |
| Streak.CollectActiveDates | screens/StreakScreen.js:290-299 | the active dates are the manifest days, ranked days and string artwork dates, and failing nothing means the artworks were an array |
| Streak.StreakStart | screens/StreakScreen.js:303-307 | the streak starts today if today is active, otherwise yesterday |
| Streak.CurrentStreak | screens/StreakScreen.js:301-313 | the current streak is the run of consecutive active days back from the start, capped at 3650; it is 0 exactly when neither today nor yesterday is active |
| Streak.RunEndsAtBound | screens/StreakScreen.js:319-322 | a run ending at j is no longer than the run length counted at j |
| Streak.RunEndsAtExtend | screens/StreakScreen.js:321 | a date one day after the previous one extends the run by one |
| Streak.RunEndsAtRestart | screens/StreakScreen.js:322 | any other gap restarts the run at length 1 |
| Streak.RunAfterEmpty | screens/StreakScreen.js:319-323 | an empty date string, as `prevDate`, counts as no previous date and the run restarts at 1 |
| Streak.RunLinks | screens/StreakScreen.js:321 | inside a run every neighbour is the next day |
| Streak.LongestStep | screens/StreakScreen.js:322 | after each date the largest run so far bounds every run seen |
| Streak.LongestStreak | screens/StreakScreen.js:315-326 | the longest streak is the length of the longest run of consecutive days in the sorted dates |
| Streak.CountGoalsSet | screens/StreakScreen.js:329-341 | goals set counts the manifest keys whose entry has a non-blank growth goal |
| Streak.CountGoalsMet | screens/StreakScreen.js:343-347 | goals met counts the acknowledgement keys whose value is `yes` |
| Streak.Streaks | screens/StreakScreen.js:301-326 | the current streak and the longest run over the active dates sorted as strings |
| Streak.LoadStreakStats | screens/StreakScreen.js:288-363 | the statistics exist exactly when the active dates do, and each counter is what the screen promises: streaks, active days, manifest days, art days 0, goals set (at most the manifest days) and met, inspire days, courage posts |
| Streak.StreakDaysCount | screens/StreakScreen.js:308-313 | for a start in the years 11 to 9999 and at most 3651 steps, n steps back from the start give n distinct date strings |
| Streak.StreakDaysSplit | screens/StreakScreen.js:309-311 | the streak's days grow by one date string per step |
| Streak.StreakDaysFresh | screens/StreakScreen.js:311 | for a start in the years 11 to 9999 and at most 3650 steps, stepping back never revisits a date string |
| Streak.SameDayString | screens/StreakScreen.js:309 | for a start in the years 11 to 9999 and steps up to 3650, two different steps back give different date strings |
| Streak.CurrentStreakAtMostActive | screens/StreakScreen.js:352 | when today is in the years 12 to 9999, the current streak is never more than the number of active days |
| Streak.GoalPct | screens/StreakScreen.js:400-402 | the goal percentage is `goalsMet / goalsSet * 100` rounded half up, and 0 with no goals set |
| Streak.GoalPctBound | screens/StreakScreen.js:400-402 | with no more goals met than set, the percentage is at most 100 |
| StreakView.InitialView | screens/StreakScreen.js:243-248 | the first month shown is last month, so the second is this month |
| StreakView.Forward | screens/StreakScreen.js:371-378 | moving forward is blocked, and changes nothing, exactly when the second month would pass this month |
| StreakView.BlockedAtNow | screens/StreakScreen.js:386-389 | in the reachable views, forward is blocked exactly when the second month is this month |
| StreakView.ForwardUndoesBack | screens/StreakScreen.js:365-378 | going back then forward returns to the same view |
| StreakView.MovesStayInView | screens/StreakScreen.js:365-378 | the arrows never show a month after this one |
| StreakView.MonthPager.constructor | screens/StreakScreen.js:243-248 | the pager starts on last month and this month |
| StreakView.MonthPager.GoBack | screens/StreakScreen.js:365-369 | the back arrow shows the previous month first |
| StreakView.MonthPager.GoForward | screens/StreakScreen.js:371-378 | the forward arrow moves one month unless blocked, and then changes nothing |
| StreakView.MonthPager.GoToNow | screens/StreakScreen.js:380-384 | the "now" button shows last month and this month |
| StreakView.TodayAndFuture | screens/StreakScreen.js:185-188 | a cell is today exactly when it is today's date, and future exactly when its day number is after today's; never both |
| StreakView.MiniMonthCells | screens/StreakScreen.js:175-190 | the grid is one empty cell per weekday before the 1st, then one cell per day with that day's flags and tasks |
| StreakView.ColumnIsWeekday | screens/StreakScreen.js:13 | the column of a day cell is that day's weekday |
| Manifest.FieldText | screens/ManifestScreen.js:64-67 | a loaded field is the stored string, or `''` when there is none |
| Manifest.SaveLoadRoundTrip | screens/ManifestScreen.js:136-147 | an entry saved is loaded back with the same four fields |
| Manifest.EntryWellFormed | screens/ManifestScreen.js:139-145 | the saved entry is a JSON object with distinct keys |
| Manifest.EntryTexts | screens/ManifestScreen.js:139-145 | each saved field holds the text typed |
| Manifest.LoadedEntryDefaults | screens/ManifestScreen.js:64-67 | a field missing from the stored entry loads as `''` |
| Manifest.PastEntryDate | screens/ManifestScreen.js:82-85 | a past entry's `date` is its key without the `manifest_` prefix when the stored object has no `date` of its own |
| Manifest.ParsedEntries | screens/ManifestScreen.js:79-85 | the past entry list has one entry per manifest key, and fails exactly when some stored text is not JSON |
| Manifest.EntryDays | screens/ManifestScreen.js:86 | an entry's sort day is its text `date` read as a day (other `date` values: see Left out) |
| Manifest.InsertNewest | screens/ManifestScreen.js:86 | inserting keeps every entry and adds the new one |
| Manifest.SortNewestFirst | screens/ManifestScreen.js:86 | sorting is a permutation |
| Manifest.InsertNewestSorted | screens/ManifestScreen.js:86 | inserting a dated entry keeps the list newest first |
| Manifest.AppendOlder | screens/ManifestScreen.js:86 | appending an entry no newer than the rest keeps the list newest first |
| Manifest.SortNewestFirstSorted | screens/ManifestScreen.js:86 | sorting dated entries puts them newest first |
| Manifest.PastEntriesSpec | screens/ManifestScreen.js:75-92 | the past entries are a permutation of the parsed entries, one per manifest key |
| Manifest.PastEntriesNewestFirst | screens/ManifestScreen.js:86 | when every entry's date reads as a date, the past entries are newest first |
| Manifest.FilteredEntriesSpec | screens/ManifestScreen.js:167-177 | the filter throws exactly when some entry's test throws, and otherwise keeps the entries whose test holds |
| Manifest.SearchSpec | screens/ManifestScreen.js:167-177 | an empty search keeps all entries; otherwise the search throws exactly when some entry's test throws, and when it does not it keeps exactly the matching entries, in order |
| Manifest.EntryTestMeaning | screens/ManifestScreen.js:168-176 | a test that does not throw holds exactly when the lower-cased search is in a lower-cased text input, or in the date as a text or as an array item |
| Manifest.EntryTestThrows | screens/ManifestScreen.js:171-175 | a test throws only for a non-empty search, and only when a text input is neither a text nor `null` nor missing, or the date is neither a text nor an array |
| Manifest.GrowthGoalThrows | screens/ManifestScreen.js:171 | a `growthGoal` that is neither a text nor `null` nor missing makes every non-empty search throw |
| Manifest.MatchesText | screens/ManifestScreen.js:171-174 | a text input containing the search, ignoring case, makes the entry match; its test then never answers no, and keeps the entry when no text input tried before it throws |
| Manifest.SavedEntrySearchable | screens/ManifestScreen.js:82-85 | an entry saved by `saveEntry` and loaded back never makes the search throw |
| Manifest.SearchIgnoresCase | screens/ManifestScreen.js:169 | searches that differ only in letter case give the same result, throwing included |
| Manifest.HeartedCopyText | screens/ManifestScreen.js:120 | the stored copy of a hearted quote has the quote's text |
| Manifest.ToggleThrows | screens/ManifestScreen.js:115-120 | toggling fails exactly when the saved list holds `null` |
| Manifest.ToggleFlips | screens/ManifestScreen.js:115-121 | toggling flips whether the quote is hearted, as `===` compares texts; a quote whose text is an object or an array is never hearted |
| Manifest.ToggleKeepsOthers | screens/ManifestScreen.js:117-121 | unhearting removes exactly the entries with that text and keeps the order; where no saved quote matches by `===`, one copy is appended |
| Manifest.ToggleTwice | screens/ManifestScreen.js:111-124 | hearting then unhearting a quote restores the saved list; where the text is an object or an array the second toggle appends a second copy |
| Manifest.ManifestScreen.constructor | screens/ManifestScreen.js:29-40 | the screen starts with empty fields, no past entries, no hearts, and today's quote of the day |
| Manifest.ManifestScreen.SaveEntry | screens/ManifestScreen.js:136-153 | saving writes `manifest_<today>`, which loads back as the form, and changes nothing else |
| Manifest.ManifestScreen.LoadTodayEntry | screens/ManifestScreen.js:58-72 | a stored entry for today fills the form; otherwise the form is unchanged |
| Manifest.ManifestScreen.LoadPastEntries | screens/ManifestScreen.js:75-92 | the past entries become the sorted list, or stay as they were on an error |
| Manifest.ManifestScreen.LoadHeartedQuotes | screens/ManifestScreen.js:95-108 | the stored list replaces the hearted quotes, and today's heart shows whether `some` finds today's text by `===` |
| Manifest.ManifestScreen.ToggleHeartQuote | screens/ManifestScreen.js:111-133 | the toggled list is stored and shown; when the quote is today's, the heart shows the opposite of whether it was found, which for a text quote is whether it is hearted now |
| Art.JsRem | screens/ArtScreen.js:172 | `%` keeps the sign of the dividend, as in JavaScript |
| Art.Pad2Digits | screens/ArtScreen.js:173 | `padStart(2, '0')` writes the number in at least two digits |
| Art.FormatTimeSpec | screens/ArtScreen.js:170-174 | `MM:SS` shows the minutes and seconds of the count, two digits each below 100 minutes |
| Art.MinutesShown | screens/ArtScreen.js:173 | two digit strings joined by a colon, the second below 60, show the minutes and seconds they spell |
| Art.StopwatchParts | screens/ArtScreen.js:177-179 | hours, minutes and seconds recompose the count, with minutes and seconds below 60 |
| Art.FormatStopwatchSpec | screens/ArtScreen.js:176-181 | `HH:MM:SS` reads back as the count, eight characters below 100 hours |
| Art.FormatTimeStart | screens/ArtScreen.js:16 | the countdown starts at `20:00` |
| Art.Countdown | screens/ArtScreen.js:113-121 | each tick lowers the countdown by one and stops at 0 |
| Art.CountdownTicks | screens/ArtScreen.js:113-121 | after k ticks the countdown shows `start - k`, or 0 |
| Art.CountdownLasts | screens/ArtScreen.js:16 | the countdown reaches 0 after exactly 1200 ticks |
| Art.WeekStart | screens/ArtScreen.js:62-68 | the week start of a valid date is a valid date |
| Art.MondayGap | screens/ArtScreen.js:65 | the days back to Monday are `(weekday + 6) mod 7`, at most 6 |
| Art.BackToMonday | screens/ArtScreen.js:65 | stepping back that gap lands on weekday 1 |
| Art.WeekStartSpec | screens/ArtScreen.js:62-68 | the week starts on the Monday on or before the date; a Sunday belongs to the week before |
| Art.BackFromNext | screens/ArtScreen.js:65-66 | stepping back k+1 days from tomorrow is stepping back k from today |
| Art.WeekStartSameWeek | screens/ArtScreen.js:62-68 | from Monday to Saturday, the next day has the same week start |
| Art.WeekStartIdempotent | screens/ArtScreen.js:62-68 | a Monday is its own week start |
| Art.LoadWeekly | screens/ArtScreen.js:42-59 | a new week stores its start and shows 0; only the week start entry changes |
| Art.WeeklyTimeReloads | screens/ArtScreen.js:53-54 | within a week, a stored time is the time loaded next |
| Art.WeeklyGoalAfterReload | screens/ArtScreen.js:220 | `weeklyGoalMet`: after a reload within the week the goal badge shows exactly when the stored weekly time is at least 7200 seconds; an unreadable time never meets it |
| Art.StaleWeeklyTimeReturns | screens/ArtScreen.js:49-55 | a new week shows 0 but keeps last week's time, which comes back on the next load |
| Art.CorrectedReloadIsStable | screens/ArtScreen.js:49-55 | with the new week's 0 stored, reloading in the same week shows 0 and changes nothing |
| Art.LoadChallenge | screens/ArtScreen.js:80-97 | today's stored challenge is reused; otherwise the day's prompt is chosen and stored with today's date |
| Art.ChallengeStable | screens/ArtScreen.js:80-97 | loading the challenge again the same day gives the same challenge |
| Art.ChallengeSource | screens/ArtScreen.js:86-96 | the challenge is a prompt, or the one stored for today |
| Art.ArtStudio.constructor | screens/ArtScreen.js:16-24 | the screen starts at 20 minutes, weekly time 0, nothing running, no challenge |
| Art.ArtStudio.LoadWeeklyTime | screens/ArtScreen.js:42-59 | the store and the weekly time become `LoadWeekly`'s, for the current week's Monday |
| Art.ArtStudio.LoadDailyChallenge | screens/ArtScreen.js:80-103 | the store and the challenge become `LoadChallenge`'s |
| Art.ArtStudio.ToggleDailyTimer | screens/ArtScreen.js:106-124 | the countdown starts or pauses |
| Art.ArtStudio.DailyTick | screens/ArtScreen.js:113-121 | one tick counts down and stops the timer at 0 |
| Art.ArtStudio.ResetDailyTimer | screens/ArtScreen.js:126-130 | reset stops the countdown at 20 minutes |
| Art.ArtStudio.ToggleWeeklyStopwatch | screens/ArtScreen.js:133-147 | the stopwatch starts, or stops and stores its time |
| Art.ArtStudio.WeeklyTick | screens/ArtScreen.js:141-144 | one tick adds a second |
| Art.ArtStudio.ResetWeeklyStopwatch | screens/ArtScreen.js:158-163 | reset stops the stopwatch and stores 0 |
| Home.Stars | screens/HomeScreen.js:63-69 | the star row has 20 stars, each with its size and fill |
| Home.StarSizesGrow | screens/HomeScreen.js:66 | the stars grow from left to right, from 10 to 32 |
| Home.FilledStars | screens/HomeScreen.js:67 | 16 stars are filled: the first 15 and the 19th |
| Home.CountFilled | screens/HomeScreen.js:67 | the filled stars among the first n stars |
| Home.Initial | screens/HomeScreen.js:22-34 | the screen starts with no hearts, the first artwork, and the quote of the day (`QuoteIndex` of today) when there are quotes |
| Home.PressQuoteHeart | screens/HomeScreen.js:89 | the quote heart flips and nothing else changes |
| Home.PressGoalHeart | screens/HomeScreen.js:105 | the goal heart flips and nothing else changes |
| Home.PreviousImage | screens/HomeScreen.js:132 | the previous arrow moves back one artwork, never below the first |
| Home.NextImage | screens/HomeScreen.js:143 | the next arrow moves forward one artwork |
| Home.HeartsToggleBack | screens/HomeScreen.js:89-105 | pressing a heart twice restores the screen |
| Home.PreviousUndoesNext | screens/HomeScreen.js:132-143 | next then previous returns to the same artwork |
| Home.BrowseInRange | screens/HomeScreen.js:132-143 | any sequence of presses keeps the artwork index at least 0 and at most the number of next presses ahead |
| Quotes.LoadedFavorites | screens/QuotesScreen.js:20-29 | stored favourites that parse replace the list; otherwise the list is kept |
| Quotes.FavoritesRoundTrip | screens/QuotesScreen.js:22-24 | a list stored as JSON is loaded back as it was |
| Quotes.FilterQuotesSpec | screens/QuotesScreen.js:31-34 | the filter fails exactly when some quote's test fails, and otherwise keeps the quotes that pass |
| Quotes.QuoteTestMeaning | screens/QuotesScreen.js:32-33 | a quote passes exactly when its text or author contains the search, ignoring case |
| Quotes.SearchSpec | screens/QuotesScreen.js:31-34 | the search keeps exactly the matching favourites, in order |
| Quotes.SearchThrows | screens/QuotesScreen.js:31-34 | the search fails exactly when a favourite lacks the text or author it needs |
| Quotes.EmptyQueryKeepsAll | screens/QuotesScreen.js:31-34 | an empty search keeps every favourite |
| Quotes.SearchIgnoresCase | screens/QuotesScreen.js:32-33 | searches that differ only in letter case give the same result |
| Quotes.EmptyMessage | screens/QuotesScreen.js:64-71 | a message shows exactly when no quote is listed |
| Quotes.NoFavoritesMessage | screens/QuotesScreen.js:64-71 | with an empty search, "No favorite quotes yet" shows exactly when there are no favourites |
| AppSettings.StartingSettings | screens/SettingsScreen.js:38-39 | saving starts from `{}` when nothing is stored, otherwise from the parsed text |
| AppSettings.SavedSettings | screens/SettingsScreen.js:36-45 | saving writes only `app_settings`, and writes nothing when the stored text does not parse or is not an object or array |
| AppSettings.SaveSettings | screens/SettingsScreen.js:36-45 | the save step by step computes `SavedSettings` |
| AppSettings.StoredSettings | screens/SettingsScreen.js:22-34 | the settings read are the parsed non-`null` entry, and exist exactly when there is one |
| AppSettings.Setting | screens/SettingsScreen.js:27-29 | `data.key ?? default` is the stored value unless it is missing or `null` |
| AppSettings.SaveThenRead | screens/SettingsScreen.js:36-45 | saving a setting on a stored object sets that member and keeps the others |
| AppSettings.SavedSettingReloads | screens/SettingsScreen.js:22-45 | a switch saved and reloaded shows the value saved |
| AppSettings.FirstSave | screens/SettingsScreen.js:39-41 | the first save writes an object with just that member |
| AppSettings.SavesKeepEachOther | screens/SettingsScreen.js:36-45 | two saves of different settings keep both |
| Preferences.SettingsScreen.constructor | screens/SettingsScreen.js:14-16 | all three switches start on |
| Preferences.SettingsScreen.LoadSettings | screens/SettingsScreen.js:22-34 | stored settings set the three switches, each defaulting to on; otherwise they stay as they were |
| Preferences.SettingsScreen.SetNotifications | screens/SettingsScreen.js:94-99 | the notifications switch shows and saves the value |
| Preferences.SettingsScreen.SetDailyReminder | screens/SettingsScreen.js:110-115 | the daily reminder switch shows and saves the value |
| Preferences.SettingsScreen.SetAnonymous | screens/SettingsScreen.js:131-136 | the anonymous switch shows and saves the value |
| Preferences.SettingsScreen.ClearData | screens/SettingsScreen.js:56-60 | clearing empties the store and the reload keeps the switches |
| MenuSettings.TimezoneLabel | screens/menu-pages/SettingsScreen.js:250 | a value that names a listed timezone as a property key (a text, or an array of just one such text) shows that zone's label; any other value shows itself |
| MenuSettings.OneZoneArrayLabel | screens/menu-pages/SettingsScreen.js:250 | a stored array holding just a listed zone shows that zone's label |
| MenuSettings.TimezoneTables | screens/menu-pages/SettingsScreen.js:15-51 | 16 distinct timezones, each with a label, including the default |
| MenuSettings.ListedTimezoneLabel | screens/menu-pages/SettingsScreen.js:273 | every listed timezone shows a label different from its name |
| MenuSettings.UnlistedTimezoneLabel | screens/menu-pages/SettingsScreen.js:250 | an unlisted timezone shows its own name |
| MenuSettings.OneMethodActive | screens/menu-pages/SettingsScreen.js:191-197 | at most one sign-in method is highlighted |
| MenuSettings.ToggleMediumMembership | screens/menu-pages/SettingsScreen.js:120-128 | toggling a medium flips its membership and keeps the others |
| MenuSettings.ToggleMediumDistinct | screens/menu-pages/SettingsScreen.js:122-124 | toggling keeps the favourites free of duplicates |
| MenuSettings.ToggleMediumTwice | screens/menu-pages/SettingsScreen.js:122-124 | adding then removing a medium restores the list |
| MenuSettings.ToggleFavoriteTwice | screens/menu-pages/SettingsScreen.js:122-124 | removing then adding a medium keeps the same members, moving it to the end |
| MenuSettings.ToggledCategories | screens/menu-pages/SettingsScreen.js:130-132 | toggling a category flips it and keeps the others |
| MenuSettings.ToggleCategoryTwice | screens/menu-pages/SettingsScreen.js:130-132 | toggling a category twice restores every category's state |
| MenuSettings.LoadedShown | screens/menu-pages/SettingsScreen.js:93-102 | each loaded setting is the stored value, or its default |
| MenuSettings.SaveThenLoad | screens/menu-pages/SettingsScreen.js:88-118 | a saved setting loads back as saved, and leaves the others as they were |
| MenuSettings.LoadEmpty | screens/menu-pages/SettingsScreen.js:93-102 | an empty stored object loads the defaults |
| MenuSettings.SettingsScreen.constructor | screens/menu-pages/SettingsScreen.js:63-82 | the screen starts with the defaults, the list closed, no category open |
| MenuSettings.SettingsScreen.LoadSettings | screens/menu-pages/SettingsScreen.js:88-107 | stored settings replace every shown setting; otherwise nothing changes |
| MenuSettings.SettingsScreen.SelectAccountMethod | screens/menu-pages/SettingsScreen.js:198-201 | the chosen method is highlighted and saved |
| MenuSettings.SettingsScreen.ToggleTimezoneList | screens/menu-pages/SettingsScreen.js:247 | the timezone list opens or closes |
| MenuSettings.SettingsScreen.SelectTimezone | screens/menu-pages/SettingsScreen.js:264-268 | the chosen timezone is shown and saved, and the list closes |
| MenuSettings.SettingsScreen.ToggleMedium | screens/menu-pages/SettingsScreen.js:120-128 | the toggled favourites are shown and saved |
| MenuSettings.SettingsScreen.ToggleCategory | screens/menu-pages/SettingsScreen.js:130-132 | the category's open state flips |
| MenuSettings.SettingsScreen.SetNotifications | screens/menu-pages/SettingsScreen.js:424-428 | the notifications switch shows and saves the value |
| MenuSettings.SettingsScreen.SetDailyReminder | screens/menu-pages/SettingsScreen.js:440-444 | the daily reminder switch shows and saves the value |
| MenuSettings.SettingsScreen.SetAnonymous | screens/menu-pages/SettingsScreen.js:456-460 | the anonymous switch shows and saves the value |
| MenuSettings.SettingsScreen.ClearData | screens/menu-pages/SettingsScreen.js:152-156 | clearing empties the store and the reload keeps what is shown |
| DataImport.TrimmedText | update-data.js:33 | `String(x).trim()` has no whitespace at either end |
| DataImport.QuoteOf | update-data.js:33 | a quote's text and author are trimmed |
| DataImport.ImportQuotesSpec | update-data.js:29-33 | one quote per row with a truthy `Quote`, each from such a row, none from any other |
| DataImport.UnknownAuthor | update-data.js:33 | a quote without an author is by `Unknown` |
| DataImport.TrimmedTextsSpec | update-data.js:47-49 | one trimmed text per truthy cell, each from such a cell |
| DataImport.PromptCells | update-data.js:48 | the prompt cells are the rows' `Prompt` fields |
| DataImport.ImportPromptsSpec | update-data.js:45-49 | one trimmed prompt per row with a truthy `Prompt`, each from such a row |
| DataImport.Body | update-data.js:65 | `slice(1)` drops the header row |
| DataImport.CriteriaCells | update-data.js:65-66 | the criteria cells are the first column below the header |
| DataImport.ImportCriteriaSpec | update-data.js:61-67 | one trimmed criterion per row below the header with a truthy first cell, each from such a row |
| DataImport.StripBullet | update-data.js:94 | stripping the bullet never lengthens the text |
| DataImport.StripBulletSpec | update-data.js:94 | a text that does not start with `•` is kept as it is; otherwise the bullet and all the white space after it are removed, and nothing else |
| DataImport.SpaceColons | update-data.js:102 | spacing colons keeps the first character |
| DataImport.CollapseSpaces | update-data.js:104 | collapsing whitespace keeps the first character, as a space if it was whitespace |
| DataImport.SpaceColonsSpec | update-data.js:102 | after spacing, every colon is followed by a whitespace character |
| DataImport.SpaceColonsVisible | update-data.js:102 | spacing colons adds only white space: the other characters are the original ones, in order |
| DataImport.SuffixColonsSpaced | update-data.js:102 | any suffix of colon-spaced text is colon-spaced |
| DataImport.CollapseSpacesSpec | update-data.js:104 | after collapsing, no two whitespace characters are adjacent; colons stay spaced |
| DataImport.CollapseSpacesVisible | update-data.js:104 | collapsing keeps the other characters in order, and the only white space left is the plain space |
| DataImport.NormalizedSpacing | update-data.js:102-104 | the two rewrites together give single-spaced text with every colon followed by a space, and keep the other characters in order |
| DataImport.SplitSegments | update-data.js:107 | splitting on `": "` gives at least one segment |
| DataImport.JoinSplit | update-data.js:107-125 | joining the segments with `": "` gives back the text |
| DataImport.KeptSegment | update-data.js:110-122 | each segment keeps at most one medium part |
| DataImport.CleanSegments | update-data.js:108-123 | cleaning never adds segments |
| DataImport.Capitalize | update-data.js:129-131 | capitalising changes only the first character, which is then not a lower-case letter |
| DataImport.MediumCapitalized | update-data.js:125-131 | a medium name never starts with a lower-case letter |
| DataImport.SplitArtPrefixes | update-data.js:96-100 | the prefix loop computes `SplitCamels` over the six prefixes |
| DataImport.KeepSegments | update-data.js:108-123 | the segment loop computes `CleanSegments` |
| DataImport.ProcessMedium | update-data.js:92-131 | the medium pipeline computes `MediumText` |
| DataImport.NormalizeCategory | update-data.js:87-89 | `3-d` in any case becomes `3-D`, a name starting with `Musical` becomes `Musical`, anything else is kept |
| DataImport.NormalizeCategoryIdempotent | update-data.js:87-89 | normalising a category twice is normalising it once |
| DataImport.RowEntry | update-data.js:84-132 | a row with a missing cell gives nothing, and a row entry's medium is non-empty and is the processed text |
| DataImport.AddMedium | update-data.js:134-137 | adding makes the category present |
| DataImport.AddMediumSpec | update-data.js:134-137 | a medium is grouped after adding exactly when it was grouped or is the one added; lists stay non-empty and duplicate-free |
| DataImport.Entries | update-data.js:83 | one row entry per row |
| DataImport.CollectWellGrouped | update-data.js:83-138 | the grouped mediums have non-empty duplicate-free lists |
| DataImport.CollectMembers | update-data.js:83-138 | a medium is grouped under a category exactly when some row entry is that pair |
| DataImport.CollectedMedium | update-data.js:83-138 | a medium is grouped exactly when some row gives it, and is then non-empty and capitalised |
| DataImport.GroupMediums | update-data.js:83-138 | the row loop computes the grouping of all row entries |
| DataImport.ReadRow | update-data.js:84-132 | reading one row computes its row entry |
| DataImport.OrderGroupsSpec | update-data.js:141-144 | the ordered categories are the listed ones present, in list order, each with its mediums sorted |
| DataImport.OrderedOutput | update-data.js:141-144 | exactly the five known categories that occur are written, in their order, each with its mediums sorted and none lost |
| DataImport.Names | update-data.js:151 | the written category names are the ordered entries' names |
| DataImport.ImportMediums | update-data.js:79-150 | the grouping of the rows below the header, ordered and sorted, and the total count of mediums |
| StringOrder.Insert | update-data.js:143 | inserting into a sorted list keeps it sorted and adds the one element |
| StringOrder.SortedList | update-data.js:143 | `sort()` on distinct strings gives a sorted list of the same strings |
| StringOrder.SortSet | screens/StreakScreen.js:316 | `[...activeDates].sort()` is sorted with exactly the set's dates |
| StringOrder.SortedUnique | screens/StreakScreen.js:316 | two sorted lists with the same members are the same list |
| StringOrder.Transitive | screens/StreakScreen.js:316 | string order is transitive |
| StringOrder.Total | screens/StreakScreen.js:316 | any two different strings are ordered one way or the other |
| Json.ParseStringify | screens/ManifestScreen.js:147 | whatever `JSON.stringify` writes, `JSON.parse` reads back as the same value |
| Json.PutLookup | screens/SettingsScreen.js:40 | `settings[key] = value` sets that member and keeps the others |
| Json.PutShape | screens/SettingsScreen.js:40 | a new key is appended at the end; an existing key keeps its place |
| Json.SpreadLookup | screens/ManifestScreen.js:82-85 | in `{date, ...parsed}` the parsed member wins over the date |
| Json.OrIfNullish | screens/SettingsScreen.js:27 | `??` takes the default exactly for a missing or `null` value |
| Json.OrIfFalsy | screens/ManifestScreen.js:64 | `||` takes the default exactly for a falsy value |
| Json.SomeMemberTrue | screens/StreakScreen.js:154 | `some(a => a.date === ds)` is true exactly when such an element comes before any `null`; an object or an array never matches |
| Json.SomeMemberNone | screens/StreakScreen.js:154 | `some` throws exactly when it reaches a `null` before a match |
| Storage.GetItem | screens/StreakScreen.js:119 | `getItem` gives the stored text exactly for a stored key |
| Storage.KeysWithPrefixMembers | screens/StreakScreen.js:291 | `filter(k => k.startsWith(p))` keeps exactly the keys with the prefix, in order |
| Text.TrimSpec | update-data.js:33 | `trim` removes exactly the whitespace at both ends, and is empty exactly for blank text |
| Text.TrimIdempotent | update-data.js:33 | trimming twice is trimming once |
| Text.Includes | screens/QuotesScreen.js:32 | `includes` holds exactly when the text occurs at some position |
| Text.ParseIntIntToString | screens/ArtScreen.js:54 | `parseInt` reads back the text `toString` writes |

## Left out

- Storage is asynchronous in the app. The model runs each handler to completion, in order, with no other handler in between.
- All times are UTC. The local timezone is not modelled: the model treats `new Date(year, month, day)`, `getDateString` and `toISOString` as the same calendar day.
- `setInterval` is not modelled. Timers are `DailyTick` and `WeeklyTick`, called one per second. Clearing a timer is not modelled, and neither is `Alert` or what the screens draw.
- Floating point is not modelled. `weeklyProgress` is left out. `Streak.GoalPct` rounds in integers. `Math.floor` of millisecond differences is replaced by whole-day differences.
- Streak.LongestStreak: a date string that does not read as a date is `None` under the abstract `dayOf`, so it never joins a run. Real `NaN` differences behave the same way, but that correspondence is not proved.
- DataImport: reading the Excel file, writing the JSON files, `console` output and `process.exit` are left out. The rows are given as values.
- DataImport.KeptSegment: the three description-detecting regular expressions and the inline-description match are the abstract parameter `describe`. The model does not capture their text.
- DataImport.CellText: a numeric cell is written as its integer. Fractional cells, and `String()` of floats, are not modelled.
- StringOrder.Less: strings are compared by code point. `sort()` compares UTF-16 code units, which differ only above U+FFFF.
- Text.ToLower: letter case is mapped for ASCII only. `toLowerCase` and `toUpperCase` also map other letters.
- DataImport.AddMedium: a category named like an `Object.prototype` member (`constructor`, say) is treated as an ordinary category.
- MenuSettings.TimezoneLabel: a stored zone named like an `Object.prototype` member (`constructor`, `toString`, `__proto__` and the like) shows itself in the model. JavaScript finds the inherited member instead, a function or an object, and React then draws nothing or throws. The same holds for MenuSettings.UnlistedTimezoneLabel.
- Json.StrictEqual: numbers are compared as written, so `1.0` and `1` differ, where `===` finds them equal. Objects and arrays never match, since every list compared is parsed afresh.
- Manifest.ManifestScreen.ToggleHeartQuote: the test whether the quote is today's compares by value. That is `===` for text quotes and for today's own card, whose `quote` is the same object. For a listed copy whose `quote` is an object equal to today's, JavaScript finds them different and leaves the heart alone, where the model sets it.
- Art.LoadChallenge: requires a non-empty `prompts.json`. The fallback through `promptsData[0] || 'Create something beautiful'` is reached only through a throw, and the model has none.
- Manifest.ManifestScreen.constructor: requires a non-empty `quotes.json`. With no quotes the screen reads `undefined.quote`, which this model does not cover.
- MenuSettings.SettingsScreen.ToggleMedium: requires the favourites to be an array. A stored `favoriteMediums` that is not an array is not modelled. For most such values `prev.includes` throws inside the state updater. A text does have `includes`: the updater then throws at `prev.filter`, or spreads the text's characters into the new list.
- Streak.ArtworkDates: only string dates are collected. An artwork whose `date` is truthy but not a string (a number, `true`, an object, an array) is dropped. JavaScript adds that value to the set, so it counts in `totalActiveDays` and joins the sorted dates that the longest streak reads. This is also left out of Streak.CollectArtworkDates, Streak.CollectActiveDates and Streak.LoadStreakStats.
- Streak.StreakDaysCount: proved only for start years 11 to 9999 and at most 3651 steps. Below year 0 or above 9999 a date string is not four-digit ISO, and the 3650-day window needs ten years of room above year 0.
- Streak.StreakDaysFresh: proved for start years 11 to 9999 and at most 3650 steps, for the reason given for Streak.StreakDaysCount.
- Streak.SameDayString: proved for start years 11 to 9999 and steps up to 3650, for the reason given for Streak.StreakDaysCount.
- Streak.CurrentStreakAtMostActive: proved for today in the years 12 to 9999. A streak of up to 3650 days then starts no earlier than year 11.
- Manifest.EntryDay: only a text `date` is read as a day. A stored object can bring its own `date` through the spread. `new Date` reads more than strings: `null` is 1970-01-01, numbers and `true` are times, and a one-text array reads its text. The model gives such an entry no day, so the sort treats it as equal to every other entry, where JavaScript orders it by that time. Only a store written by hand reaches this case, since `saveEntry` writes no `date`.
- Json.Parse: numbers keep their text. JavaScript reads them as doubles: `1.0` equals `1`, `1e-400` is 0 and falsy, and `1e400` is `Infinity`, which stringifies as `null`. `JSON.stringify` writes numbers in their shortest form. Integer-like keys (`"0"`, `"10"`) come first in a JavaScript object, where `Json.Put` appends every new key.
- Manifest.PastEntry: a stored value that is a text or an array would add index members (`"0"`, `"1"`, ...) when spread. These are left out, since the screen reads no index member.
- AppSettings.SavedSettings: requires the key to be one of the keys the screens save, so `settings[key]` on an array never hits an index or `length`.
- MenuSettings: the email, username and location text fields set the shown value as the user types and save it when editing ends. They have no methods of their own. Their save is `AppSettings.SavedSettings` with that key, and `MenuSettings.SaveThenLoad` covers it.
- Manifest.ManifestScreen.SaveEntry: the refresh of the past entries that follows a save is `LoadPastEntries`, called as a separate step.
- Manifest.FieldText: a stored field that is truthy but not a string loads as `''`. JavaScript would put the value itself into the form.
- Quotes: the Quotes screen reads `favorite_quotes`, and no screen in this model writes that key. The Manifest screen hearts quotes under `hearted_quotes`. The model keeps the two keys separate, as the code does.
- The other screens (About You, community, legal and the static pages) and navigation are outside this model.
- A day's goal point is read only from a stored manifest entry (screens/StreakScreen.js:130-138).
- ArtStudio, the two settings screens, ManifestScreen and MonthPager are classes. Their methods' contracts use `old`, and they model the screens' `setState` calls one field at a time.

## Findings

| source | as written | input that shows it | evidently intended | confidence | as-written member | corrected member |
|---|---|---|---|---|---|---|
| screens/ArtScreen.js:49-55 | on a new week `loadWeeklyTime` stores the new week start and shows 0, but leaves last week's `weekly_art_time` in the store | store `week_start_date = "2024-01-01"`, `weekly_art_time = "3600"`; open the Art screen in the week of 2024-01-08 (shows 0), then open it again that week: it shows 3600 | a new week stores its time as 0 too, so reopening the screen in the same week shows 0 | high, not executed | Art.StaleWeeklyTimeReturns | Art.CorrectedReloadIsStable |
