# revytv core, modelled in Dafny

revytv is a snow-conditions dashboard for Revelstoke: a dashboard and a TV
mode that play a YouTube playlist under a forecast overlay, a calendar of
forecast histories, a settings page for the playlist, and colour themes.
Several serverless endpoints back these pages. This project models the
deterministic core of that system and proves what it promises:

- **the history repair endpoint** (`cleanup_forecasts.dfy`): keeps the first
  entry per timestamp, keeps the counters, and writes back only in apply mode;
- **the calendar endpoint** (`calendar_data.dfy`): per-date summaries of the
  forecast records of one year;
- **the snow-report endpoint** (`snow_report.dfy`): one entry per day label,
  with defaults and the weekday ordering;
- **the local key-value store** (`storage.dfy`): get, set, a full scan and a
  prefix scan, as a class whose `keys` field keeps property order;
- **trends** (`trend.dfy`): direction, change and the arrow badge of
  shared.js and its copy in app.js;
- **the calendar page** (`calendar.dfy`): delta badges, date keys, the
  month grid, the month-skip rule and the loading animation;
- **the playlist editor** (`settings.dfy`): id extraction, drag reorder,
  add, remove, reset and load, as a class over the playlist;
- **the TV player** (`tv.dfy`) and **the dashboard player** (`app.js`, in
  `app.dfy`): the rotated embed URL and the index and selector state;
- **the user endpoint** (`user.dfy`) and **the TV-token endpoint**
  (`tv_auth.dfy`): validation, the shallow merge, and the case-insensitive
  token lookup;
- **themes** (`theme.dfy`): the stored name and the `data-theme` attribute.

Shared definitions:
- `records.dfy` holds the stored values, JSON documents and playlist items;
- `text.dfy` holds the JavaScript string built-ins used (`trim`,
  `toUpperCase`, `split`/`join`, `String(n)`, `parseInt`, `padStart`);
- `wrappers.dfy` holds `Option`.

Code that updates state in place is modelled as classes with `modifies`
clauses. Each method is tied to a specification function over values, and
the properties are proved about those functions. The clock, the
authenticated user, the random starting message, the fetched pages and
fetched titles are parameters. The regular expressions over HTML are
modelled by what they capture.

Where the code and its tests disagree, the model follows the code:
- The snow-report tests (test/snow-report.test.js:34-68, test/forecast-history.test.js:258-286) expect duplicate labels and document order. The
  code pushes each label once, in list order, and then sorts by weekday.
- `loadPlaylist` on the settings page writes
  `config.playlist || [...DEFAULT_PLAYLIST]`. A stored empty list is
  truthy and is kept.

## Model

| member | source | states |
|---|---|---|
| CleanupForecasts.KeepFirst | api/cleanup-forecasts.js:24-36 | the inner loop read from the front never produces more entries than it is given |
| CleanupForecasts.KeepFirstFacts | api/cleanup-forecasts.js:28-36 | the pass from a `seen` set yields pairwise distinct timestamps, exactly the timestamps not yet seen, and a subsequence of the input |
| CleanupForecasts.KeepFirstSnoc | api/cleanup-forecasts.js:28-36 | one more input entry is kept exactly when its timestamp was neither seen before nor earlier in the history |
| CleanupForecasts.DedupIsFirstOccurrences | api/cleanup-forecasts.js:28-36 | the loop's cleaned history equals the reference definition "an entry survives exactly when no earlier entry has its timestamp" |
| CleanupForecasts.DedupFacts | api/cleanup-forecasts.js:28-36 | the cleaned history has distinct timestamps, the same set of timestamps as the original, and is a subsequence of it |
| CleanupForecasts.RepeatedHead | api/cleanup-forecasts.js:30 | a history whose first timestamp recurs later is not clean |
| CleanupForecasts.DistinctCons | api/cleanup-forecasts.js:30-35 | a history is clean exactly when its tail is clean and its head's timestamp does not recur |
| CleanupForecasts.KeepFirstKeepsAll | api/cleanup-forecasts.js:28-38 | nothing is dropped exactly when the history is clean and shares no timestamp with `seen`, and then it is returned as is |
| CleanupForecasts.DedupRemovesNothingIffClean | api/cleanup-forecasts.js:38 | `removed` is 0 exactly when the timestamps are already distinct, and then the history is unchanged |
| CleanupForecasts.DedupIdempotent | api/cleanup-forecasts.js:28-36 | cleaning a cleaned history changes nothing |
| CleanupForecasts.DedupHistory | api/cleanup-forecasts.js:24-36 | the loop with its `seen` set returns the cleaned history and `removed` equal to the number of entries dropped |
| CleanupForecasts.IsDryRun | api/cleanup-forecasts.js:14 | apply mode happens only for the single query value `'false'`; anything else, including no value, is a dry run |
| CleanupForecasts.Apply | api/cleanup-forecasts.js:48-51 | apply mode never removes a key from the store |
| CleanupForecasts.VisitAll | api/cleanup-forecasts.js:20-52 | the outer loop visits every scanned entry in order: the counters are the tally of the whole scan, and the store is untouched in dry-run mode and holds every rewritten record in apply mode |
| CleanupForecasts.Visit | api/cleanup-forecasts.js:20-52 | one outer iteration updates the counters as the step function does, and writes the cleaned record back only in apply mode and only when entries were removed |
| CleanupForecasts.Handler | api/cleanup-forecasts.js:10-61 | a non-POST request gives 405 and touches nothing; a POST reports the tally of the prefix scan and leaves the store as it was on a dry run, or rewritten by apply mode |
| CleanupForecasts.TallyBookkeeping | api/cleanup-forecasts.js:22-47 | `cleaned` is the number of details, `entriesRemoved` is their sum of `removed`, each detail has `removed = before - after > 0`, and `cleaned <= checked <= records` |
| CleanupForecasts.RewriteIffDirty | api/cleanup-forecasts.js:38-50 | a record is written back exactly when its non-empty history has a repeated timestamp |
| CleanupForecasts.TallyDetailsExact | api/cleanup-forecasts.js:38-47 | `details` holds exactly the details of the records with repeated timestamps |
| CleanupForecasts.SkippedRecordIgnored | api/cleanup-forecasts.js:21-22 | a null record or one with a missing or empty history changes no counter wherever it occurs |
| CleanupForecasts.ApplyKeys | api/cleanup-forecasts.js:48-51 | apply mode writes only keys already in the store |
| CleanupForecasts.ApplyRewrites | api/cleanup-forecasts.js:48-51 | apply mode leaves every dirty record visited holding its record with the cleaned history |
| CleanupForecasts.ApplyLeavesRest | api/cleanup-forecasts.js:48-51 | apply mode leaves every key that no dirty record carries as it was |
| CleanupForecasts.CleanRecordsUntouched | api/cleanup-forecasts.js:38-52 | when no record is dirty nothing is reported and apply mode writes nothing |
| CleanupForecasts.RewriteIsClean | api/cleanup-forecasts.js:49 | a rewritten record is clean |
| CleanupForecasts.ApplyCleansVisited | api/cleanup-forecasts.js:20-52 | after apply mode every visited key holds a clean record |
| CleanupForecasts.SecondRunFindsNothing | api/cleanup-forecasts.js:17-52 | a second run over the store that apply mode left finds nothing to clean and writes nothing |
| CleanupForecasts.RepeatedDayNamesRepaired | test/cleanup-forecasts.test.js:38-125 | the first seeded record keeps entries 1, 3 and 5, with amounts `[6, 6, 3]` |
| CleanupForecasts.LaterDuplicateDropped | test/cleanup-forecasts.test.js:49-113 | the second seeded record keeps entries 1, 2 and 4, with amounts `[0, 1, 1]` |
| CleanupForecasts.Stamps | api/cleanup-forecasts.js:30-34 | defined as the set of timestamps of a history; see DedupFacts |
| CleanupForecasts.DistinctStamps | api/cleanup-forecasts.js:30 | defined as: no timestamp occurs twice; see DedupFacts and DedupRemovesNothingIffClean |
| CleanupForecasts.SubseqOf | api/cleanup-forecasts.js:28-36 | defined as: the first history is the second with some entries dropped and the rest in order; see DedupFacts |
| CleanupForecasts.FirstOccurrences | api/cleanup-forecasts.js:28-36 | reference definition: an entry survives exactly when no earlier entry has its timestamp; see DedupIsFirstOccurrences |
| CleanupForecasts.Dedup | api/cleanup-forecasts.js:24-36 | the cleaned history is never longer than the history; it is the front-to-back pass from an empty `seen` set; see DedupIsFirstOccurrences, DedupFacts and DedupIdempotent |
| CleanupForecasts.Status | api/cleanup-forecasts.js:10-55 | defined as 405 for a request that is not a POST and 200 for a report; see Handler |
| CleanupForecasts.Message | api/cleanup-forecasts.js:57-59 | defined as the dry-run message or 'Cleanup complete.'; see Handler |
| CleanupForecasts.Step | api/cleanup-forecasts.js:21-47 | defined as one outer iteration's change to `results`: a skipped record changes nothing, a checked one counts, a dirty one adds its detail; see Visit and StepDetails |
| CleanupForecasts.Tally | api/cleanup-forecasts.js:18-53 | defined as `results` after the outer loop; see VisitAll, TallyBookkeeping and TallyDetailsExact |
| CleanupForecasts.Rewrite | api/cleanup-forecasts.js:48-50 | defined as the record with its history replaced by the cleaned one, only when entries were removed; see RewriteIffDirty and RewriteIsClean |
| CleanupForecasts.SumRemoved | api/cleanup-forecasts.js:40 | defined as the total of the details' `removed` counts; see TallyBookkeeping |
| CleanupForecasts.Dirty | api/cleanup-forecasts.js:38 | defined as a record with a non-empty history in which some timestamp repeats; see RewriteIffDirty and TallyDetailsExact |
| CleanupForecasts.DetailFor | api/cleanup-forecasts.js:41-46 | defined as the detail of a record: its key, the length before and after, and the difference; see StepDetails |
| CleanupForecasts.StepDetails | api/cleanup-forecasts.js:38-47 | an iteration adds the record's detail exactly when the record is dirty |
| CalendarData.ResolveYear | api/calendar-data.js:16 | the year is the parse of the query when that is a number other than 0, and the current year when the query is missing, parses to `NaN` or parses to 0 |
| CalendarData.ResolveYearNotANumber | api/calendar-data.js:16 | an empty query and a non-numeric one give the current year |
| CalendarData.ResolveYearBareSign | api/calendar-data.js:16 | a bare `-` (no number) and `-0` (zero) give the current year |
| CalendarData.ResolveYearLenient | api/calendar-data.js:16 | `parseInt` skips leading whitespace and ignores trailing text, so ` 2024abc` is the year 2024 |
| CalendarData.ResolveYearRepeated | api/calendar-data.js:16 | a repeated `year` parameter is read through its comma-joined string, so its first value decides |
| CalendarData.ResolveYearCases | api/calendar-data.js:16 | a non-zero year written in decimal is that year |
| CalendarData.ResolveYearDefault | api/calendar-data.js:16 | year 0 and a missing year both mean the current year |
| CalendarData.DateMatch | api/calendar-data.js:28-31 | a captured date has the `\d{4}-\d{2}-\d{2}` shape |
| CalendarData.DateMatchLeftmost | api/calendar-data.js:28-29 | the match fails exactly when the pattern occurs nowhere in the key; otherwise it captures the date after the leftmost occurrence |
| CalendarData.DateMatchAtStart | api/calendar-data.js:28-31 | a key that starts with the pattern captures the ten characters after `forecast:` |
| CalendarData.VisibleFacts | api/calendar-data.js:25-54 | a record contributes exactly when it has a non-empty history and a date of the requested year; its summary has that date, the night flag of its key, the stored history, its length, and `delta = last - first` |
| CalendarData.Visibles | api/calendar-data.js:24 | one contribution per record, in visiting order |
| CalendarData.Handler | api/calendar-data.js:11-63 | OPTIONS is answered at once; otherwise the reply holds the resolved year, the summaries of the prefix scan, `count` equal to the number of keys, the time and the storage mode |
| CalendarData.BuildYearData | api/calendar-data.js:22-55 | the loop builds the same `yearData` as the left fold over the records |
| CalendarData.CollectKeys | api/calendar-data.js:46 | a display key is present exactly when some contribution has it |
| CalendarData.CollectLastWins | api/calendar-data.js:46 | the summary under a key is that of the last contribution with that key |
| CalendarData.YearDataKeys | api/calendar-data.js:24-55 | a display key is present exactly when some included record maps to it |
| CalendarData.YearDataLastWins | api/calendar-data.js:37-46 | of the records sharing a display key, the last one in iteration order wins |
| CalendarData.YearDataSummaries | api/calendar-data.js:28-53 | every summary is of the requested year, sits under the key its night flag gives, carries a stored history unmodified, and has `delta = last - first` |
| CalendarData.DisplayKeysOfOneDate | api/calendar-data.js:37-38 | a bare key and a `:day` key of one date share the bare display key, and the `:night` key gets `date:night` |
| CalendarData.NoNightInDate | api/calendar-data.js:37 | a key made of `forecast:`, a date and a suffix without `n` is not a night key |
| CalendarData.ParsedYear | api/calendar-data.js:16 | defined as `parseInt(req.query.year)`: none for a missing parameter, the parse of a single one, and the parse of a repeated one's comma-joined string; see ResolveYear |
| CalendarData.IsDatePattern | api/calendar-data.js:28 | defined as the shape `\d{4}-\d{2}-\d{2}` |
| CalendarData.MatchAt | api/calendar-data.js:28 | defined as: `forecast:` and a date of that shape occur at position `p` of the key; see DateMatchLeftmost |
| CalendarData.YearOf | api/calendar-data.js:32 | defined as the value of the date's first four digits; see VisibleFacts and YearDataSummaries |
| CalendarData.DisplayKey | api/calendar-data.js:37-38 | defined as the date, with `:night` appended when the record key contains `:night`; see VisibleFacts and DisplayKeysOfOneDate |
| CalendarData.Visible | api/calendar-data.js:25-54 | defined as what one record contributes to `yearData`, or nothing when it is skipped; see VisibleFacts |
| CalendarData.Collect | api/calendar-data.js:46 | defined as storing the contributions in order, a later one replacing an earlier one under the same key; see CollectKeys and CollectLastWins |
| CalendarData.YearData | api/calendar-data.js:22-55 | defined as `yearData` after the loop; see BuildYearData, YearDataKeys, YearDataLastWins and YearDataSummaries |
| CalendarData.Status | api/calendar-data.js:11-57 | defined as 200 for the preflight and for the calendar; see Handler |
| CalendarData.NatToStringOf | api/calendar-data.js:32 | the decimal form of a four-digit number is its four digits in order |
| SnowReport.WeekdayIndex | api/snow-report.js:152-158 | `indexOf` over the weekday list gives the position of the name, or -1 exactly when it is not a weekday |
| SnowReport.SortOrderValues | api/snow-report.js:155-163 | Today is 0 and Tonight 1; a weekday is 2 to 8, with 2 for tomorrow and 8 for today's own weekday; anything else is 99 |
| SnowReport.SortOrderNonNegative | api/snow-report.js:155-163 | no sort key is negative |
| SnowReport.SortOrderInjective | api/snow-report.js:155-163 | distinct labels of the list have distinct sort keys |
| SnowReport.Amount | api/snow-report.js:122-123 | the amount is the captured snow number, or 0 when there is none |
| SnowReport.Level | api/snow-report.js:126-134 | a numeric freezing level wins, then the valley phrase, else null |
| SnowReport.CollectSections | api/snow-report.js:101-148 | the label loop with its `addedDays` set yields the entries of the fold over the labels |
| SnowReport.PushedFromLabels | api/snow-report.js:107-146 | every entry carries a label of the list that has a section on the page, described from that section |
| SnowReport.PushedDistinct | api/snow-report.js:108-146 | no label is pushed twice |
| SnowReport.PushedComplete | api/snow-report.js:107-147 | every label of the list with a section on the page is pushed |
| SnowReport.Insert | api/snow-report.js:154 | inserting into a sorted list keeps it sorted and adds exactly the element |
| SnowReport.InsertionSort | api/snow-report.js:154-165 | the sort's result is ordered by the key and is a permutation of its input |
| SnowReport.InsertStrict | api/snow-report.js:154-165 | inserting an element whose key no element shares keeps a strictly ordered list strictly ordered |
| SnowReport.SortStrict | api/snow-report.js:154-165 | pairwise distinct keys give a strictly ordered result |
| SnowReport.ExtractForecast | api/snow-report.js:100-168 | the forecast is the label loop's entries sorted by the comparator's key |
| SnowReport.ForecastEntries | api/snow-report.js:107-146 | every forecast entry is a known label found on the page, described from its section |
| SnowReport.ForecastComplete | api/snow-report.js:107-147 | every known label found on the page has an entry |
| SnowReport.ForecastOrdered | api/snow-report.js:150-165 | the forecast is strictly ordered by sort key: Today, Tonight, then the weekdays from tomorrow, so no label appears twice |
| SnowReport.TodayFirst | api/snow-report.js:150-165 | when the page has a Today section, it opens the forecast |
| SnowReport.Capitalize | api/snow-report.js:74 | the first character is upper-cased, every other one lower-cased, and the length is kept |
| SnowReport.CapitalizeIdempotent | api/snow-report.js:74 | capitalizing twice is capitalizing once |
| SnowReport.ParseWeather | api/snow-report.js:61-75 | the subpeak and ripper temperatures are set, to the alpine one plus 1, exactly when the alpine one matched; the condition is lower-cased; the wind speed and the capitalized direction are set exactly when the wind matched |
| SnowReport.ParseSnowReport | api/snow-report.js:46-98 | the weather as above, every snow figure its capture or 0, and the sorted forecast |
| SnowReport.ParsedFromUnique | api/snow-report.js:46-98 | the parse is a function of the page: two reports parsed from the same captures and sections are equal |
| SnowReport.Handler | api/snow-report.js:6-44 | OPTIONS is answered at once; a response that is not ok gives 500 with `HTTP <status>`, a failed request 500 with its message; a page gives the report `parseSnowReport` describes (weather, snow figures and forecast), stamped with the time and the source URL |
| Storage.Read | api/lib/storage.js:66-74 | a read is the stored value when the key holds a truthy value, and null otherwise |
| Storage.ListEntries | api/lib/storage.js:83-90 | the entries are the keys in property order, each with its value |
| Storage.WithPrefixMembers | api/lib/storage.js:172-176 | an entry survives the filter exactly when its key starts with the prefix |
| Storage.WithPrefixDistinct | api/lib/storage.js:172-176 | filtering keeps keys distinct |
| Storage.PrefixScanExact | api/lib/storage.js:165-178 | the prefix scan returns exactly the stored keys that start with the prefix, each with its stored value and each once |
| Storage.Store.constructor | api/lib/storage.js:56-64 | a new store is empty |
| Storage.Store.Get | api/lib/storage.js:66-74 | `localGet` returns the read and changes nothing |
| Storage.Store.Set | api/lib/storage.js:76-81 | `localSet` replaces the value of the key, keeps every other key and its value, and puts a new key last |
| Storage.Store.GetAll | api/lib/storage.js:83-90 | `localGetAll` returns all entries in property order and changes nothing |
| Storage.Store.GetAllByPrefix | api/lib/storage.js:165-178 | the loop returns the filtered entries, which are exactly the stored pairs whose key has the prefix, and changes nothing |
| Storage.Store.GetWithMock | api/lib/storage.js:93-125 | a stored record whose history has more than one entry is returned unchanged; otherwise a mock is generated when an amount and a date are given, and the stored value is returned when they are not |
| Storage.ReadAfterSet | api/lib/storage.js:66-81 | after a set, the key reads back the value when it is truthy and null otherwise, and every other key reads as before |
| Storage.WithPrefix | api/lib/storage.js:172-176 | defined as the entries whose key starts with the prefix, in their order; see WithPrefixMembers and PrefixScanExact |
| Storage.DistinctKeys | api/lib/storage.js:172-176 | defined as: no key occurs twice among the entries; see WithPrefixDistinct |
| Storage.HistoryLength | api/lib/storage.js:95 | defined as `history.length` for a truthy array or string `history`, and none otherwise; see Store.GetWithMock |
| Records.NonEmptyHistory | api/cleanup-forecasts.js:21 | a record passes the guard only with a non-empty history of its own |
| Records.Truthy | api/user.js:73 | defined as JavaScript truthiness of a JSON value; see User.CreatedAt |
| Records.ValueTruthy | api/lib/storage.js:70 | defined as JavaScript truthiness of a stored value; see Storage.Read |
| Records.IsObjectLike | api/user.js:44 | defined as `typeof j === 'object'` for a value that is not null; see User.Validate |
| Records.Prop | api/user.js:54 | defined as reading a named property of an object, none being `undefined`; see User.ValidItem |
| Records.Spread | api/user.js:66-67 | defined as the own properties that `{...j}` copies: an object's fields, or an array's or string's elements under their indices; see User.Merged |
| Trend.CalculateTrend | shared.js:3-14 | the direction is up exactly when the last amount exceeds the first, down exactly when it is below, and otherwise none with change 0; a history that is absent or shorter than two has no colour; the colour is the direction's |
| Trend.TrendDependsOnEndpoints | shared.js:6-10 | histories that agree on their first and last amounts have the same trend |
| Trend.PalettesAgree | app.js:4-15 | the dashboard's copy agrees with the shared one on direction and change |
| Trend.TrendArrow | shared.js:16-24 | the badge is empty exactly when there is no trend |
| Trend.TrendArrowShowsMagnitude | shared.js:20-23 | a badge ends with the direction's arrow and the size of the change, which is positive and reads back as that number |
| Trend.ForecastTrendArrowGuard | app.js:187-188 | the dashboard's `history.length > 1` guard gives the same badge as calling the function directly, and a badge only for a comparable history |
| Trend.HasSnow | app.js:176-177 | a day has snow exactly when its amount is present and positive |
| Trend.Color | shared.js:11-13 | defined as the shared copy's CSS variables with fallbacks, or the dashboard's bare colours; see CalculateTrend |
| Trend.Comparable | shared.js:4 | defined as a present history of at least two entries; see CalculateTrend |
| Trend.Change | shared.js:7-9 | defined as the last amount minus the first; see CalculateTrend and TrendDependsOnEndpoints |
| Trend.Glyph | shared.js:20 | defined as ▲ for up and ▼ otherwise; see TrendArrowShowsMagnitude |
| Trend.Abs | shared.js:21 | defined as the size of the change; see TrendArrowShowsMagnitude |
| Trend.BadgeHead | shared.js:23 | defined as the badge's opening tag, with the colour and the signed change in its tooltip; see TrendArrow |
| Trend.BadgeTail | shared.js:23 | defined as the arrow, a space in the shared copy, the size of the change and the closing tag; see TrendArrowShowsMagnitude |
| Trend.ForecastTrendArrow | app.js:187-188 | defined as the dashboard's badge behind its `history.length > 1` guard; see ForecastTrendArrowGuard |
| Calendar.DeltaClass | calendar.js:65-69 | `up` exactly for a positive delta, `down` exactly for a negative one, `unchanged` exactly for 0 |
| Calendar.FormatDelta | calendar.js:107-110 | `0` exactly for 0; a leading `+` exactly for a positive delta and `-` exactly for a negative one |
| Calendar.FormatDeltaRoundTrip | calendar.js:107-110 | the badge text reads back as the delta |
| Calendar.PaddedValue | calendar.js:114 | two-digit padding of a number below 100 gives two digits with that value |
| Calendar.DateKeyIsDate | calendar.js:114 | for a four-digit year the key is a `YYYY-MM-DD` date whose fields read back as the year, `month + 1` and the day |
| Calendar.Effective | calendar.js:115-119 | the bare date's summary when there is one, else the night summary, else none |
| Calendar.RenderDayCell | calendar.js:113-147 | a data cell exactly when the chosen summary exists and has a non-empty history, showing its delta class and text, last and first amounts and update count |
| Calendar.BareDateShadowsNight | calendar.js:119-122 | a bare-date summary with an empty history hides the night summary and shows no data |
| Calendar.DaysInMonth | calendar.js:152 | the last day of a month is 28 to 31 |
| Calendar.MonthLength | calendar.js:152 | a month has 28 to 31 days, and 29 exactly for February of a leap year |
| Calendar.FirstWeekday | calendar.js:151 | the first weekday is below 7 |
| Calendar.MonthsFollowOn | calendar.js:151-152 | each month begins on the weekday after the previous month's last day |
| Calendar.YearsFollowOn | calendar.js:151-152 | January begins on the weekday after the previous December's last day |
| Calendar.FirstOf2026 | calendar.js:151 | 1 January 2026 is a Thursday |
| Calendar.TrailingBlanksComplete | calendar.js:172-173 | fewer than seven trailing blanks complete the last week, and none exactly when the days already fill it |
| Calendar.DayCellsAt | calendar.js:167-169 | cell `d - 1` of the day loop is day `d`'s rendered cell |
| Calendar.MonthCellsWeeks | calendar.js:150-176 | the grid is whole weeks: the seven headers and `firstDay` blanks, the days, then fewer than seven blanks |
| Calendar.MonthCellsDays | calendar.js:162-169 | day `d` sits in cell `6 + firstDay + d` |
| Calendar.RenderMonth | calendar.js:150-186 | the loops build the month's card |
| Calendar.PushBlanks | calendar.js:162-176 | the blank loop appends exactly `n` blanks |
| Calendar.PushDays | calendar.js:167-169 | the day loop appends exactly the cells of days 1 to `n` |
| Calendar.MonthHasData | calendar.js:189-198 | true exactly when some day of the month has a bare or night summary |
| Calendar.IsMonthInFuture | calendar.js:201-209 | true exactly for a later year, or the same year and a later month |
| Calendar.RenderYear | calendar.js:212-231 | the loop yields the shown months' cards, or the no-data message when there are none |
| Calendar.ShownCardsExact | calendar.js:216-222 | the cards are their months' cards in month order, and a month has a card exactly when it is not a future month without data |
| Calendar.MessageOnlyAfterCurrentYear | calendar.js:218-227 | the no-data message appears only for a year after the current one with no data in any month |
| Calendar.LoadingAnimation.constructor | calendar.js:18-24 | the indicator shows the message at the random start |
| Calendar.LoadingAnimation.Tick | calendar.js:26-29 | a tick moves to `(index + 1) mod 10` and shows that message |
| Calendar.LoadingAnimation.Stop | calendar.js:32-39 | stopping hides the indicator |
| Calendar.DateKey | calendar.js:114 | defined as the year, the two-digit month and the two-digit day joined by `-`; see DateKeyIsDate |
| Calendar.NightKey | calendar.js:116 | defined as the date key followed by `:night`; see Effective and MonthHasData |
| Calendar.FullYear | calendar.js:151-152 | defined as the year that `new Date` uses: 1900 + y for y from 0 to 99, otherwise y; see DaysInMonth and FirstWeekday |
| Calendar.IsLeap | calendar.js:152 | defined as the Gregorian rule: divisible by 4, and not by 100 unless by 400; see MonthLength |
| Calendar.FirstWeekdayOf | calendar.js:151 | the weekday of the first of a month is below 7; see MonthsFollowOn, YearsFollowOn and FirstOf2026 |
| Calendar.TrailingBlanks | calendar.js:173 | defined as `(7 - (totalCells % 7)) % 7`; see TrailingBlanksComplete |
| Calendar.Blanks | calendar.js:162-164 | `n` blank cells |
| Calendar.Headers | calendar.js:157-159 | seven header cells named Sun to Sat in order |
| Calendar.DayCells | calendar.js:167-169 | one cell per day from 1 to `n`; see DayCellsAt |
| Calendar.MonthCells | calendar.js:150-176 | defined as the headers, the leading blanks, the day cells and the trailing blanks; see MonthCellsWeeks and MonthCellsDays |
| Calendar.HasData | calendar.js:189-198 | defined as: some day of the month has a bare or a night summary; see MonthHasData |
| Calendar.Shown | calendar.js:218 | defined as: the month is not both in the future and without data; see ShownCardsExact |
| Calendar.CardFor | calendar.js:178-185 | defined as the month's card: its number, its name and its grid; see RenderMonth |
| Calendar.ShownCards | calendar.js:216-222 | defined as the cards of the shown months among the first `n`, in month order; see RenderYear and ShownCardsExact |
| Calendar.YearView | calendar.js:225-227 | defined as the no-data message when there are no cards, else the cards; see RenderYear |
| Calendar.CardsOf | calendar.js:216-222 | defined as: every card is its own month's card, for a month below `n`; see ShownCardsExact |
| Calendar.InMonthOrder | calendar.js:216-222 | defined as: the cards' months strictly increase; see ShownCardsExact |
| Calendar.HasCard | calendar.js:216-222 | defined as: some card is of month `m`; see ShownCardsExact |
| Settings.MatchAt | settings.js:14 | an alternative of the URL pattern captures an 11-character id |
| Settings.SearchFrom | settings.js:14-18 | any result is an 11-character id; see SearchFromSound for which one |
| Settings.LinkAt | settings.js:14 | defined as: alternative k of the URL pattern matches at position q (the prefix, then eleven id characters); the reference the search lemmas are stated against |
| Settings.MatchAtSound | settings.js:14 | at one position the alternatives are tried in order: no match exactly when no alternative matches there, otherwise the id captured by the first that does |
| Settings.SearchFromSound | settings.js:14-18 | the search from p fails exactly when the pattern matches at no position from p on; otherwise it captures the first alternative's id at the leftmost matching position |
| Settings.ExtractVideoId | settings.js:11-22 | the result, when there is one, is an 11-character `[A-Za-z0-9_-]` id |
| Settings.ExtractVideoIdMeaning | settings.js:11-22 | on the trimmed input: null exactly when the URL pattern matches nowhere and the input is not itself an id; with no match the result is the input if it is an id; with a match it is the id of the leftmost match |
| Settings.NoIdInHello | settings.js:11-22 | `hello`, which holds neither a link nor an id, gives null |
| Settings.NoUrlInId | settings.js:14-15 | the URL pattern never matches inside a bare id |
| Settings.BareIdRecognised | settings.js:15 | a bare id is recognised as itself |
| Settings.LinkRecognised | settings.js:12-14 | a link `<pre><prefix><id>`, where `pre` holds no `y` and does not start with whitespace, gives its id |
| Settings.RemoveAt | settings.js:171 | removing index `i` keeps the items before it and shifts the ones after it down by one |
| Settings.MovePermutes | settings.js:125-126 | a drop keeps the length and the multiset of the items |
| Settings.MoveLands | settings.js:125-126 | the dragged item lands at the drop index, and the others keep their relative order |
| Settings.MoveBack | settings.js:125-126 | dragging back undoes a drop |
| Settings.MoveKeepsDistinct | settings.js:125-126 | a drop keeps the ids distinct |
| Settings.MoveInjective | settings.js:125-126 | different positions after a drop hold items from different positions |
| Settings.RemoveKeepsDistinct | settings.js:171 | a removal keeps the ids distinct |
| Settings.AppendKeepsDistinct | settings.js:147-162 | appending an id not present keeps the ids distinct |
| Settings.SpliceOut | settings.js:171 | `splice(index, 1)` removes that index; a negative index counts from the end; an index past the end removes nothing |
| Settings.ChooseTitle | settings.js:153-157 | the typed title when non-blank, else the fetched title when non-empty, else the id |
| Settings.PlaylistEditor.constructor | settings.js:7-9 | the page starts with an empty playlist and no drag or token |
| Settings.PlaylistEditor.LoadPlaylist | settings.js:35-52 | the stored playlist when the document has one, the default otherwise and on failure; a truthy token is taken |
| Settings.PlaylistEditor.DragStart | settings.js:102-106 | a drag start records the index |
| Settings.PlaylistEditor.DragEnd | settings.js:107-111 | a drag end clears the index |
| Settings.PlaylistEditor.Drop | settings.js:121-129 | no drag or a drop on the dragged item changes nothing; otherwise the item moves, and distinct ids stay distinct |
| Settings.AddPrefix | settings.js:133-160 | `addVideo` suspends at the title lookup exactly when the title box is blank and the link is a new, recognised video, and it then carries that id |
| Settings.OverlappingAddsDuplicate | settings.js:133-162 | two overlapping adds of one new link with a blank title both suspend and both push, leaving the id twice |
| Settings.ResumeChecked | settings.js:162 | the push after the title lookup, with the duplicate check repeated, adds the id only when it is absent and keeps the ids distinct |
| Settings.OverlappingAddsChecked | settings.js:133-162 | with the repeated check, the two overlapping adds add the id once and the ids stay distinct |
| Settings.PlaylistEditor.AddVideo | settings.js:133-168 | an empty URL, an unrecognised id or an id in the list changes nothing; otherwise one item with the id and chosen title is appended, and distinct ids stay distinct |
| Settings.PlaylistEditor.RemoveVideo | settings.js:170-174 | the playlist is spliced at the index, and distinct ids stay distinct |
| Settings.PlaylistEditor.ResetPlaylist | settings.js:176-180 | the playlist is the default again |
| Settings.IsIdChar | settings.js:15 | defined as the class `[a-zA-Z0-9_-]` |
| Settings.IsVideoId | settings.js:15 | defined as exactly eleven id characters; see BareIdRecognised and ExtractVideoIdMeaning |
| Settings.LinkId | settings.js:14 | defined as the captured group of a link: the eleven characters after the prefix; see SearchFromSound |
| Settings.NoLinkIn | settings.js:14 | defined as: the URL pattern matches at no position from `lo` up to `hi`; used to state in SearchFromSound that the match is the leftmost |
| Settings.HasId | settings.js:147 | defined as `playlist.some(v => v.id === videoId)`; see AddPrefix and AddVideo |
| Settings.DistinctIds | settings.js:147-151 | defined as: no id occurs twice, the invariant the duplicate check keeps; see AddVideo, Drop and RemoveVideo |
| Settings.Move | settings.js:125-126 | defined as removing the dragged item and inserting it again at the drop index; see MovePermutes, MoveLands, MoveBack and MoveAt |
| Settings.MoveSource | settings.js:125-126 | defined as the index, before the drop, of the item that the drop puts at position `k`; see MoveAt |
| Settings.MoveAt | settings.js:125-126 | position `k` after a drop holds the item from `MoveSource(from, to, k)`: the dragged item at the drop index, and the items between the two indices shifted by one |
| Settings.ResumeAsWritten | settings.js:157-162 | defined as the push after the title lookup, with no second duplicate check; see OverlappingAddsDuplicate |
| Tv.Ids | tv.js:132 | the ids of the playlist, position by position |
| Tv.SliceIndex | tv.js:133 | the cut of `slice` is clamped and, for a start inside the list, is the start |
| Tv.RotatePermutes | tv.js:132-133 | the reordered ids have the length and multiset of the ids |
| Tv.RotateAt | tv.js:133 | position `i` of the rotation holds the id `i` places after the start, wrapping round |
| Tv.RotateFirst | tv.js:133-134 | the chosen id comes first, and start 0 keeps the order |
| Tv.FirstId | tv.js:134 | the first reordered id of a non-empty list |
| Tv.PlaylistUrlListsRotation | tv.js:131-137 | the URL embeds the chosen video, and its `playlist` parameter splits back into every id in rotation order from it |
| Tv.IsCompact | tv.js:69 | the overlay is compact exactly for nine or more entries |
| Tv.CompactExactlyWhenEveryLabel | tv.js:69 | on the snow report's forecast, the overlay is compact exactly when all nine labels had a section on the page |
| SnowReport.PushedCount | api/snow-report.js:107-147 | the label loop pushes at most one entry per label, and over distinct labels one per label exactly when every label has a section |
| SnowReport.ForecastFull | api/snow-report.js:100-168 | the forecast has at most nine entries, and nine exactly when every label has a section |
| SnowReport.SortOrder | api/snow-report.js:155-163 | defined as the comparator's key: Today, Tonight, then the weekdays counted from tomorrow, anything else 99; see SortOrderValues and SortOrderInjective |
| SnowReport.Describe | api/snow-report.js:118-145 | defined as the entry pushed for a found label: the day, its amount, its freezing level and its trimmed sentence; see ForecastEntries |
| SnowReport.Pushed | api/snow-report.js:107-148 | defined as `forecast` after the label loop: one entry per found label not already added; see CollectSections, PushedFromLabels, PushedDistinct, PushedComplete and PushedCount |
| SnowReport.DistinctDays | api/snow-report.js:103-108 | defined as: no two entries share a day; see PushedDistinct |
| SnowReport.DistinctLabels | api/snow-report.js:102 | defined as: no label occurs twice; see PushedCount and DaysDistinct |
| SnowReport.DaysDistinct | api/snow-report.js:102 | the nine labels of the list are distinct |
| SnowReport.ByDay | api/snow-report.js:164 | defined as the key `sortOrder(d.day)` that the comparator subtracts |
| SnowReport.SortForecast | api/snow-report.js:154-165 | defined as the sort of the forecast by that key; see InsertionSort, ForecastOrdered and TodayFirst |
| SnowReport.ParsedFrom | api/snow-report.js:46-98 | defined as the report that `parseSnowReport` builds from the page's captures and sections; see ParseSnowReport and ParsedFromUnique |
| SnowReport.Status | api/snow-report.js:12-42 | defined as 200 for the preflight and a served report, 500 for a failure; see Handler |
| SnowReport.HttpError | api/snow-report.js:25 | defined as `HTTP ` followed by the status in decimal; see Handler |
| Tv.TvPlayer.constructor | tv.js:13-23 | the default playlist, the first video and the selector closed |
| Tv.TvPlayer.LoadUserConfig | tv.js:239-242 | a present, non-empty saved playlist replaces the current one, and nothing else changes |
| Tv.TvPlayer.LoadUserConfigByToken | tv.js:249-263 | true exactly when the token was accepted; a present, non-empty playlist replaces the current one |
| Tv.TvPlayer.StartVideo | tv.js:292-294 | a non-empty playlist starts from its first video in saved order, and for a player in its invariant (a non-empty playlist) the start always happens |
| Tv.TvPlayer.PlayVideoByIndex | tv.js:139-148 | an index outside the playlist changes nothing; a valid one becomes current, restarts the player from that video and closes the selector |
| Tv.TvPlayer.ToggleVideoSelector | tv.js:182-185 | the open flag is negated |
| Tv.TvPlayer.CloseVideoSelector | tv.js:187-190 | the selector is closed |
| Tv.Rotate | tv.js:133 | defined as the ids from the clamped start to the end, then the ids before it; see RotatePermutes, RotateAt and RotateFirst |
| Tv.BuildPlaylistUrl | tv.js:131-137 | defined as the embed URL whose video is the first rotated id and whose `playlist` parameter is the rotated ids joined by commas; see PlaylistUrlListsRotation |
| Tv.CommaFree | tv.js:135 | defined as: no id holds a comma, so the joined parameter splits back into the ids; see PlaylistUrlListsRotation |
| App.Dashboard.constructor | app.js:63-76 | the first video with the selector closed |
| App.Dashboard.PlayVideoByIndex | app.js:344-353 | an index outside the playlist changes nothing; a valid one becomes current and closes the selector |
| App.Dashboard.PlayNextVideo | app.js:356-362 | the index advances by one modulo the playlist length, wrapping to 0 after the last, and stays in range |
| App.Dashboard.ToggleVideoSelector | app.js:398-401 | the open flag is negated |
| App.Dashboard.CloseVideoSelector | app.js:404-407 | the selector is closed |
| User.ScanItemsMeaning | api/user.js:53-57 | the loop accepts exactly when every item is valid; it throws exactly when the first invalid item is null, and otherwise rejects |
| User.CheckItems | api/user.js:53-57 | the loop's verdict is the front-to-back scan's |
| User.Validate | api/user.js:43-58 | a body is accepted exactly when it is an object whose playlist is absent, or an array of at most 50 valid items; a missing or non-object body is rejected as invalid |
| User.Merged | api/user.js:60-73 | the keys are the body's, the existing document's and the defaults'; `updatedAt` is the time of the request; `createdAt` is the existing one when truthy, else now; every other key takes the body's value, else the existing one, else the default playlist |
| User.CreatedAtNotFromBody | api/user.js:71-73 | the body has no say over `createdAt` |
| User.RepeatedPutOnlyTouchesUpdatedAt | api/user.js:60-76 | sending the same PUT again changes only `updatedAt` |
| User.Handler | api/user.js:14-80 | OPTIONS first; no auth gives 401 with no store access; GET returns the stored document or stores and returns the default; PUT rejects with 400 and no write, or stores and returns the merge; other methods give 405 |
| User.UserKey | api/user.js:26 | defined as `user:` followed by the user id; see Handler |
| User.DefaultDoc | api/user.js:31-36 | defined as the default playlist with `createdAt` and `updatedAt` both the time of the request; see Handler, which stores and returns it on a first GET |
| User.NonEmptyString | api/user.js:54 | defined as a property that is present, a string, and not empty; see ValidItem |
| User.ValidItem | api/user.js:54 | defined as an item whose `id` and `title` are both non-empty strings; see ScanItemsMeaning |
| User.ScanItems | api/user.js:53-57 | defined as the item loop read front to back: a null item throws, the first other invalid item rejects, and the end accepts; see ScanItemsMeaning and CheckItems |
| User.Existing | api/user.js:66 | defined as the properties that `...existing` copies, and none for a missing document; see Merged |
| User.CreatedAt | api/user.js:73 | defined as the existing `createdAt` when it is truthy, else the time of the request; see Merged and CreatedAtNotFromBody |
| User.MergeOverMerged | api/user.js:60-73 | merging a body into a document that already holds the body's properties and a truthy `createdAt` changes only `updatedAt` |
| TvAuth.Handle | api/tv-auth.js:6-29 | OPTIONS, then 405 for other non-GET methods, 401 for a malformed token, 401 'Invalid token' for an unknown token, 401 'User not found' exactly when the token is known but its user record is missing; a document exactly when both lookups succeed, and it is the user's |
| TvAuth.CaseInsensitive | api/tv-auth.js:18 | tokens that differ only in letter case get the same answer |
| TvAuth.UpperCaseTokenSame | api/tv-auth.js:18 | a token's upper-case form gets the same answer as the token |
| TvAuth.TokenKey | api/tv-auth.js:18 | defined as `tvtoken:` followed by the upper-cased token; see Handle and CaseInsensitive |
| TvAuth.Interpolate | api/tv-auth.js:23 | defined as the template-string form of the stored user id: a string is itself, null is `null`, an object is `[object Object]`; see Handle |
| TvAuth.WellFormedToken | api/tv-auth.js:14 | defined as a single, non-empty string parameter of four characters; see Handle, which refuses every other token with 401 'Invalid token' |
| Theme.ServerTheme | theme.js:197 | the server's theme when non-empty, else `midnight` |
| Theme.ThemeState.constructor | theme.js:160-168 | a fresh browser: nothing stored and no attribute |
| Theme.ThemeState.StoredTheme | theme.js:161-168 | the stored name exactly when it is one of the nine themes, else null |
| Theme.ThemeState.EffectiveTheme | theme.js:198 | the theme in effect is a valid theme: the stored one or `midnight` |
| Theme.ThemeState.ApplyTheme | theme.js:170-176 | null, empty or `midnight` removes the attribute; another valid name sets it; an unknown name leaves it alone |
| Theme.ThemeState.ApplyStoredTheme | theme.js:205-208 | on load the attribute shows the theme in effect |
| Theme.ThemeState.SetTheme | theme.js:178-181 | the name is stored even when invalid and then reads back as null; a valid name is shown; an empty name or the default removes the attribute |
| Theme.ThemeState.ClearTheme | theme.js:183-186 | nothing is stored, no attribute, and the theme in effect is `midnight` |
| Theme.ThemeState.SyncThemeFromServer | theme.js:188-203 | nothing happens without a server answer or when the server's theme equals the local one; otherwise the server's theme is stored and, when valid, takes effect |
| Text.ToLower | api/snow-report.js:69 | lower-casing keeps the length and maps each character |
| Text.ToUpper | api/tv-auth.js:18 | upper-casing keeps the length and maps each character |
| Text.ToUpperIdempotent | api/tv-auth.js:18 | upper-casing twice is upper-casing once |
| Text.Trim | settings.js:12 | the result has no whitespace at either end |
| Text.LeadingWhitespace | settings.js:12 | the count of leading characters removed stops at the first non-whitespace character |
| Text.LeadingWhitespaceAll | settings.js:12 | every character before that count is whitespace |
| Text.TrailingWhitespace | settings.js:12 | the count of trailing characters removed stops at the last non-whitespace character |
| Text.TrailingWhitespaceAll | settings.js:12 | every character within that count from the end is whitespace |
| Text.TrimSlice | settings.js:12 | the trimmed string is the slice of the input that starts after its leading whitespace, and only whitespace follows it, so `trim` removes whitespace at the ends and nothing else |
| Text.Contains | api/calendar-data.js:37 | `includes` holds exactly when the pattern occurs at some position |
| Text.SplitJoin | tv.js:135 | splitting a comma-joined list whose parts hold no comma gives the list back |
| Text.NatToString | calendar.js:114 | the decimal form is digits with no leading zero |
| Text.NatToStringRoundTrip | calendar.js:114 | the digits read back as the number |
| Text.NatToStringInjective | shared.js:23 | distinct numbers have distinct decimal forms |
| Text.IntToStringRoundTrip | calendar.js:109 | the signed decimal form reads back as the integer |
| Text.PadStart2 | calendar.js:114 | padding gives at least two characters, fills the front with `'0'` and keeps the original at the end; a string of two or more characters is returned as it is |
| Text.JsParseIntNoNumber | api/calendar-data.js:16 | `parseInt` is `NaN` for an empty string and one whose first character starts neither whitespace, a sign nor a number |
| Text.JsParseIntOfIntToString | api/calendar-data.js:16 | `parseInt` reads back the decimal form of an integer followed by a non-digit |
| Text.IsDigit | api/calendar-data.js:28 | defined as a character from `0` to `9` |
| Text.LowerChar | api/snow-report.js:69 | defined as the lower-case form of an ASCII capital, any other character unchanged; see ToLower |
| Text.UpperChar | api/tv-auth.js:18 | defined as the upper-case form of an ASCII small letter, any other character unchanged; see ToUpper |
| Text.IsWhitespace | settings.js:12 | defined as the characters that JavaScript's `trim` removes; see Trim and TrimSlice |
| Text.TrimStart | settings.js:12 | the result does not start with whitespace; see TrimSlice |
| Text.TrimEnd | settings.js:12 | the result does not end with whitespace; see TrimSlice |
| Text.Join | tv.js:135 | defined as the parts separated by `sep`; see SplitJoin |
| Text.IndexOf | tv.js:135 | the index of the first `c`, or the length when there is none: every earlier character differs from `c` |
| Text.Split | tv.js:135 | defined as splitting at every `c`; the partner of Join in SplitJoin |
| Text.DigitsValue | api/calendar-data.js:32 | defined as the decimal value of a run of digits; see NatToStringRoundTrip |
| Text.IntToString | calendar.js:109 | defined as the decimal digits, with a `-` before a negative value; see IntToStringRoundTrip |
| Text.ParseInt | calendar.js:109 | defined as reading back an optionally signed decimal string; the partner of IntToString in IntToStringRoundTrip |
| Text.DigitRun | api/calendar-data.js:16 | the longest prefix of digits of the radix: every character in it is a digit, and the one after it is not |
| Text.ParseRun | api/calendar-data.js:16 | defined as the unsigned part of `parseInt`: `0x` or `0X` selects radix 16, the digit run is the value, and no digits is `NaN`; see JsParseIntNoNumber |
| Text.JsParseInt | api/calendar-data.js:16 | defined as `parseInt` without a radix: leading whitespace is skipped and one sign is read before the unsigned part; see JsParseIntNoNumber, JsParseIntOfIntToString and ResolveYearLenient |
| Text.JsParseIntNegative | api/calendar-data.js:16 | after a leading `-`, `parseInt` is the negated unsigned part, or `NaN` when that has no digits |
| Text.JsParseIntDigitFirst | api/calendar-data.js:16 | a string that starts with a digit parses as its unsigned part |
| Text.JsParseIntOfNegative | api/calendar-data.js:16 | `-` and the decimal form of a positive number, followed by a non-digit other than `x`, parse as the negative number |
| Text.JsParseIntOfNat | api/calendar-data.js:16 | the decimal form of a number, followed by a non-digit other than `x`, parses as the number |

## Left out

- The regular expressions over HTML in api/snow-report.js are not run on text: a page is given as the sections, the captures and the day labels they find. The date pattern of api/calendar-data.js and the URL patterns of settings.js are modelled on strings.
- `fetch`, Clerk authentication (api/lib/auth.js), `Date.now`/`new Date()` and `Math.random` are parameters: the fetched page or reply, the authenticated user id, the current time and year, and the animation's random start.
- api/lib/storage.js: connecting to Upstash Redis, the switch between Redis and a local JSON file, file I/O and the error paths that answer 500 are not modelled; the store is one in-memory map with its key order.
- Storage.Store.GetWithMock: the random mock history is not built; the method returns `Generated` where the source would make one.
- The day-name-to-date conversion (`dayNameToDateKey`) and the forecast-history reconciler that test/forecast-history.test.js imports are not part of this model: neither is in api/snow-report.js, which exports only its handler.
- The noembed title lookup and the YouTube player API are not modelled: the fetched title is a parameter of Settings.PlaylistEditor.AddVideo, and the player is its `src` string.
- nav.js and script.js (navigation widget, page scraping, snowflakes) are DOM code and are not modelled.
- The DOM, the HTML strings of the dashboard, the timers and refresh loop, the ticker, the webcams, the sparkline's floating-point coordinates and the theme colour tables are not modelled; the calendar's cells are modelled as values carrying what the HTML shows.
- Text.ToUpper and Text.ToLower map ASCII letters only, where JavaScript applies full Unicode case mapping.
- Calendar.DateKeyIsDate: stated for four-digit years only; of JavaScript's `Date` rules the model keeps the Gregorian calendar and the mapping of years 0 to 99 to 1900 + year, not the range limits.
- Settings.PlaylistEditor.Drop: requires both indices inside the playlist, which the page's event handlers guarantee; the source's `splice` with an out-of-range index is not modelled there (it is in Settings.SpliceOut for removal).
- The TV token's `encodeURIComponent` in tv.js is not modelled: the token reply is a parameter.
- User.Merged: the merged document is a map, so the JSON key order of the spread is not modelled.
- A `localStorage` that throws is not modelled: theme.js then reads null and skips the write.
- Theme.ServerTheme: the server's `theme` is modelled as an optional string; a non-string value in the document is not modelled.
- Concurrency between requests and between a page and the endpoints is not modelled: each handler runs alone on the store.
- Settings.PlaylistEditor.AddVideo: modelled as one atomic step with the duplicate check right before the push. The source awaits the title lookup between the check and the push, and a second call can start in that gap; that interleaving is modelled only on values, by Settings.AddPrefix and the lemmas under "## Findings".
- Records.NonEmptyHistory: a value under a `forecast:` key is taken to be a forecast record, the shape the forecast writer stores. A JSON document of another shape with a non-empty `history` array passes the guard in the source and is skipped by the model, in both the cleanup (api/cleanup-forecasts.js:21) and the calendar (api/calendar-data.js:25) endpoints.
- Storage.Store.Set: keys are kept in insertion order, which is JavaScript's property order for keys that are not array indices. A key such as `"7"`, which `Object.entries` lists first in ascending numeric order, is not modelled; the entries of Storage.ListEntries, Storage.Store.GetAll and Storage.Store.GetAllByPrefix are in insertion order for every key.
- Text.JsParseInt: the value is an unbounded integer, where JavaScript's `parseInt` yields a double, so a digit run above 2^53 loses precision in the source and not in the model; CalendarData.ResolveYear inherits this, and the snow figures and temperatures read with `parseInt` in api/snow-report.js are taken as exact integers too.
- TvAuth.Handle: a token's length is counted in Unicode characters, where JavaScript's `token.length` counts UTF-16 code units; a token with characters outside the Basic Multilingual Plane has a different length there.

## Findings

| source | as written | input that shows it | evidently intended | confidence | as-written member | corrected member |
|---|---|---|---|---|---|---|
| settings.js:133-162 | `addVideo` checks for a duplicate id, then awaits the title lookup when the title box is blank, then pushes without checking again; the Add button is disabled during the lookup, but Enter in either box (settings.js:240-244) still calls `addVideo` | a new link, blank title, Enter pressed twice before the first title lookup answers: both calls pass the check and the playlist holds the id twice | an id is added at most once, as the duplicate check and the disabled button show | likely; not executed | Settings.OverlappingAddsDuplicate | Settings.ResumeChecked |
