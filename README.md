# life-monitor, modelled in Dafny

life-monitor is a personal monitoring bot. A request names a job, and the entry point runs it:

- **Calendar job** (`calendar`, `calendar_weekly`): the bot reads the owner's sport events from a calendar. For each sport it builds a table of observations. It evaluates that sport's message rules against the most recent event, then sends the resulting congratulations and the sport's plots over a chat bot.
- **Journal job** (`org`): the bot reads one org-mode file per ISO week, with one heading per day carrying the day's scores. It turns them into a table and compares this week's mean of every score with quantiles of the whole history.

This project models the core of that system:

- `Utils`: the request kinds.
- `CalTable` and `CalRules`: the calendar table and its rules.
- `CalCumulative`: the cumulative-distance curve behind the plots.
- `CalRegistry`: which rules run for which sport.
- `Org`: the journal loader and its messages.
- `Yearly`: the yearly variety statistics.
- `Driver`: the entry point that sends everything.

`Seqs`, `Text`, `Stats` and `Dates` model the pieces of Python, pandas and `datetime` that the core relies on:

- filtering;
- `str.lower` and `split`;
- linear-interpolation quantiles and means;
- day ordinals and ISO week numbers.

The model represents the data as follows:

- **Calendar events**: records whose optional fields stand for keys an event may lack.
- **Observation tables**: sequences of rows. A row's timestamp is in minutes since 0001-01-01T00:00, and its calendar columns are derived from that timestamp.
- **Missing distances** (pandas' NaN) are `None`. They count as zero in sums, and a comparison with a NaN is false.
- **The chat bot** is a class that records what it was asked to send. Each job is proved to send exactly what a pure function of its inputs describes.
- **External inputs are parameters**: the calendar's answer, the parsed week files, a reference date and the plotting functions. For the calendar job the reference date is the date on which `monitoring/cal.py` was imported, not the date of the request (see "Left out").

## Model

| member | source | states |
|---|---|---|
| Utils.AllSportsListsEachSportOnce | monitoring/utils.py:7-16 | iterating the Sport enum visits every sport exactly once |
| Utils.SportValuesDistinct | monitoring/utils.py:7-16 | two sports with the same value are the same sport, so a value names one sport |
| Utils.GymVariantsStartWithGym | monitoring/cal.py:46-51 | every gym sub-discipline's value begins with "gym", which is what the prefix test for gym relies on |
| Utils.FirstOfJanTimestamp | monitoring/utils.py:29-30 | for years 1..9999 the result is 20 characters: the year as four digits that read back as the year, then "-01-01T00:00:00Z"; any other year fails, as datetime raises |
| Utils.ParsePayload | monitoring/utils.py:33-42 | text that is not JSON gives the tuple ("JSON Error", 400); a JSON object gives its truthy "kind", otherwise "default"; any other JSON value fails (no `.get`); every returned kind is truthy |
| Text.Lower | monitoring/cal.py:50 | same length, each character lower-cased |
| Text.BeforeFirst | monitoring/cal.py:111 | `split("km")[0]`: a prefix of the text that contains no "km" and ends just before the first "km", or is the whole text when there is none |
| Text.IntegerTextParses | monitoring/cal.py:123 | a whole-number text is read by `to_numeric` as a whole value |
| Text.IntToStringParses | monitoring/cal.py:240 | `str` of an integer is a whole-number text that reads back as that integer |
| Text.FloatStringParses | monitoring/cal.py:240 | `str` of an integral float (digits and ".0") reads back as the same value but is not a whole-number text |
| Text.ParseDecimal | monitoring/cal.py:123 | reads a signed decimal with an optional fraction and surrounding spaces, None otherwise; characterized by Text.IntegerTextParses, Text.IntToStringParses and Text.FloatStringParses (whole-number and `str`-printed texts read back as their values) |
| Dates.DayOfYear | monitoring/cal.py:353 | the day of the year lies in 1..366 |
| Dates.IsoWeek | monitoring/cal.py:120 | the ISO week number lies in 1..53 |
| Dates.IsoWeek1MondayNearNewYear | monitoring/cal.py:120 | ISO week 1 starts on a Monday at most three days from 1 January |
| Dates.IsoYearLength | monitoring/cal.py:120 | consecutive ISO years are 52 or 53 weeks apart |
| Dates.OrdinalInjective | monitoring/cal.py:118-122 | a day ordinal names at most one valid date: two valid dates with the same ordinal are equal |
| Stats.Quantile | monitoring/cal.py:156 | the quantile is missing (NaN) exactly when there are no values |
| Stats.QuantileBounded | monitoring/cal.py:156 | a bound that holds for every value holds for every quantile |
| Stats.QuantileMonotone | monitoring/org.py:76-77 | a higher quantile level never gives a lower quantile |
| Stats.Mean | monitoring/org.py:78 | the mean is missing (NaN) exactly when there are no values |
| Stats.Sort | monitoring/cal.py:156 | sorted and a permutation of its input |
| CalTable.GetFilteredEvents | monitoring/cal.py:128-136 | succeeds exactly for the "summary" and "color" filter kinds; keeps, in order, exactly the events the filter accepts, every copy of each and as many events as the filter accepts: "gym" by lower-cased prefix, other sports by exact lower-cased summary plus a description, colours by `colorId` |
| CalTable.SummaryFilter | monitoring/cal.py:43-61 | accepts an event exactly when SummaryMatches: gym by lower-cased prefix, other sports by exact lower-cased summary and a description; characterized by CalTable.GetFilteredEvents and CalFixtures.SummaryFilterCounts |
| CalTable.ColorFilter | monitoring/cal.py:64-68 | accepts an event exactly when it has that colorId; characterized by CalTable.GetFilteredEvents |
| CalTable.IntegralDistance | monitoring/cal.py:123 | a distance text that is a whole number reads back as a whole value, the case in which pandas gives the column an integer dtype |
| CalTable.ParseDistance | monitoring/cal.py:111-123 | the empty text is a missing distance, a decimal text its value, anything else a NumberParseError; characterized by CalTable.FirstBadDistance, CalTable.IntegralDistance and CalTable.GetDataframe |
| CalTable.ParseTimestamp | monitoring/cal.py:118 | a parsed timestamp is a valid date and time inside pandas' timestamp range |
| CalTable.RowOf | monitoring/cal.py:108-124 | a row keeps the event's start text and summary; its distance is the parsed text before "km", marked integral exactly when that text is a whole number; its calendar columns come from the first 16 characters of the start time and agree with its timestamp |
| CalTable.FirstBadTimestamp | monitoring/cal.py:118 | no bad timestamp exactly when every start time parses |
| CalTable.FirstBadDistance | monitoring/cal.py:123 | no bad distance exactly when every distance text parses |
| CalTable.GetDataframe | monitoring/cal.py:107-125 | no events give an empty table; it succeeds exactly when every event loads; a missing start time is a KeyError before a missing summary; on success there is one row per event, in order |
| CalTable.GetDataframeErrorOrder | monitoring/cal.py:118-123 | with both keys present, a start time that does not parse is the error, before any distance; a distance error means every start time parsed |
| CalTable.GetDataframeConsistent | monitoring/cal.py:118-124 | in every table built, the day, week, month, year and hour columns agree with the timestamp |
| CalTable.GetTimeRelevantEvents | monitoring/cal.py:87-98 | keeps, in order, exactly the rows on the given day (daily) or in the given date's year and ISO week (weekly), every copy of each and as many rows as are time-relevant |
| CalTable.HasTimeRelevantEvent | monitoring/cal.py:101-104 | true exactly when some row is time-relevant |
| CalTable.IsTimeRelevant | monitoring/cal.py:87-98 | a row is relevant daily when it has the date's year, month and day, weekly when it has the date's year and ISO week; characterized by CalTable.GetTimeRelevantEvents and CalTable.HasTimeRelevantEvent |
| CalRules.CurrentDate | monitoring/cal.py:16-17 | the latest timestamp of the table, held by some row |
| CalRules.LastEventIndex | monitoring/cal.py:20-29 | the first row holding the latest timestamp, the row `.iloc[0]` reads the current year, month and week from |
| CalRules.CurrentYear | monitoring/cal.py:20-21 | the year of the first row at the latest timestamp; characterized by CalRules.AnchorDay (every row at that timestamp has it) and CalRules.CalendarFromTimestamp |
| CalRules.CurrentMonth | monitoring/cal.py:24-25 | the month of that row; characterized by CalRules.AnchorDay and CalRules.PreviousMonth |
| CalRules.CurrentWeek | monitoring/cal.py:28-29 | the week of that row; characterized by CalRules.AnchorDay and CalRules.FirstWeekHasNoYearToDate |
| CalRules.DistanceLastEvent | monitoring/cal.py:38-40 | the summed distance of every row at the latest timestamp; characterized by CalRules.YearSplit (it is what the last event adds to the year) and CalRules.LastEventCounted |
| CalRules.PreviousMonth | monitoring/cal.py:32-35 | one less than the current month, hence 0 in January |
| CalRules.CalendarFromTimestamp | monitoring/cal.py:118-122 | in a consistent table, rows with the same timestamp have the same year, month and week |
| CalRules.AnchorDay | monitoring/cal.py:20-29 | every row at the latest timestamp lies in the current year, month and week |
| CalRules.DistanceSumNonNegative | monitoring/cal.py:40 | the total distance of rows with no negative distance is not negative |
| CalRules.SplitTotals | monitoring/cal.py:231-236 | a selection made of two disjoint selections has their summed distance and their summed count |
| CalRules.YearSplit | monitoring/cal.py:305-310 | the current year's distance and count are those before the latest timestamp plus those at it |
| CalRules.MonthSplit | monitoring/cal.py:253-261 | the same for the current month |
| CalRules.LastEventCounted | monitoring/cal.py:38-40 | at least one row holds the latest timestamp |
| CalRules.DistancePreviousYearFires | monitoring/cal.py:299-314 | the message is sent exactly when the year's total with the last day included reaches last year's total and the total without it did not |
| CalRules.DistancePreviousYear | monitoring/cal.py:299-314 | the yearly distance catch-up message; characterized by CalRules.DistancePreviousYearFires, CalRules.NoPreviousYearNoCatchUp and CalRules.ZeroPreviousYearNoCatchUp |
| CalRules.DistancePreviousYearsMonthFires | monitoring/cal.py:243-268 | the same comparison for the current month against the same month last year |
| CalRules.DistancePreviousYearsMonth | monitoring/cal.py:243-268 | the monthly distance catch-up message; characterized by CalRules.DistancePreviousYearsMonthFires, CalRules.NoPreviousMonthNoCatchUp and CalRules.ZeroPreviousMonthNoCatchUp |
| CalRules.FrequencyPreviousYearFires | monitoring/cal.py:317-336 | the message is sent exactly when last year's count is one more than this year's count before the latest timestamp; then this year's count has reached last year's |
| CalRules.FrequencyPreviousYear | monitoring/cal.py:317-336 | the yearly activity-count catch-up message; characterized by CalRules.FrequencyPreviousYearFires and CalRules.NoPreviousYearNoCatchUp |
| CalRules.FrequencyPreviousYearsMonthFires | monitoring/cal.py:271-296 | the same for the current month against the same month last year |
| CalRules.FrequencyPreviousYearsMonth | monitoring/cal.py:271-296 | the monthly activity-count catch-up message; characterized by CalRules.FrequencyPreviousYearsMonthFires and CalRules.NoPreviousMonthNoCatchUp |
| CalRules.NoPreviousYearNoCatchUp | monitoring/cal.py:299-336 | with nothing recorded last year and no negative distance, neither yearly catch-up message is sent |
| CalRules.ZeroPreviousYearNoCatchUp | monitoring/cal.py:299-314 | a previous year whose distances add up to zero, rows without a distance included, is never caught up with when no distance is negative |
| CalRules.NoPreviousMonthNoCatchUp | monitoring/cal.py:243-296 | with nothing recorded in that month last year, neither monthly catch-up message is sent |
| CalRules.ZeroPreviousMonthNoCatchUp | monitoring/cal.py:243-268 | the same for a same month of last year whose distances add up to zero |
| CalRules.NonNegativeSelection | monitoring/cal.py:304-307 | a selection of rows without negative distances has none either, and a total that is not negative |
| CalRules.MilestoneFires | monitoring/cal.py:227-240 | the milestone message is sent exactly when the year's distance passes a multiple of the interval with the last day, and it names the largest multiple reached, printed as the distance column prints it: "250" for an integer column, "250.0" for a float one |
| CalRules.Milestone | monitoring/cal.py:237-240 | the comparison of `(after // interval) * interval` with the distance before; characterized by CalRules.MilestoneFires and CalRules.MilestoneFloor |
| CalRules.DistanceModInterval | monitoring/cal.py:227-240 | Milestone applied to the year's distance before the latest timestamp and that distance plus DistanceLastEvent, which by CalRules.YearSplit is the year's total; characterized by CalRules.MilestoneFires and CalRules.ThresholdText |
| CalRules.MilestoneFloor | monitoring/cal.py:238 | `(after // interval) * interval` exceeds the distance before exactly when some multiple was crossed, and is then the largest one crossed |
| CalRules.ThresholdText | monitoring/cal.py:238-240 | the printed threshold reads back as the threshold, and is a whole-number text exactly when the distance column is integral |
| CalRules.WeekKeys | monitoring/cal.py:154 | the groups of `groupby("week")`: every week that occurs, once each, and nothing else |
| CalRules.WeekDistances | monitoring/cal.py:154-155 | one entry per group: the group's total distance |
| CalRules.WeekCounts | monitoring/cal.py:178-179 | one entry per group: the group's number of activities |
| CalRules.WeekKeySplit | monitoring/cal.py:154-155 | the rows of several distinct weeks are those of the first week plus those of the others |
| CalRules.WeekGroupsPartition | monitoring/cal.py:154-155 | the group totals add up to the distance of the grouped rows |
| CalRules.WeekCountsPartition | monitoring/cal.py:178-179 | the group counts add up to the number of grouped rows |
| CalRules.WeekTotalsAddUp | monitoring/cal.py:154-155 | grouping by week loses no distance and no activity |
| CalRules.AboveQuantileBounds | monitoring/cal.py:156-159 | `weekly > quantile` fails without reference values, holds when every value is beaten, and fails when none is |
| CalRules.WeeklyDistanceAboveBounds | monitoring/cal.py:139-160 | the weekly distance rules fire when this week beats every reference week, never when it beats none, and never without reference rows |
| CalRules.WeeklyCountAboveBounds | monitoring/cal.py:163-184 | the same for the weekly frequency rules |
| CalRules.DistanceWeeklyVsYear | monitoring/cal.py:139-160 | this week's distance against the quantile of the weekly totals of the past 365 days before this week; characterized by CalRules.WeeklyDistanceAboveBounds, CalRules.WeekKeys and CalRules.WeekDistances |
| CalRules.FrequencyWeeklyVsYear | monitoring/cal.py:163-184 | the same for the number of activities; characterized by CalRules.WeeklyCountAboveBounds, CalRules.WeekKeys and CalRules.WeekCounts |
| CalRules.DistanceWeeklyVsYtd | monitoring/cal.py:187-204 | this week's distance against the quantile of the weekly totals earlier in the year; characterized by CalRules.WeeklyDistanceAboveBounds and CalRules.FirstWeekHasNoYearToDate |
| CalRules.FrequencyWeeklyVsYtd | monitoring/cal.py:207-224 | the same for the number of activities, sent with the past-12-months text; characterized by CalRules.WeeklyCountAboveBounds and CalRules.FirstWeekHasNoYearToDate |
| CalRules.FirstWeekHasNoYearToDate | monitoring/cal.py:187-224 | in week 1 the year-to-date rules have no reference and send nothing |
| CalRules.DayColumn | monitoring/cal.py:343 | the date of every row, in order |
| CalRules.Streak | monitoring/cal.py:339-349 | the loop sends the streak message exactly when each of the `duration - 1` days before the last event's day has an event |
| CalRules.StreakMessage | monitoring/cal.py:339-349 | the streak message when each of the `duration - 1` days before the last event's day has an event, None otherwise; characterized by CalRules.Streak (the loop computes it), CalRules.StreakShortens and CalRules.ActiveDaysBeforeMeans |
| CalRules.StreakShortens | monitoring/cal.py:344-347 | a streak of some length holds for every shorter length |
| CalRules.ActiveDaysBeforeMeans | monitoring/cal.py:345 | the day test holds exactly when some row lies exactly `k` days before the last event's day |
| CalCumulative.DayOfYearOf | monitoring/cal.py:353 | in 0..366, and at least 1 for every consistent row |
| CalCumulative.ConsistentDaysPositive | monitoring/cal.py:353 | every row of a consistent table has a day of the year |
| CalCumulative.DaysPositiveSelection | monitoring/cal.py:372 | a selection of such a table is one too |
| CalCumulative.KeyColumn | monitoring/cal.py:355-356 | the grouping key of every row, in order |
| CalCumulative.InsertKey | monitoring/cal.py:356 | adds a key to an ascending sequence of distinct keys and keeps it ascending |
| CalCumulative.GroupKeys | monitoring/cal.py:356 | the distinct keys, strictly ascending |
| CalCumulative.Groups | monitoring/cal.py:356 | strictly ascending, listing exactly the keys that occur |
| CalCumulative.Days | monitoring/cal.py:360 | the x column of a curve |
| CalCumulative.DaySumIsSelection | monitoring/cal.py:355-357 | a day's sum is the distance of that day's rows |
| CalCumulative.DaySumNonNegative | monitoring/cal.py:357 | a day's sum is not negative when no distance is |
| CalCumulative.Cumulate | monitoring/cal.py:360 | one point per day, carrying that day |
| CalCumulative.CumulateStep | monitoring/cal.py:360 | going from one key to the next adds that key's rows to the running total |
| CalCumulative.CumulateFollows | monitoring/cal.py:360 | the running totals follow any function of the day that grows by the day sums |
| CalCumulative.CumulateMeaning | monitoring/cal.py:354-360 | each running total is the distance of all rows up to its day |
| CalCumulative.UpToLastKey | monitoring/cal.py:360 | selecting the rows up to the last key selects all of them |
| CalCumulative.CurveTotals | monitoring/cal.py:352-361 | every point of the curve carries the distance of the rows up to its day |
| CalCumulative.CurveTotal | monitoring/cal.py:352-361 | the last point carries the whole distance |
| CalCumulative.CumulateComplete | monitoring/cal.py:352-361 | the curve has exactly the occurring days, ascending, so every point's day is some row's day and every row's day is a point, each carrying the distance up to it |
| CalCumulative.CurveUnique | monitoring/cal.py:352-361 | two curves of the same rows are equal: the days that occur, ascending, with their running totals determine the curve |
| CalCumulative.AscendingSameElements | monitoring/cal.py:354-359 | the ascending day index of a groupby is determined by the set of days it holds |
| CalCumulative.CumulativeDayDistancesMeaning | monitoring/cal.py:352-361 | `_get_cumulative_day_distances` of a year's rows is that year's cumulative curve: one point per occurring day and no other, ascending, each with the distance up to it; with CalCumulative.CurveUnique, the only such curve |
| CalCumulative.CumulativeDayDistances | monitoring/cal.py:352-361 | the running totals of the per-day distance sums, by ascending day of the year; characterized by CalCumulative.CumulativeDayDistancesMeaning, CalCumulative.CurveUnique and CalCumulative.CumulativeDayDistancesNonDecreasing |
| CalCumulative.CumulateMonotone | monitoring/cal.py:360 | without negative distances the running totals never decrease |
| CalCumulative.CumulativeDayDistancesNonDecreasing | monitoring/cal.py:352-361 | without negative distances the curve never decreases and stays non-negative |
| CalRegistry.Bind | monitoring/cal.py:398-403 | every bound rule is the listed rule with the sport bound |
| CalRegistry.RegistryWellFormed | monitoring/cal.py:395-441 | every registered rule is bound to the requested sport, can be evaluated, and looks at a week exactly for the weekly registry |
| CalRegistry.RegistrySizes | monitoring/cal.py:395-441 | only running, cycling, gym and daily swimming have rules: six, four, six, two, three, two and one |
| CalRegistry.RegistryParameters | monitoring/cal.py:395-441 | the milestone is 100 km for running and 250 km for cycling; swimming's only rule is a two-day streak |
| CalRegistry.MessageFunctionRegistry | monitoring/cal.py:395-441 | the message rules of a sport and interval, in the listed order; characterized by CalRegistry.RegistrySizes, CalRegistry.RegistryParameters and CalRegistry.RegistryWellFormed |
| CalRegistry.Rules | monitoring/cal.py:395-441 | the rules of a registry, in order |
| CalRegistry.EvaluateRule | main.py:52 | calling a registered rule gives that rule's message, the streak computed by its loop |
| CalRegistry.RunRule | main.py:52 | a registered rule called on a table gives that rule function's message with the rule's sport and arguments; characterized by CalRegistry.EvaluateRule and the rules' own lemmas |
| CalRegistry.ImageRegistryShape | monitoring/cal.py:444-466 | images only for the weekly reports of running, cycling and swimming: one each, for that sport, under the given path |
| CalRegistry.ImageFunctionRegistry | monitoring/cal.py:444-466 | the image rules of a sport and interval; characterized by CalRegistry.ImageRegistryShape |
| CalFixtures.RunningEvent | tests/test_cal.py:16-29 | a "Running" event passes only the running filter |
| CalFixtures.GymEvent | tests/test_cal.py:30-42 | "Gym" and "Gym: ub" events without a description pass only the gym filter |
| CalFixtures.SwimmingEvent | tests/test_cal.py:43-56 | the swimming event passes none of the four filters |
| CalFixtures.EventMatches | tests/test_cal.py:13-90 | which of the seven fixture events each of the four filters accepts |
| CalFixtures.SummaryFilterCounts | tests/test_cal.py:97-110 | the filters keep 4 running events, 2 gym events, 0 "gym: ub" and 0 cycling events |
| CalFixtures.UnpaddedStartFails | tests/test_cal.py:70-89 | the running events of the 5th to 7th have start times without a zero ("2020-01-5T08:30"), which the model's timestamp reader refuses, so the running events build no table |
| CalFixtures.UnloadableEvent | monitoring/cal.py:107-125 | one event that does not load makes the whole table fail |
| CalFixtures.RunningDays | tests/test_cal.py:174-182 | the running table falls on 1 and 5-7 January 2020; its last day, and its latest timestamp, are those of the 7th |
| CalFixtures.RunningRowMade | monitoring/cal.py:118-124 | each written-out fixture row is the row built from a zero-padded 08:30 start on its day of January 2020, and falls on that day |
| CalFixtures.StreakOfThree | tests/test_cal.py:174-182 | the running days make streaks of 1, 2 and 3 days |
| CalFixtures.NoStreakOfFour | tests/test_cal.py:174-182 | there is no streak of 4 days |
| Org.DayKeyBijective | monitoring/org.py:47 | distinct week and weekday pairs get distinct day keys |
| Org.DayKeyCovers | monitoring/org.py:47 | every non-negative key is the key of a weekday heading |
| Org.WithWeek | monitoring/org.py:45-46 | the drawer's properties plus `week`, which overrides any `week` property |
| Org.MissingChild | monitoring/org.py:44-45 | the first weekday heading a week file lacks |
| Org.DayKeyOrder | monitoring/org.py:42-47 | earlier weeks, and earlier weekdays of the same week, get smaller keys |
| Org.StoredNextWeek | monitoring/org.py:42-48 | storing a week's seven weekdays completes that week |
| Org.StoredStep | monitoring/org.py:48 | storing one more weekday keeps every day stored so far |
| Org.StoredAsLoaded | monitoring/org.py:42-48 | after the loops, every weekday of every week is stored under its key |
| Org.LoadData | monitoring/org.py:34-51 | either every week up to `maxWeek` loads, with 7 days per week under keys 0..n-1 in insertion order, each day's properties plus its week; or the first week that fails, as a missing file or a missing heading |
| Org.FirstFailingWeek | monitoring/org.py:42-43 | the first week in a range that does not load, or none exactly when all load |
| Org.LoadResult | monitoring/org.py:34-51 | a loaded result's insertion order lists exactly its keys, once each |
| Org.RepeatedKeyRejected | monitoring/org.py:48-51 | an insertion order that lists a key twice is not a loaded dictionary |
| Org.AllDays | monitoring/org.py:42-48 | the days of all weeks, in key order |
| Org.FailingWeekIsFirst | monitoring/org.py:42-43 | a failing week with no failing week before it is the first failing week |
| Org.StoredAtKey | monitoring/org.py:47-48 | day d holds weekday d mod 7 of week d / 7 + 1 |
| Org.LoadOutcomeIsLoadResult | monitoring/org.py:34-51 | LoadData's postcondition determines its result: LoadResult |
| Org.Truncate | monitoring/org.py:58 | `astype(int)` truncates toward zero |
| Org.ProcessRow | monitoring/org.py:55-58 | "x" becomes a missing cell, every other cell its number, the week an integer |
| Org.ProcessData | monitoring/org.py:54-59 | succeeds exactly when every cell is a number or "x", there are rows, and each has a week; a missing week column is a KeyError and every other failure a ValueError; keeps the columns and the rows in order |
| Org.NoWeekColumn | monitoring/org.py:58 | with no week column, some day lacks a week number unless there are no days |
| Org.ThisWeek | monitoring/org.py:62-63 | keeps, in order, exactly the rows of the given week, every copy of each and as many rows as are in that week |
| Org.LastWeek | monitoring/org.py:66-67 | keeps, in order, exactly the rows of the week before, every copy of each and as many rows as are in that week |
| Org.WeeksDisjoint | monitoring/org.py:62-67 | no row is in both this week and last week |
| Org.ColumnValues | monitoring/org.py:76-78 | a column's values; none exactly when no row has the column |
| Org.MessagesDiffer | monitoring/org.py:82-84 | a "not so great" text never equals a "splendid" text |
| Org.MessagesThisWeek | monitoring/org.py:70-85 | under either reading of the Stress comparison (AsWritten being the program), the loop returns the messages of the columns in order, and the first missing column as a KeyError |
| Org.Messages | monitoring/org.py:70-85 | the messages of the columns in order, or the first missing column as a KeyError; characterized by Org.MessagesThisWeek (the loop computes it) and Org.MessagesAtMostOnePerColumn |
| Org.AppendColumnMessages | monitoring/org.py:76-84 | one column's turn of the loop appends that column's verdict: its thresholds, this week's mean, then the negative and the positive message |
| Org.ColumnMessagesMeaning | monitoring/org.py:76-84 | outside Stress, "not so great" exactly when this week's mean is below the lower quantile and "splendid" exactly when above the upper; for Stress as written, "not so great" above the lower quantile and "splendid" below the upper; for Stress corrected, mirrored |
| Org.ColumnMessages | monitoring/org.py:76-84 | one column's messages under the chosen reading of Stress; characterized by Org.ColumnMessagesMeaning, Org.ColumnMessagesOrder, Org.NoValueNoMessage, Org.NeverBoth and Org.StressSendsBoth |
| Org.VerdictMeaning | monitoring/org.py:79-84 | each message is sent exactly when its comparison holds, tests with a NaN being false |
| Org.ColumnMessagesOrder | monitoring/org.py:81-84 | a column sends at most two messages, the negative one first |
| Org.ThresholdsOrdered | monitoring/org.py:76-77 | both thresholds exist or neither does, and the lower one is at most the upper one |
| Org.VerdictAtMostOne | monitoring/org.py:79-84 | corrected reading: with ordered thresholds a mean sends at most one message |
| Org.NeverBoth | monitoring/org.py:76-84 | corrected reading: with the lower level at most the upper one, no column sends both messages |
| Org.NoValueNoMessage | monitoring/org.py:78-84 | under either reading, a column with no value this week sends nothing |
| Org.MessagesConcat | monitoring/org.py:75-85 | the messages of two runs of columns are those of the first followed by those of the second |
| Org.MessagesFirstError | monitoring/org.py:75-85 | the first failing column is the error, whatever follows |
| Org.AtMostOnePerColumn | monitoring/org.py:75-85 | at most one message per column gives at most as many messages as columns |
| Org.MessagesAtMostOnePerColumn | monitoring/org.py:70-85 | corrected reading: with ordered levels there are at most as many messages as columns |
| Org.StressFrameNumbers | monitoring/org.py:71-78 | in the two-day Stress table with the default levels the thresholds are 2.6 and 3.4 and the mean is 3 |
| Org.StressFrameBetween | monitoring/org.py:71-78 | that week's mean lies strictly between the two thresholds |
| Org.StressSendsBoth | monitoring/org.py:79-84 | as written, such a Stress mean sends both "not so great" and "splendid" |
| Org.StressFrameAsWritten | monitoring/org.py:71-84 | as written, the two-day Stress table sends both "not so great" and "splendid" with the default levels |
| Org.StressBetweenSilent | monitoring/org.py:79-84 | corrected, such a Stress mean sends nothing |
| Org.StressFrameCorrected | monitoring/org.py:79-84 | corrected, the two-day Stress table sends nothing with the default levels |
| Org.AsWrittenAgreesOutsideStress | monitoring/org.py:79-84 | the correction changes only Stress |
| Yearly.ObservedDisciplines | monitoring/yearly.py:6-7 | every title once, in order of first appearance |
| Yearly.ObservedYears | monitoring/yearly.py:40-41 | every year once, in order of first appearance |
| Yearly.YearlyCounts | monitoring/yearly.py:10-11 | exactly the observed years, each with its positive number of rows |
| Yearly.YearlyDisciplineCounts | monitoring/yearly.py:14-25 | for every observed year, every observed discipline with its number of rows; the zeros fill the missing pairs |
| Yearly.Partition | monitoring/yearly.py:18-23 | counting by a key over a list of all keys, each once, loses and repeats no row |
| Yearly.DisciplineCountsAddUp | monitoring/yearly.py:14-25 | a year's discipline counts add up to its yearly count |
| Yearly.YearlyCountsAddUp | monitoring/yearly.py:10-11 | the yearly counts add up to the number of rows |
| Yearly.Share | monitoring/yearly.py:33-36 | each share times the year's sum is the count, and not negative |
| Yearly.YearShares | monitoring/yearly.py:33-36 | a year's shares have exactly its disciplines as keys, and are the counts over the year's sum when it has one |
| Yearly.FirstFailure | monitoring/yearly.py:32-34 | the first year with disciplines whose division fails, or none exactly when no year fails |
| Yearly.CountsToProbabilities | monitoring/yearly.py:28-37 | succeeds exactly when every year has no disciplines or a positive sum, giving every year's shares, an empty map for a year with no disciplines; otherwise fails at the first failing year, which has disciplines, as a KeyError when its sum is missing and a ZeroDivisionError when it is zero |
| Yearly.EmptyYearNeedsNoSum | monitoring/yearly.py:33-36 | a year with no disciplines gives an empty map of shares, even without a yearly sum |
| Yearly.ShareSumOne | monitoring/yearly.py:33-36 | shares of counts that add up to the sum add up to one |
| Yearly.SharesAddUpToOne | monitoring/yearly.py:44-48 | every observed year's shares add up to one |
| Yearly.VarietyInputs | monitoring/yearly.py:45-48 | what variety hands to counts_to_probabilities meets its demands |
| Yearly.Entropies | monitoring/yearly.py:49 | one entropy per observed year, of that year's shares |
| Yearly.Variety | monitoring/yearly.py:44-50 | the shares of every observed year, each adding up to one, and each year's entropy of those shares |
| Driver.Bot.SendMessage | main.py:21 | appends one text message to what the bot sent |
| Driver.Bot.SendPhoto | main.py:24 | appends one photo to what the bot sent |
| Driver.MessageSendsMeaning | main.py:57-58 | exactly the rule outputs that are neither None nor empty become messages |
| Driver.PhotoSendsMeaning | main.py:67-68 | exactly the image paths that are not None become photos |
| Driver.SendMessages | main.py:57-58 | the loop sends exactly those messages, in order |
| Driver.SendPhotos | main.py:67-68 | the loop sends exactly those photos, in order |
| Driver.ThisWeek | monitoring/org.py:25-26 | today's ISO week, in 1..53 |
| Driver.Texts | main.py:20-21 | one message per text, in order |
| Driver.Photos | main.py:23-24 | one photo per path, in order |
| Driver.Load | main.py:8 | load_data up to this week with Monday at heading 3 |
| Driver.SendAll | main.py:20-24 | every message, then every image |
| Driver.OrgLog | main.py:6-24 | for the given reading of Stress (AsWritten being the program), loads, processes, builds the messages and sends them and then the images; a failure sends nothing |
| Driver.OrgLogOrder | main.py:6-24 | a failed run sends nothing, and no message follows a photo |
| Driver.OrgLogRun | main.py:6-24 | what the org job sends and the error that ends it; characterized by Driver.OrgLog (the method sends it) and Driver.OrgLogOrder |
| Driver.RuleOutputs | main.py:51-54 | one output per registered rule, in registry order |
| Driver.PlotOutputs | main.py:61-64 | one output per image rule, in registry order |
| Driver.SportRun | main.py:35-68 | a sport whose table cannot be built sends nothing and ends the run |
| Driver.EvaluateRules | main.py:51-54 | the loop evaluates every rule in order |
| Driver.ReportSport | main.py:51-68 | sends the non-empty rule messages, then the plotted images |
| Driver.SendReport | main.py:51-68 | the rule messages of a registry, then its photos, on one table |
| Driver.GcalRunStep | main.py:34-68 | one sport of the loop, then the others |
| Driver.GcalSport | main.py:35-68 | one iteration: skip a table with no time-relevant event, report otherwise |
| Driver.GcalOver | main.py:34-68 | the loop over the sports sends what GcalRun describes and ends at the first error |
| Driver.Gcal | main.py:27-68 | every sport in declaration order |
| Driver.GcalRunConcat | main.py:34 | sports taken one list after another: a failing first list ends the run |
| Driver.GcalRun | main.py:27-68 | what the calendar job sends for a list of sports, stopping at the first error; characterized by Driver.Gcal, Driver.GcalOver, Driver.GcalRunConcat and Driver.GcalMessagesNonEmpty |
| Driver.GcalMessagesNonEmpty | main.py:57 | every message gcal sends is a non-empty text |
| Driver.SportMessagesNonEmpty | main.py:51-58 | for one sport, likewise |
| Driver.SportReportShape | main.py:51-68 | a daily report sends no photos; in any report no message follows a photo |
| Driver.MessagesThenPhotos | main.py:51-68 | messages followed by photos keep that order |
| Driver.Dispatch | main.py:71-80 | "org" runs the journal job, "calendar" the daily and "calendar_weekly" the weekly calendar job; any other kind is a ValueError naming it |
| Driver.DefaultAndMalformedRejected | main.py:72-80 | a request without a kind ("default") and one that is not JSON (the error tuple) are both refused |
| Driver.HandleRequest | main.py:71-80 | parses the request, dispatches, and sends what the chosen job sends |
| Driver.MainRun | main.py:71-80 | what a request sends: nothing and an error when the payload cannot be read or names an unknown kind, otherwise the run of the org job or of the daily or weekly calendar job; characterized by Driver.HandleRequest (the method sends it) |

## Left out

- Calendar fetching: get_events (the calendar API call at monitoring/cal.py:71-84) is not modelled, and the events it returns are a parameter. So are the query bounds of gcal: 1 January 2020 (Utils.FirstOfJanTimestamp) and now_timestamp, which reads the clock.
- Everything monitoring/setup.py provides (the bot, the owner id, the calendar service, the week and temporary directories) is a parameter or not modelled. monitoring/setup.py is not part of this model.
- The images are not modelled. images_this_week and plot_cumulative_day_distances are function parameters (`images`, `plot`) because they draw with matplotlib and write files. Only the data of the cumulative curve is modelled (CalCumulative). The Radar class draws only and is left out.
- Yearly.Variety: monitoring/utils.py defines no `kl`, so variety as written raises AttributeError at monitoring/yearly.py:49 for any table with a year. The model takes the entropy as a parameter `entropy` over the multiset of shares.
- Base64 and UTF-8 decoding and json.loads happen before Utils.ParsePayload, whose input is the decoded JSON or None. The printed log lines are left out.
- Week files arrive parsed: a map from week number to the drawers of the file's top-level headings, a missing week standing for a file that cannot be opened. The orgparse parser, and its mutation of the property dictionaries, are left out. _find_max_week is called nowhere and is left out. The current week (`_this_week`) comes from the date passed in.
- Org.ProcessData: float16 rounding is not modelled (cells keep their exact decimal value); which cell a parse error names is not modelled.
- Text.ParseDecimal: accepts signed decimals with an optional fraction and surrounding spaces. Python's exponent forms, "inf", "nan" and underscores are rejected rather than read.
- Text.Lower: lower-cases ASCII letters only.
- CalTable.ParseTimestamp: accepts only the "YYYY-MM-DDTHH:MM" shape (or a space for the T), the shape calendar start times have. Other shapes pandas would guess are refused. Time zones are dropped, as the 16-character prefix drops them.
- Stats.Quantile: requires a level in [0, 1]. pandas raises for other levels, and every call in the core uses 0.4, 0.6 or the rules' default.
- Rule arguments: the registry holds rules with their defaults (quantile 0.6, interval 100 or 250, streak 2 or 3). Rule functions called with other keyword values are not modelled.
- _get_cumulative_day_distances adds `day_of_year` to the frame it is given. That mutation of the caller's frame is not modelled: the function is a value.
- Yearly.YearlyDisciplineCounts: counts are natural numbers. The source mixes `0.0` and integer counts, which only changes their Python type.
- The stale tests in tests/ call `prune_events`, `streak(minimal_duration=...)` and `_has_daily_message`, which the code does not define. They also expect the "gym: ub" filter to keep one event, but as written an exact summary match also needs a description, which that event lacks. CalFixtures models the fixture with the code's behaviour: zero events.
- CalRules.DistanceModInterval: float64 sums are modelled as exact reals, with no binary rounding. A float threshold is printed as its digits and ".0", without Python's exponent form for magnitudes of 1e16 and above. int64 overflow is not modelled.
- CalFixtures.RunningDays: states the days of the running table built from zero-padded start times. The fixture's times on the 5th to 7th are not padded, and the model's reader refuses them (CalFixtures.UnpaddedStartFails). That get_dataframe of padded events gives exactly this table is proved row by row for the timestamp (CalFixtures.RunningRowMade), not for the whole event.
- CalFixtures.StreakOfThree: about the same zero-padded running table.
- CalFixtures.NoStreakOfFour: about the same zero-padded running table.
- Reference date of the calendar job: get_time_relevant_events and has_time_relevant_event take `date=datetime.date.today()` as a default argument (monitoring/cal.py:88, monitoring/cal.py:102). Python evaluates that default once, when monitoring/cal.py is imported, and main.py:45 passes no date. So a process that outlives its first day keeps testing for events on its start date. The model's Driver.World.today is that import date for the calendar job. The org job reads the clock on each call (monitoring/org.py:25-26), and the model gives both jobs the same `today`, so the drift between the two dates is not modelled.
- Concurrency, retries and timeouts of the bot and the calendar service are left out.

## Findings

| source | as written | input that shows it | evidently intended | confidence | as-written member | corrected member |
|---|---|---|---|---|---|---|
| monitoring/org.py:79-84 | for Stress the comparison operators are swapped but the thresholds are not: "not so great" when the mean is above the lower threshold, "splendid" when it is below the upper threshold | a Stress column with values 1 and 5 in the current week and default levels 0.4/0.6: thresholds 2.6 and 3.4, mean 3, so both messages are sent | a high stress is bad: "not so great" above the upper threshold, "splendid" below the lower one, so no column sends both | high; not executed | Org.StressSendsBoth | Org.NeverBoth |

The journal job takes the reading of the Stress comparison as a parameter (`Org.Reading`). With `AsWritten`, Org.MessagesThisWeek, Driver.OrgLog and Driver.HandleRequest are the program as it stands, and Org.StressFrameAsWritten shows it sending both messages. The rows marked "corrected reading" in the model table hold for `Corrected` only.
