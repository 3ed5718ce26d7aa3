# Interfilling downtime dashboard — a verified model of its data pipeline

`dashboard.py` is a Streamlit dashboard for downtime on filling lines. Once its
widgets and charts are set aside, it is a small record pipeline, and this project
models that pipeline in Dafny:

- **Loading the downtime export** (`load_data`). The loader drops the index
  column and requires twelve columns. It parses start and stop with the strict
  pattern `%d/%m/%y %H:%M:%S`, works out the duration in seconds and minutes, and
  drops negative durations. It normalises the line name (`Workflow`) and the
  reason (`Reden`), then drops rows whose start or duration is missing.
- **Loading the order export** (`load_order_data`). The loader checks the five
  required columns, renames two of them, and drops rows without a line or a
  quantity.
- **Filtering** (`filter_data`). Events are filtered by date range, by line,
  and optionally by the weekday shift window 07:30–16:00.
- **The analyses on the filtered events:**
  - the key figures;
  - the reason views per line tab: keyword exclusion, reason totals ranked
    largest first, percentages, the top-10 bar list, the top-5 donut with its
    "Overige (k)" slice, the colour map and the top-3 legend;
  - per-period totals and the Pareto top 3 of one period;
  - the top 3 orders, the longest event of each, and the weekday top-3 tables
    with each order's largest reason;
  - daily performance against a 480-minute shift, and the outlier rule.
- **The order target-time calculator** in `main`.

Modules, one per file:

| module | role |
|---|---|
| `Wrappers` | `Option`/`Result`. |
| `Csv` | The table `read_csv` reads, with every cell kept as its text. A missing cell is `None`. |
| `Seqs` | Boolean masks (`Filter`), column sums, counts and `idxmax`. |
| `Text` | `str.strip`, `upper`, `replace(" ", "")`, case-insensitive `contains`, `%02d`/`%04d` and Python's string order. |
| `Calendar` | The Gregorian calendar, `date.weekday()` and ISO 8601 week numbers (section 4.1.4 of ISO 8601:2004). |
| `Timestamps` | The `%d/%m/%y %H:%M:%S` parse and its two-digit-year rule. |
| `DowntimeLoader`, `OrderLoader` | The two loaders. |
| `DowntimeFilter` | The three masks. |
| `Grouping` | `groupby().sum()`, ranking and `head(n)`. |
| `Kpi` | The key figures. |
| `ReasonAnalysis` | The reason tabs. |
| `PeriodAnalysis` | Period keys, period totals and the Pareto table. |
| `OrderAnalysis` | The order views. |
| `Performance` | Daily performance and outliers. |
| `TargetTime` | The target-time calculator. |

Other choices made in the model:

- Minutes, quantities and percentages are exact `real`s. Timestamps are
  calendar dates with a time of day, counted in seconds since 1970-01-01.
- A pandas `groupby` is modelled as a table whose keys ascend in
  code-point order, each key once.
- `dashboard.py` holds the script twice: a second copy is spliced in at line
  502. The two copies have identical function bodies, and every citation
  below is to the first copy.

## Model

| member | source | states |
|---|---|---|
| Csv.IndexOf | dashboard.py:84-85 | Selecting a column by name finds its first position in the header. |
| Seqs.Filter | dashboard.py:168-169 | A mask keeps rows that satisfy it and every row that does, and keeps nothing else. |
| Seqs.FilterFilter | dashboard.py:169-174 | Two masks applied in turn select what their conjunction selects. |
| Seqs.FilterIdempotent | dashboard.py:169-174 | Applying the same mask twice is applying it once. |
| Seqs.FilterPartition | dashboard.py:49-50 | A mask and its negation split the rows, and the kept rows number `Count` of the mask. |
| Seqs.SumPartition | dashboard.py:214-216 | A column sum is the sum over the rows a mask keeps plus the sum over the rest. |
| Seqs.SumAtLeastEach | dashboard.py:186-187 | No value of a non-negative column exceeds its sum. |
| Seqs.SumAtMost | dashboard.py:186-187 | A column bounded by `b` sums to at most `b` times its length. |
| Seqs.FilterPairwise | dashboard.py:215 | Masking keeps order: a relation between earlier and later rows still holds afterwards. |
| Seqs.FirstMax | dashboard.py:309 | `idxmax` is the position of the first largest value: every value is at most it, and every earlier one is strictly less. |
| Text.LeadingBlanks | dashboard.py:54 | The leading run counted for stripping is all whitespace and ends at a non-whitespace character. |
| Text.KeptLength | dashboard.py:54 | The trailing run cut off by stripping is all whitespace, and the kept part ends in a non-whitespace character. |
| Text.Strip | dashboard.py:54 | `str.strip()` keeps an infix that neither starts nor ends with whitespace, and everything cut off on either side is whitespace. |
| Text.StripIdempotent | dashboard.py:54 | Stripping twice is stripping once. |
| Text.StripKeepsTrimmed | dashboard.py:54 | A text without whitespace at either end is its own strip. |
| Text.Upper | dashboard.py:53 | Upper-casing maps each character and keeps the length. |
| Text.RemoveSpaces | dashboard.py:53 | `replace(" ", "")` leaves no blank and keeps every other character (order and multiplicity: `RemoveSpacesIsFilter`). |
| Text.RemoveSpacesIsFilter | dashboard.py:53 | Removing blanks is the mask "not a blank": every other character, as often as it occurs and in its order. |
| Text.RemoveSpacesAppend | dashboard.py:53 | Blanks of a joined text are removed by removing those of each part. |
| Text.UpperRemoveSpacesCommute | dashboard.py:53 | Upper-casing and removing blanks can be done in either order. |
| Text.UpperFixed | dashboard.py:53 | A text without lower-case letters is its own upper-case form. |
| Text.RemoveSpacesFixed | dashboard.py:53 | A text without blanks is unchanged by removing blanks. |
| Text.RemoveSpacesKeepsNoLower | dashboard.py:53 | Removing blanks introduces no lower-case letter. |
| Text.Contains | dashboard.py:207 | Substring search answers true exactly when the keyword occurs at some position. |
| Text.LowerForgetsCase | dashboard.py:207 | Lower-casing is idempotent and erases what upper-casing did. |
| Text.ContainsIgnoreCase | dashboard.py:207 | `contains(keyword, case=False)` is exactly an occurrence of the lower-cased keyword in the lower-cased text. |
| Text.NatToString | dashboard.py:222 | `str(k)` gives decimal digits with no leading zero that read back as `k`. |
| Text.Pad2 | dashboard.py:274 | `%02d` gives two digits that read back as the value. |
| Text.Pad4 | dashboard.py:274 | `%Y` of a year below 10000 gives four digits that read back as the year. |
| Text.Pad4Injective | dashboard.py:274 | Two years below 10000 have equal four-digit texts exactly when they are equal. |
| Text.StrLessTransitive | dashboard.py:280 | Python's string order is transitive. |
| Text.StrLessTotal | dashboard.py:280 | Any two different strings are ordered one way or the other. |
| Text.StrLessAsymmetric | dashboard.py:280 | The string order is asymmetric. |
| Text.StrLessConcat | dashboard.py:280 | Concatenations whose first parts have equal length compare by the first parts, then by the second. |
| Text.Pad2Order | dashboard.py:280 | Two-digit texts sort as their numbers do. |
| Text.Pad4Order | dashboard.py:280 | Four-digit texts sort as their numbers do. |
| Calendar.DaysInMonth | dashboard.py:44 | Every month has between 28 and 31 days. |
| Calendar.DaysBeforeMonthBounds | dashboard.py:44 | The days before month m number between 28 × (m − 1) and 31 × (m − 1). |
| Calendar.Weekday | dashboard.py:173 | `weekday()` lies in 0..6. |
| Calendar.EpochIsDayZero | dashboard.py:173 | 1970-01-01 is day 0 and a Thursday (weekday 3). |
| Calendar.NextDayIsOneLater | dashboard.py:173 | The next calendar day has the next day number and the next weekday. |
| Calendar.DayNumberStrictlyMonotonic | dashboard.py:168 | Dates in calendar order have increasing day numbers, both ways. |
| Calendar.IsoYearSpan | dashboard.py:275 | ISO week 1 of the next year starts 52 or 53 weeks after week 1 of this year. |
| Calendar.IsoWeekLocatesMonday | dashboard.py:275 | The `%V` week number lies within its ISO year's weeks and locates the date's Monday from that year's first ISO Monday. |
| Calendar.SameIsoWeekIffSameMonday | dashboard.py:275 | Two dates share an ISO (year, week) exactly when they share a Monday. |
| Calendar.IsoWeekOrderIsChronological | dashboard.py:275 | ISO (year, week) order is the order of the weeks' Mondays. |
| Timestamps.EpochSecondsSplit | dashboard.py:48 | A timestamp in seconds splits back into its day number and its second of the day. |
| Timestamps.NumberField | dashboard.py:44 | A numeric field reads one or two digits within its range, and the digits it reads are the whole run. |
| Timestamps.DayField | dashboard.py:44 | `%d` reads a day 1..31, also as a blank and one digit. |
| Timestamps.YearField | dashboard.py:44 | `%y` reads exactly two digits. |
| Timestamps.CenturyOf | dashboard.py:44 | `%y` values 00–68 are read as 2000–2068, and 69–99 as 1969–1999. |
| Timestamps.ParseClock | dashboard.py:44 | `%H:%M:%S` reads an hour ≤ 23, a minute ≤ 59 and a second ≤ 59, and nothing may follow. |
| Timestamps.ParseDayMonthYear | dashboard.py:44 | `%d/%m/%y` reads a day, a month 1..12 and a two-digit year. |
| Timestamps.ParseTimestamp | dashboard.py:44-45 | A text that parses gives a valid timestamp in 1969–2068. Otherwise it is NaT (`None`). |
| Timestamps.ParseMatches | dashboard.py:44-45 | The parse reads `t` exactly when the text matches `%d/%m/%y %H:%M:%S` with the fields of `t` and `t` is a real date and time, both ways. |
| Timestamps.UnmatchedIsMissing | dashboard.py:44-45 | `errors="coerce"` gives NaT exactly for the texts that do not match the pattern with a real date and time, including texts that do not match it at all. |
| Timestamps.ClockTextReads | dashboard.py:44 | A zero-padded clock text reads back as its clock, and any trailing text makes it fail. |
| Timestamps.DateTextReads | dashboard.py:44 | A zero-padded date text reads back as its day, month and two-digit year. |
| Timestamps.ParseFormatRoundTrip | dashboard.py:44-45 | Parsing the canonical text of any timestamp in 1969–2068 gives it back. With anything appended the parse fails. |
| Timestamps.ParsesFormatted | dashboard.py:44-45 | A text equal to a timestamp's canonical form parses to that timestamp. |
| Timestamps.ParseExampleMorning | dashboard.py:44 | "01/01/24 08:00:00" reads as 2024-01-01 08:00:00. |
| Timestamps.ParseExampleQuarterPast | dashboard.py:44 | "01/01/24 08:15:00" reads as 2024-01-01 08:15:00. |
| Timestamps.ParseExampleEarliest | dashboard.py:44 | "31/12/69 23:59:59" reads as 1969-12-31 23:59:59. |
| Timestamps.RejectsImpossibleDay | dashboard.py:44 | A day its month does not have (31/04, 29/02 in a common year) gives NaT. |
| DowntimeLoader.KeptColumns | dashboard.py:39 | Dropping `Unnamed: 0` keeps the other columns in order. Their count is the header length less the index columns. |
| DowntimeLoader.StageRow | dashboard.py:44-48 | Start and stop are the parses of their cells. The duration is present exactly when both are, and is then their difference in seconds. |
| DowntimeLoader.StageRows | dashboard.py:44-48 | Every row is staged, in order. |
| DowntimeLoader.NormaliseWorkflow | dashboard.py:53 | The normalised line name is the text of the cell ("nan" when missing) with its blanks removed and upper-cased, so it has no blank and no lower-case letter. |
| DowntimeLoader.CleanReason | dashboard.py:54 | The cleaned reason has no whitespace at either end. |
| DowntimeLoader.LoadDowntime | dashboard.py:39-55 | The load fails exactly when the column count without `Unnamed: 0` is not 12, and reports that count. On success it reports the number of rows whose start does not parse, whose stop does not parse and whose duration is negative, counted over the staged rows. |
| DowntimeLoader.DropNegative | dashboard.py:49-50 | `df[Duur_sec >= 0]` keeps every row whose duration is not negative and only rows without a negative duration. Without negative durations the table is unchanged. |
| DowntimeLoader.Clean | dashboard.py:55 | `dropna` keeps one event per row with a start and a duration and no other. |
| DowntimeLoader.CleanAppend | dashboard.py:51-55 | Cleaning is row by row: cleaning a concatenation concatenates the results. |
| DowntimeLoader.CleaningSelectsSurvivors | dashboard.py:49-55 | The cleaning keeps exactly the rows with both timestamps and a non-negative duration, in order. Every other row had a negative or a missing duration. |
| DowntimeLoader.SurvivorsWellFormed | dashboard.py:48-55 | Every surviving row becomes one well-formed event. |
| DowntimeLoader.LoadKeepsSurvivors | dashboard.py:44-55 | After a load, the events are the surviving rows in file order, each with stop ≥ start and minutes = seconds/60. Events + negatives + rows with a missing duration = rows. |
| DowntimeLoader.NormaliseWorkflowIdempotent | dashboard.py:53 | Normalising a line name twice is normalising it once. |
| DowntimeLoader.NormaliseWorkflowFixed | dashboard.py:53 | The names normalisation leaves alone are exactly those without blanks and lower-case letters. |
| DowntimeLoader.NormaliseWorkflowExamples | dashboard.py:53 | "VMPT 1" becomes "VMPT1", "cosmo" becomes "COSMO", and a missing name becomes "NAN". |
| DowntimeLoader.CleanReasonDefaultAndStrip | dashboard.py:54 | A missing reason becomes "Onbekend", and a present one is stripped. Cleaning again changes nothing. |
| DowntimeLoader.ParseCellExample | dashboard.py:44-48 | An export row's two timestamps parse and lie 900 seconds apart. |
| OrderLoader.MissingFrom | dashboard.py:76-78 | The missing columns are exactly the required ones the header lacks. |
| OrderLoader.KeepComplete | dashboard.py:96-98 | Dropping incomplete rows never adds rows. |
| OrderLoader.LoadOrders | dashboard.py:76-103 | The load fails exactly when a required column is missing, listing the missing ones. On success the orders are exactly the complete rows, converted in file order (`KeepComplete`), and kept rows + dropped rows = all rows. |
| OrderLoader.KeepCompleteCounts | dashboard.py:88-98 | The kept orders number the complete rows, and each is the converted form of a complete row. |
| OrderLoader.KeepCompleteMembers | dashboard.py:97 | Every complete row is among the kept orders. |
| OrderLoader.KeepCompleteAppend | dashboard.py:96-98 | The kept orders follow file order: two consecutive blocks of rows give their kept orders one after the other. |
| DowntimeFilter.FilterData | dashboard.py:164-165 | A range that is not two dates gives nothing, and the filter never adds rows. |
| DowntimeFilter.FilterDataSelects | dashboard.py:166-174 | The three masks in a row select, in their order, exactly the events in the date range, on the selected line(s) and, with the toggle on, starting Monday–Friday in [07:30, 16:00). |
| DowntimeFilter.FilterDataMembers | dashboard.py:166-174 | An event is kept exactly when it satisfies the selection, both ways. |
| DowntimeFilter.FilterDataIdempotent | dashboard.py:161-175 | Filtering a filtered table again with the same selection changes nothing. |
| DowntimeFilter.InvertedRangeIsEmpty | dashboard.py:168 | A range whose end is before its start keeps nothing. |
| Grouping.AddSorted | dashboard.py:214 | Adding a pair to a grouped table keeps keys ascending, adds its key and adds its minutes to that key only. |
| Grouping.GroupSum | dashboard.py:214 | `groupby().sum()` has each input key once, ascending, with the same per-key sums and the same grand total. |
| Grouping.GroupSumEntries | dashboard.py:214 | Each group carries exactly the minutes of the input pairs with its key. |
| Grouping.SumForDistinct | dashboard.py:214 | In a grouped table a key's sum is its own row. |
| Grouping.Insert | dashboard.py:215 | Inserting into a non-increasing ranking keeps it non-increasing, adds the row to the multiset and adds its minutes to the total. |
| Grouping.InsertBehindHead | dashboard.py:215 | A row smaller than the head, inserted behind it, keeps the ranking non-increasing, the multiset and the total. |
| Grouping.Rank | dashboard.py:215 | `sort_values(ascending=False)` is a non-increasing permutation with the same total. |
| Grouping.TopN | dashboard.py:294 | `head(n)` after ranking gives min(n, size) rows, non-increasing, drawn from the table. |
| Grouping.TopNDominates | dashboard.py:294 | No row left out of the top n has more minutes than a row shown. |
| Grouping.TopGroupsEntries | dashboard.py:294 | The top groups still carry the summed minutes of their keys. |
| Grouping.PairsOf | dashboard.py:214 | Each row contributes its (key, minutes) pair, in order. |
| Grouping.SumPairs | dashboard.py:214 | Turning rows into pairs keeps the column sum. |
| Grouping.KeysOfHasKey | dashboard.py:220 | A key is listed exactly when some row carries it. |
| Grouping.WithoutKey | dashboard.py:215 | `df[df[key] != k]` keeps exactly the rows with another key. |
| Grouping.SumWithoutKey | dashboard.py:215-216 | Leaving out key `k` removes exactly the minutes filed under `k`. |
| Grouping.FilterAscending | dashboard.py:215 | A filtered grouped table still ascends in key. |
| Grouping.RankDistinct | dashboard.py:215 | Ranking keeps the keys distinct. |
| Kpi.Longest | dashboard.py:187 | `max()` bounds every duration and is attained by some event. |
| Kpi.KeyFiguresOf | dashboard.py:183-188 | No figures exactly for an empty table. Otherwise hours × 60 = the summed minutes, the count is the row count and the longest is the maximum. |
| Kpi.LongestWithinTotal | dashboard.py:186-187 | With non-negative durations, 0 ≤ longest ≤ total. |
| Kpi.TotalWithinCountTimesLongest | dashboard.py:186-187 | The total is at most count × longest. |
| ReasonAnalysis.LinesIn | dashboard.py:193 | The tab lines ascend strictly and are all wanted lines. |
| ReasonAnalysis.LinesInExactly | dashboard.py:193 | A line gets a tab exactly when it is wanted and some event runs on it. |
| ReasonAnalysis.TabNames | dashboard.py:194 | The first tab is "Alle lijnen", and the tabs after it are exactly the wanted lines present in the events (`LinesIn`), in ascending order. |
| ReasonAnalysis.TabData | dashboard.py:200-201 | "Alle lijnen" shows every event. Another tab shows exactly that line's events. |
| ReasonAnalysis.ExclusionMask | dashboard.py:205-207 | The or-ed mask loop marks a reason exactly when it contains some keyword, ignoring case. |
| ReasonAnalysis.Relevant | dashboard.py:208 | `data[~mask]` keeps exactly the events whose reason names no keyword. |
| ReasonAnalysis.ExcludedIgnoresCase | dashboard.py:207 | With `case=False`, a reason is excluded exactly when its lower-case form is, and exactly when its upper-case form is. |
| ReasonAnalysis.ExclusionExamples | dashboard.py:205-207 | "Pauze" and "koffiePAUZE" are excluded, and "Storing" is not. |
| ReasonAnalysis.RankedReasons | dashboard.py:214-215 | The reason totals without `''` are non-increasing, with distinct keys, and a permutation of the grouped totals. |
| ReasonAnalysis.SumForNoReason | dashboard.py:215 | The `''` group holds the minutes of the events without a reason. |
| ReasonAnalysis.NamedReasonEntries | dashboard.py:214-215 | Each named reason carries its events' summed minutes. |
| ReasonAnalysis.NamedReasonKeys | dashboard.py:214-215 | Every non-empty reason of the data has a total, and nothing else does. |
| ReasonAnalysis.RankedReasonsEntries | dashboard.py:214-215 | Each ranked reason carries its events' summed minutes. |
| ReasonAnalysis.RankedReasonsKeys | dashboard.py:214-215 | Every non-empty reason is ranked, and nothing else is. |
| ReasonAnalysis.RankedReasonsSum | dashboard.py:216 | The ranked totals add up to the minutes of the events that have a reason. |
| ReasonAnalysis.Percentage | dashboard.py:217-218 | With a positive total, percentage × total = 100 × minutes, so it lies in 0..100 for minutes within the total. Otherwise it is 0. |
| ReasonAnalysis.PercentageSumScales | dashboard.py:217 | With a positive total, the percentages sum to 100 × the table's sum / total. |
| ReasonAnalysis.PercentagesAddUp | dashboard.py:216-217 | With a positive grand total, `percentage_totaal` adds up to 100. |
| ReasonAnalysis.Bars | dashboard.py:228 | The bar list is the first min(10, n) ranked reasons. |
| ReasonAnalysis.BarsDominate | dashboard.py:228 | A reason left off the bars has no more minutes than any bar. |
| ReasonAnalysis.OverigeLabel | dashboard.py:222 | The label is "Overige (k)" with k = max(0, n − 5) in decimal. |
| ReasonAnalysis.Donut | dashboard.py:239-250 | With ≤ 5 reasons the donut is the ranking. Otherwise it is the top 5 plus at most one slice. |
| ReasonAnalysis.DonutAddsUp | dashboard.py:240-250 | The slice appears exactly when the rest exceeds 0.01 and holds grand total − top-5 sum. The donut then adds up to the grand total; without it at most 0.01 is missing. |
| ReasonAnalysis.Legend | dashboard.py:254 | The legend is the first min(3, n) ranked reasons. |
| ReasonAnalysis.LegendLabel | dashboard.py:264 | A reason over 30 characters is cut to 30 and gets "...". A shorter one is shown whole. |
| ReasonAnalysis.Colours | dashboard.py:221 | The dict comprehension maps exactly the listed reasons, each to `palette[i % 10]` for its last position `i`. |
| ReasonAnalysis.ColourMap | dashboard.py:220-223 | Each ranked reason gets the palette colour of its rank, and the Overige label gets `#bdbdbd`. |
| ReasonAnalysis.LegendColour | dashboard.py:264 | A reason in the map gets its colour, and any other gets `#808080`. |
| ReasonAnalysis.TabView | dashboard.py:200-266 | A tab shows "no data" exactly for an empty tab, and "nothing relevant" exactly when nothing is left or the rest sums below 0.1. Otherwise it shows the ranked reasons and their total, the bars `Bars(ranked)` and the colours `ColourMap(ranked)`. The donut, and with it the legend, is drawn exactly when there are reasons and a positive total; it is then `Donut(ranked)` with legend `Legend(ranked)`. |
| PeriodAnalysis.YearText | dashboard.py:274-275 | `%Y` and `%G` write the year in decimal, four digits for the years the parser yields. |
| PeriodAnalysis.DayKey | dashboard.py:274 | `%Y-%m-%d` is ten characters: the year, month and day in decimal, separated by `-` at positions 4 and 7. |
| PeriodAnalysis.MonthKey | dashboard.py:276 | `to_period("M")` is seven characters: the year and month in decimal, separated by `-`. |
| PeriodAnalysis.WeekKeyAsWritten | dashboard.py:275 | `%Y-W%V` is eight characters: the calendar year, `-W`, and the two-digit ISO week. |
| PeriodAnalysis.IsoWeekKey | dashboard.py:275 | The corrected key ends in `-W` and the two-digit ISO week, after the ISO year in decimal. |
| PeriodAnalysis.PeriodKey | dashboard.py:274-276 | A date gets a key exactly when it is a real date. |
| PeriodAnalysis.PeriodKeyNamesPeriod | dashboard.py:274-280 | For each period choice, two dates share a key exactly when they lie in the same day, Monday-to-Sunday week or month, and keys sort exactly as those periods do. |
| PeriodAnalysis.DayKeyOrder | dashboard.py:274-280 | Day keys sort exactly as dates do. |
| PeriodAnalysis.DayKeyInjective | dashboard.py:274 | Two dates share a day key exactly when they are equal. |
| PeriodAnalysis.MonthKeyOrder | dashboard.py:276-280 | Month keys sort and coincide exactly as (year, month) does. |
| PeriodAnalysis.WeekTextOrder | dashboard.py:275-280 | Week texts sort and coincide exactly as (year, week) does. |
| PeriodAnalysis.IsoWeekKeyText | dashboard.py:275 | Before 9999 the corrected key is the four-digit week text of the ISO year and week. |
| PeriodAnalysis.IsoWeekKeyNamesWeek | dashboard.py:275 | Two dates share the corrected week key exactly when they share a Monday. |
| PeriodAnalysis.IsoWeekKeyOrder | dashboard.py:275-280 | The corrected week keys sort exactly as the weeks' Mondays do. |
| PeriodAnalysis.WeekKeyAsWrittenText | dashboard.py:275 | The key as written is the calendar year followed by the ISO week. |
| PeriodAnalysis.AsWrittenWeekKeyMisfiles | dashboard.py:275-280 | As written, 2024-12-30 and 2024-01-01 share "2024-W01" though their Mondays differ, and that key sorts before 2024-12-23's "2024-W52". The corrected key gives "2025-W01". |
| PeriodAnalysis.PeriodTotals | dashboard.py:278-280 | The period totals have ascending keys, one per period present, and add up to the events' minutes. |
| PeriodAnalysis.PeriodTotalsEntries | dashboard.py:278 | Each bar is the summed minutes of its period's events. |
| PeriodAnalysis.DayTotalsChronological | dashboard.py:280 | An event in an earlier daily bar has an earlier date. |
| PeriodAnalysis.WeekTotalsChronological | dashboard.py:280 | An event in an earlier weekly bar lies in an earlier week. |
| PeriodAnalysis.PeriodChoices | dashboard.py:392 | The Pareto choices are every period present, once each, latest first. |
| PeriodAnalysis.InPeriod | dashboard.py:397 | The selected period's events are exactly those whose key is the selection. |
| PeriodAnalysis.Pareto | dashboard.py:383-404 | "No data" exactly for no events, and "no selection" exactly for an empty selection. "Nothing relevant" exactly when the exclusion leaves the period empty. Otherwise the reasons are exactly the top min(3, n) of the period's n grouped reason totals (`TopN(GroupSum(...), 3)`), non-increasing. |
| PeriodAnalysis.ParetoTotals | dashboard.py:404 | Each Pareto reason carries its summed minutes in the period, and no reason left out has more. |
| OrderAnalysis.OrderEvents | dashboard.py:307 | An order's events are exactly the events with that order number. |
| OrderAnalysis.OrderTotals | dashboard.py:294 | The order totals ascend in order number. |
| OrderAnalysis.OrderPairsSum | dashboard.py:294 | An order's total is the summed minutes of its events. |
| OrderAnalysis.OrderTotalsKeys | dashboard.py:294 | An order has a total exactly when some event carries it; a missing number is dropped. |
| OrderAnalysis.TopOrders | dashboard.py:294 | At most 3 orders, non-increasing. |
| OrderAnalysis.TopOrdersTotals | dashboard.py:294 | Each listed order carries its events' summed minutes, and no order left out has more. |
| OrderAnalysis.TopOrdersHaveEvents | dashboard.py:294-307 | Every listed order has events. |
| OrderAnalysis.LongestEvent | dashboard.py:309 | The chosen event belongs to the order, and no event of the order is longer. |
| OrderAnalysis.LongestEventIsFirst | dashboard.py:309 | `idxmax` picks the first longest event of the order. |
| OrderAnalysis.TopKeys | dashboard.py:307-309 | The group-by over the top orders' events lists only top orders, each with events. |
| OrderAnalysis.TopKeysCover | dashboard.py:307-309 | Every top order is among the keys, and the keys ascend. |
| OrderAnalysis.LongestEvents | dashboard.py:307-310 | One event per top order, in ascending order number, each a longest event of its order. |
| OrderAnalysis.DayEvents | dashboard.py:323-328 | A weekday's events are exactly those starting on it. |
| OrderAnalysis.TopReason | dashboard.py:333-338 | 'N/A' exactly when the day has no event with an order number; blank exactly when it has some but none for this order. A chosen reason is one of the order's reasons. |
| OrderAnalysis.TopReasonIsLargest | dashboard.py:333-336 | The chosen reason's (order, reason) sum is at least that of any other reason of the order. |
| OrderAnalysis.TopReasonIsFirst | dashboard.py:333-336 | `idxmax` keeps the first of equal maxima: every reason of the order sorting before the chosen one has a strictly smaller sum. |
| OrderAnalysis.DayRows | dashboard.py:331-339 | The day's top orders in rank order, each with its minutes, its top reason, and hours = minutes / 60. |
| OrderAnalysis.DayRowsHaveReasons | dashboard.py:331-338 | Every row of a shown day table has a reason of its order, never 'N/A' or blank. |
| OrderAnalysis.DayReportOf | dashboard.py:326-330 | A weekday has a report exactly when events start on it, under its Dutch name, and its rows are the day rows (`DayRows`) of exactly that day's events. |
| OrderAnalysis.WeekdayTopOrders | dashboard.py:326-341 | The loop over Maandag..Vrijdag builds the reports of the days with events, in order. |
| OrderAnalysis.WeekdayReportsSources | dashboard.py:326-341 | Each report is its named weekday's report, Monday first, with no day twice. |
| OrderAnalysis.WeekdayReportsComplete | dashboard.py:326-341 | Every weekday with events has its report. |
| Performance.DailyTotals | dashboard.py:352-353 | The daily totals ascend in day key, have a key exactly when some event starts on that day, and add up to the events' minutes. |
| Performance.Threshold | dashboard.py:366-367 | The outlier threshold lies above the mean: by more than one standard deviation when it is positive, and by exactly 1 when it is 0. |
| Performance.PerformancePct | dashboard.py:355 | Performance is ≥ 0 and, for non-negative downtime, ≤ 100. It is 0 exactly from 480 minutes on, and below that it is 100 × (480 − downtime)/480. |
| Performance.PerformanceAntitone | dashboard.py:355 | More downtime never gives a higher performance. |
| Performance.PerformanceRows | dashboard.py:353-355 | One chart point per day, with its key, its downtime and the performance `PerformancePct` of that downtime. |
| Performance.SampleVariance | dashboard.py:365 | The sample variance (ddof = 1) is non-negative. |
| Performance.OutliersOf | dashboard.py:364-369 | Too few days exactly below 2 days. Otherwise the threshold is `Threshold(mean, std)` of the daily totals, which lies above the mean, and a day is flagged exactly when its total exceeds it. |
| Performance.NotAllOutliers | dashboard.py:365-369 | Some day is never flagged. |
| Performance.ZeroSpreadFlagsNothing | dashboard.py:366-369 | With zero spread every day equals the mean and nothing is flagged. |
| Performance.EqualDaysHaveZeroSpread | dashboard.py:365-369 | Equal daily totals c give mean c, spread 0, threshold c + 1 and no outliers. |
| TargetTime.OrdersForLine | dashboard.py:449-451 | A named line keeps exactly its orders. No selection, or "Alle lijnen", keeps all orders. |
| TargetTime.TargetMinutes | dashboard.py:467 | target × capacity = quantity, and the target is non-negative for a non-negative quantity. |
| TargetTime.TargetMonotone | dashboard.py:467 | A larger order never gets a smaller target. |
| TargetTime.Rows | dashboard.py:467-474 | One row per order, with its line, work order, item, quantity and target. |
| TargetTime.TargetTable | dashboard.py:446-467 | "No order data" exactly for no orders, and "none for the line" exactly when the filter empties them. The capacity error is raised exactly for a non-positive capacity. Otherwise the table is `Rows` of exactly the orders on the chosen line. |
| TargetTime.ConfiguredCapacityComputes | dashboard.py:464-467 | With the configured 19.6 pieces/minute, every non-empty selection gets its table, with target × 19.6 = quantity. |

## Left out

- Streamlit and plotly are left out: the page, sidebar widgets, tabs, metrics, tables, the HTML legend, captions, warnings and charts. Their default date range, the tick angle for more than 15 bars and the scatter plot's 1000-point cutoff are also UI.
- File reading is left out: `os.path.exists`, `pd.read_csv` (quoting, encoding, `skipinitialspace`) and `@st.cache_data`. The model starts from the table `read_csv` reads, a header and rows of optional text cells.
- The `try`/`except` handlers are left out. They only turn exceptions into messages. The `'Quantity' not in columns` and `'Starttijd_dt' not in columns` guards cannot fire after a successful load.
- The duplicate check in `main` that the date range has two dates is left out, because `filter_data` repeats it (dashboard.py:164).
- Csv.RawTable keeps every cell as text, while `read_csv` infers column types. A column of numbers such as `Ordernummer` would be loaded as int64, or float64 when a cell is missing. pandas would then sort order numbers numerically (9 before 10) where the model sorts them as text ("10" before "9"), and show them as "123.0" when float. So the row order of OrderAnalysis.OrderTotals, OrderAnalysis.TopOrders and OrderAnalysis.LongestEvents, and the order of ties among equal totals, can differ from the dashboard's for numeric order numbers. Order numbers written differently for the same number ("007" and "7") are one order to pandas and two to the model.
- OrderLoader.LoadOrders takes `pd.to_numeric` and the format-less `pd.to_datetime` as parameters, because they are library guessing rules whose source is not part of this model.
- Performance.OutliersOf takes the standard deviation as a parameter. `IsSampleStd` ties its square to the sample variance, since `std` needs a square root that has no closed form over `real`. With at least two days `std` is never NaN, so the NaN branch is the zero-spread branch.
- Minutes, hours, percentages and quantities are exact reals. Float rounding and display formats (`:.1f`, `:.2f`) are not modelled.
- Text.Upper, Text.Lower and Text.ContainsIgnoreCase fold ASCII letters only. Python folds all of Unicode.
- ReasonAnalysis.Excluded reads each keyword as literal text. `str.contains` reads it as a regular expression, which agrees for the configured keyword "Pauze".
- Grouping.Rank and Grouping.TopN fix no order among equal totals. pandas' sort is not stable, so the model states only "non-increasing permutation".
- Timestamps.ParseTimestamp treats seconds 60 and 61, which the strptime pattern admits, as unparseable. It reads ASCII digits only: Python's `\d` and `int()` also accept other Unicode decimal digits, such as the fullwidth digits U+FF10–U+FF19, which the model rejects. It also does not model pandas' handling of NaN text other than a missing cell.
- PeriodAnalysis.PeriodKey writes week keys as `%G-W%V` (ISO year), not the dashboard's `%Y-W%V` (dashboard.py:275, dashboard.py:388), so PeriodAnalysis.PeriodTotals, PeriodAnalysis.PeriodChoices, PeriodAnalysis.InPeriod and PeriodAnalysis.Pareto group and label weeks at a year boundary differently from the dashboard. The dashboard puts 2024-12-30 and 2024-01-01 in one bar "2024-W01", where the model has two bars, "2025-W01" and "2024-W01". The dashboard labels 2021-01-01 "2021-W53", where the model has "2020-W53". The key as written is kept as PeriodAnalysis.WeekKeyAsWritten, and the difference is the finding below. PeriodKey also gives the key `""` for an invalid date; no parse produces one, so it never occurs for a loaded event.
- PeriodAnalysis.IsoWeekKeyNamesWeek and PeriodAnalysis.IsoWeekKeyOrder assume years below 9999. This keeps the ISO year and the year after it within four digits in the proofs, and it excludes no year the `%y` parse yields (1969–2068).
- The order `Date` column is loaded but used by no view, so nothing is stated about it beyond its conversion.

## Findings

| source | as written | input that shows it | evidently intended | confidence | as-written member | corrected member |
|---|---|---|---|---|---|---|
| dashboard.py:275, dashboard.py:388 | `strftime('%Y-W%V')`: the calendar year next to the ISO week number | Monday 2024-12-30 lies in ISO week 2025-W01 but is keyed "2024-W01", the same key as Monday 2024-01-01. It then sorts before 2024-12-23's "2024-W52". | `%G-W%V`: ISO year with ISO week, one key per Monday-to-Sunday week, sorting chronologically | not executed | PeriodAnalysis.AsWrittenWeekKeyMisfiles | PeriodAnalysis.IsoWeekKeyNamesWeek |

The model's period views and Pareto table group weeks by the corrected key
(`PeriodAnalysis.IsoWeekKey`). `PeriodAnalysis.IsoWeekKeyOrder` proves its text
order is chronological.
