# Sensor dashboard data layer, in Dafny

This project models the data logic under a React dashboard for an
irrigation and hydroponics sensor kit. The dashboard has three views:

- **Irrigation page** (`Irigasitetes`). Readings come from a public
  spreadsheet in live mode. In simulated mode a generator puts them at the
  front of a list.
- **Hydroponic page** (`hidroponik`). Readings come from a second
  spreadsheet, mapped one row to one reading. In simulated mode a generator
  adds them at the end of a list, and entering live mode empties that list.
- **General dashboard** (`Monitoring`). It polls a database every five
  seconds for the newest row and keeps a history of the last fifty samples.

Under the views sit three shared components:

- two trend charts, which plot the last twenty readings and show the mean
  of each metric;
- a table (`DataLogger`) with a search box, pages of ten rows sorted
  newest first, and clamped prev/next navigation. The table also has a
  status filter, but it offers no control that changes it, so it always
  stays "all".

Modules, one per file:

| module | file | what it holds |
|---|---|---|
| `Wrappers` | wrappers.dfy | `Option` |
| `Seqs` | seqs.dfy | `filter`, `map`, `slice(-n)` on sequences, with order and concatenation lemmas |
| `Strings` | strings.dfy | `split`, `join`, `padStart(2, "0")`, `toLowerCase`, `includes`, first-match `replace` |
| `Js` | js.dfy | JavaScript values and truthiness; `Number(v)`; `parseFloat` as an exact decimal-prefix reader; `Number(x) \|\| 0` |
| `Cells` | cells.dfy | `parseNumber`; the two pages' copies are identical |
| `Csv` | csv.dfy | building lines and documents; the `Rejected`/`File` outcome of a download |
| `Irrigation` | irrigation.dfy | the irrigation page: timestamp rebuilding, the row filter and map, the simulator, the mode, reload and initial-load state (class `View`), the CSV |
| `Hydroponic` | hydroponic.dfy | the hydroponic page, with the same parts |
| `Monitoring` | monitoring.dfy | the poll handler and the capped history (class `Dashboard`), status badges, the CSV export |
| `Series` | series.dfy | the twenty-reading window and the chart points built over it, `avg`, the summary tiles |
| `HydroChart` | hydro-chart.dfy | `SensorChart` |
| `IrrigationChart` | irrigation-chart.dfy | `SensorChartIrigasi` |
| `DataLogger` | datalogger.dfy | the table; its page state is class `Pager` |

How the model represents JavaScript and the environment:

- **Values and objects.** A JavaScript value is `Js.Value`. An object is a
  map from property names to values, and a missing property reads as
  `undefined`. NaN is `None`.
- **Spreadsheet rows.** A row is a map from column names to cell text.
- **Supplied from outside.** Three things are parameters of the model:
  - the current instant. One instant stands for a whole render, while
    the source calls `new Date().toISOString()` anew for each row that falls
    back to it (src/pages/Irigasitetes.jsx:74, src/pages/hidroponik.jsx:36),
    so those rows could differ by a few milliseconds;
  - the random draws, each in [0, 1);
  - the formatters: `toFixed`, `toISOString`, `toLocaleString` and
    `toLocaleTimeString`.
- **React state.** Each timer tick, button press and effect run is an
  explicit method call. Effects run in declaration order, and the last
  state write of a pass wins.

The model also proves three things that the code does but that a reader
might not expect:

- **Irrigation year.** A date with a single slash (`"25/01"`) gets the year
  `undefined`. The lemma is `Irrigation.MissingYearExample`.
- **Hydroponic rows in the table.** The hydroponic page gives the table
  readings that have no `temperature` or `humidity` field. The table formats
  those fields with `toFixed`, which only a number has. The lemma is
  `Hydroponic.TableCellsMissing`.
- **General dashboard in the chart.** The dashboard gives `SensorChart`
  samples that have no `suhu`, `pH` or `flowRate` field, so every plotted
  value is 0. The lemma is `Monitoring.HistoryChartIsFlat`.

## Model

Functions that only compute have no rows of their own. This covers
`HydroChart.ChartData` and `IrrigationChart.ChartData` (each is
`Series.Chart` over its own `ToPoint`), `Irrigation.ParseTimestamp`,
`Irrigation.DmyToIso`,
`Hydroponic.ParseTimestamp`, `DataLogger.Matches`,
`DataLogger.PaginationShown`, `DataLogger.PrevDisabled`,
`DataLogger.NextDisabled`, `Irrigation.CsvLine`, `Hydroponic.CsvFields`,
`Monitoring.CsvFields`, `Monitoring.Level.Label` (the badge text) and
`DataLogger.Color.ClassName` (the cell's class string). The rows of the lemmas and functions about them say
what they compute.

| member | source | states |
|---|---|---|
| Cells.ParseNumber | src/pages/Irigasitetes.jsx:16-23 | a number passes through unchanged; a non-string, non-number is 0; a string is cleaned and read with `parseFloat`, and 0 when that gives NaN |
| Cells.Clean | src/pages/Irigasitetes.jsx:18 | only `0-9 . , -` survive; the length is that of the kept characters; the first comma, and only it, becomes a point |
| Cells.CleanCounts | src/pages/Irigasitetes.jsx:18 | with a comma present, cleaning leaves one comma fewer and one point more |
| Cells.KeepIdempotent | src/pages/Irigasitetes.jsx:18 | stripping twice strips nothing more |
| Cells.KeepDropsUnit | src/pages/Irigasitetes.jsx:18 | kept characters followed by a suffix of other characters leave exactly the kept part |
| Cells.FirstCommaBecomesPoint | src/pages/Irigasitetes.jsx:18 | with no comma before it, the first comma is replaced by a point and the rest is untouched |
| Cells.MissingCellIsZero | src/pages/hidroponik.jsx:23-30 | an absent column (`undefined`) parses as 0 |
| Cells.WholeNumberWithUnit | src/pages/hidroponik.jsx:23-30 | digits followed by a unit such as " %" parse as the whole number |
| Cells.CommaDecimal | src/pages/hidroponik.jsx:23-30 | `a,b` followed by a unit parses as the decimal `a.b` |
| Cells.NegativeCommaDecimal | src/pages/hidroponik.jsx:23-30 | the minus sign survives cleaning: `-a,b` followed by a unit parses as `-(a.b)` |
| Js.ParseFloat | src/pages/Irigasitetes.jsx:19 | NaN exactly when, after white space and a sign, no digit or point-digit starts the text |
| Js.ToNumber | src/components/SensorChart.jsx:34-36 | `Number(v)`: numbers unchanged, `null` is 0, `undefined` is NaN, a date is its time value |
| Js.StringToNumber | src/components/SensorChart.jsx:34-36 | `Number("")` is 0 (white space is ECMAScript's full WhiteSpace and LineTerminator set) |
| Js.BlankIsZero | src/components/SensorChart.jsx:34-36 | a string of white space only is 0 |
| Js.SpaceAround | src/components/SensorChart.jsx:34-36 | white space before and after the text does not change the number |
| Js.StringToNumberOfLiteral | src/components/SensorChart.jsx:34-36 | a string that is exactly one decimal literal is that literal's value |
| Js.NoLiteralIsNaN | src/components/SensorChart.jsx:34-36 | a non-blank string that does not start with a decimal literal is NaN |
| Js.WholeDecimal | src/pages/Irigasitetes.jsx:19 | a string of digits is read as that whole number, all of it |
| Js.PointDecimal | src/pages/Irigasitetes.jsx:19 | `a.b` with digit strings `a` (non-empty) and `b` is read as the whole part plus the fraction, all of it |
| Js.NegatedDecimal | src/pages/Irigasitetes.jsx:19 | a minus sign before an unsigned literal negates its value and lengthens it by one |
| Js.NumberOrZero | src/components/SensorChart.jsx:34-36 | `Number(x) \|\| 0`: NaN, `undefined` and `null` become 0, any other number is kept |
| Strings.PadStart2 | src/pages/Irigasitetes.jsx:71 | the result ends with the input, is at least two long, and is padded only with leading zeros |
| Strings.ReplaceFirstCounts | src/pages/Irigasitetes.jsx:18 | replacing the first occurrence trades exactly one `from` for one `to` |
| Strings.SplitJoin | src/pages/Irigasitetes.jsx:70 | splitting a join of separator-free pieces gives back the pieces |
| Strings.JoinSplit | src/pages/Irigasitetes.jsx:70 | the other direction: joining the pieces of a split with the separator gives back the string, so splitting loses nothing |
| Strings.ReplaceFirst | src/pages/Irigasitetes.jsx:18 | only the first occurrence changes; nothing changes when there is none; the same length |
| Irrigation.KeptRowsNeverFabricate | src/pages/Irigasitetes.jsx:74-80 | a row with a date or a time cell never takes the current instant |
| Irrigation.DashedDate | src/pages/Irigasitetes.jsx:62-66 | `parseTimestamp`: both cells present and a date containing '-' give exactly the date, "T" and the time |
| Irrigation.UnrecognisedDate | src/pages/Irigasitetes.jsx:62-74 | `parseTimestamp`: both cells present and a date with neither '-' nor '/' give the date alone; the time is dropped |
| Irrigation.Fallbacks | src/pages/Irigasitetes.jsx:74 | `parseTimestamp`: a lone date or a lone time is returned as it is; the current instant is used exactly when both are missing; a row the filter keeps never gets an empty timestamp |
| Irrigation.DayMonthYear | src/pages/Irigasitetes.jsx:69-72 | `d/m/y` becomes `y-pad2(m)-pad2(d)` |
| Irrigation.SlashDate | src/pages/Irigasitetes.jsx:62-75 | both cells present and a `d/m/y` date without dashes give `y-mm-ddTtime` |
| Irrigation.SlashDateExample | src/pages/Irigasitetes.jsx:69-72 | "25/01/2024" with "14:30:00" gives "2024-01-25T14:30:00" |
| Irrigation.MissingYearExample | src/pages/Irigasitetes.jsx:69-72 | "25/01" with "14:30:00" gives "undefined-01-25T14:30:00" |
| Irrigation.ToReading | src/pages/Irigasitetes.jsx:81-90 | the status is "connected" exactly when ESP_ID is non-empty, otherwise "disconnected", and never "dummy"; the timestamp is the rebuilt one; the six values are the six columns read with `parseNumber`, in field order |
| Irrigation.MissingColumnIsZero | src/pages/Irigasitetes.jsx:83-88 | a measured column missing from the row reads as 0 |
| Irrigation.MapRows | src/pages/Irigasitetes.jsx:78-91 | reading `i` is `ToReading` of the `i`-th row that has a date or time cell, so there is one reading per kept row and no more readings than rows; none is a dummy |
| Irrigation.MapRowsConcat | src/pages/Irigasitetes.jsx:78-91 | mapping a concatenation maps each part, so survivors keep their order |
| Irrigation.MapRowsAllKept | src/pages/Irigasitetes.jsx:80 | when every row has a time cell, mapping is one-to-one and in order |
| Irrigation.DummyReading | src/pages/Irigasitetes.jsx:106-118 | every value lies in the simulator's range and the status is dummy |
| Irrigation.DownloadCsv | src/pages/Irigasitetes.jsx:125-140 | the file starts with the header and a newline; with no readings it is just those |
| Irrigation.DownloadCsvLines | src/pages/Irigasitetes.jsx:125-140 | the file splits into the header and then one line per reading in order, or the header and an empty line when there are none |
| Irrigation.ToRecord | src/pages/Irigasitetes.jsx:235 | the reading as the chart receives it: timestamp, status name and the six numbers |
| Irrigation.ChartShowsReadings | src/components/SensorChartIrigasi.jsx:24-36 | for the page's own readings the chart plots the readings' values unchanged, each with its clock label |
| Irrigation.View.constructor | src/pages/Irigasitetes.jsx:26-59 | mounting leaves simulated mode, an empty list, counter 0 and the loading flag down |
| Irrigation.View.Toggle | src/pages/Irigasitetes.jsx:220 | the mode flips; afterwards the initial-load flag is up exactly when live and loading; the list and counter are untouched |
| Irrigation.View.LoadingChanged | src/pages/Irigasitetes.jsx:52-59 | the flag drops once a load ends or outside live mode |
| Irrigation.View.ReloadTick | src/pages/Irigasitetes.jsx:40-49 | the counter goes up by exactly one in live mode and not at all otherwise |
| Irrigation.View.SimulationTick | src/pages/Irigasitetes.jsx:102-122 | in simulated mode a new reading goes at index 0, with no cap; nothing changes in live mode |
| Irrigation.View.Data | src/pages/Irigasitetes.jsx:78-91 | live mode shows the mapped sheet (no longer than the sheet); simulated mode shows the simulated list |
| Irrigation.View.LoaderShown | src/pages/Irigasitetes.jsx:240 | the table's loader is on exactly while the initial-load flag is up |
| Irrigation.SimulatedListSurvivesLive | src/pages/Irigasitetes.jsx:102-122 | switching to live and back shows the same simulated list |
| Hydroponic.BothCells | src/pages/hidroponik.jsx:32-35 | both cells present: the date is copied verbatim, followed by "T"; the result splits back into the two cells |
| Hydroponic.Fallbacks | src/pages/hidroponik.jsx:32-36 | a lone date or a lone time is returned as it is; when both cells are empty the result is the current instant, and otherwise it does not depend on the current instant; the result with an empty instant is empty exactly when both cells are |
| Hydroponic.SlashDateKept | src/pages/hidroponik.jsx:32-35 | "25/01/2024" with "14:30:00" stays "25/01/2024T14:30:00" |
| Hydroponic.AgreesWithIrrigationOnDashedDates | src/pages/hidroponik.jsx:32-37 | for a dashed date, or a missing time, both pages' rules give the same timestamp |
| Hydroponic.ToReading | src/pages/hidroponik.jsx:73-78 | the timestamp is the rebuilt one; temperature, flow and pH are the "Suhu", "FlowL/M" and "pH" cells read with `parseNumber`, and an absent column gives 0 |
| Hydroponic.MapRows | src/pages/hidroponik.jsx:72-79 | one reading per row, in order, with the same length |
| Hydroponic.EmptyRowsKept | src/pages/hidroponik.jsx:72-79 | a row without date and time is kept, stamped with the current instant, where the irrigation page drops it |
| Hydroponic.DummyReading | src/pages/hidroponik.jsx:85-93 | every value lies in the simulator's range |
| Hydroponic.Download | src/pages/hidroponik.jsx:102-122 | an empty list is rejected and there is a file exactly when there are readings; the file starts with the header line |
| Hydroponic.DownloadLines | src/pages/hidroponik.jsx:112-122 | exactly 1 + n lines: the header, then each reading's line in list order |
| Hydroponic.LineColumns | src/pages/hidroponik.jsx:113-121 | a line splits back into timestamp, temperature, flow and pH, in that order |
| Hydroponic.ToRecord | src/pages/hidroponik.jsx:245 | the reading as chart and table receive it: no temperature, humidity or status |
| Hydroponic.ChartShowsReadings | src/components/SensorChart.jsx:24-37 | for the page's own readings the chart plots their values unchanged; an empty timestamp is labelled "--" |
| Hydroponic.TableCellsMissing | src/components/DataLogger.jsx:129-134 | a hydroponic row's temperature and humidity cells are green and have nothing to format |
| Hydroponic.View.constructor | src/pages/hidroponik.jsx:40-69 | mounting leaves simulated mode, an empty list, counter 0 and the loading flag down |
| Hydroponic.View.Toggle | src/pages/hidroponik.jsx:181 | the mode flips; entering live empties the simulated list; afterwards the initial-load flag is up exactly when live and loading |
| Hydroponic.View.LoadingChanged | src/pages/hidroponik.jsx:65-69 | the flag drops once a load ends or outside live mode |
| Hydroponic.View.ReloadTick | src/pages/hidroponik.jsx:47-56 | the counter goes up by exactly one in live mode and not at all otherwise |
| Hydroponic.View.SimulationTick | src/pages/hidroponik.jsx:82-99 | in simulated mode a new reading goes at the end, with no cap; nothing changes in live mode |
| Hydroponic.View.Data | src/pages/hidroponik.jsx:72-79 | live mode shows the mapped sheet, one reading per row; simulated mode shows the simulated list |
| Hydroponic.View.LoaderShown | src/pages/hidroponik.jsx:245 | the loader is on exactly when the initial-load flag and `loading` are up (live is implied) |
| Hydroponic.SimulatedListClearedByLive | src/pages/hidroponik.jsx:96-98 | switching to live and back leaves an empty simulated list |
| Hydroponic.LoaderOnEnteringLive | src/pages/hidroponik.jsx:47-69 | entering live during a load shows the loader, and it goes once the load ends |
| Monitoring.Format | src/pages/Monitoring.jsx:52-57 | the sample keeps the row's temperature and humidity, stamped with its creation time |
| Monitoring.AppendCapped | src/pages/Monitoring.jsx:61 | at most 50 entries; the new one is last; below the cap nothing is dropped; at the cap the oldest goes |
| Monitoring.Dashboard.constructor | src/pages/Monitoring.jsx:22-35 | zero sample, connected, empty history, live |
| Monitoring.Dashboard.OnPoll | src/pages/Monitoring.jsx:38-63 | an error only clears `isConnected`; an empty result changes nothing; rows make the first one current, set connected, and append it to the capped history; afterwards the flag reflects the result (cleared by an error, set by rows) |
| Monitoring.PollAll | src/pages/Monitoring.jsx:38-63 | after any run of results the history is the last 50 accepted samples; the dashboard is disconnected when the last result was an error, and connected when the last result carried rows |
| Monitoring.AcceptedSnoc | src/pages/Monitoring.jsx:51-62 | each result adds the first row's sample, or nothing when it is an error or empty |
| Monitoring.TemperatureStatus | src/pages/Monitoring.jsx:88-93 | idle exactly for zero outside live; otherwise low below 20, high above 30, optimal from 20 to 30 inclusive |
| Monitoring.HumidityStatus | src/pages/Monitoring.jsx:95-100 | idle exactly for zero outside live; otherwise low below 50, high above 80, optimal from 50 to 80 inclusive |
| Monitoring.LabelsDistinct | src/pages/Monitoring.jsx:194 | the four badge texts 'Optimal', 'Tinggi', 'Rendah' and 'N/A' are distinct, so the text identifies the level |
| Monitoring.TemperatureBadge | src/pages/Monitoring.jsx:194 | the temperature badge reads 'Rendah' exactly below 20, 'Tinggi' exactly above 30, 'Optimal' exactly from 20 to 30, and 'N/A' exactly for zero outside live |
| Monitoring.HumidityBadge | src/pages/Monitoring.jsx:225 | the humidity badge reads 'Rendah' exactly below 50, 'Tinggi' exactly above 80, 'Optimal' exactly from 50 to 80, and 'N/A' exactly for zero outside live |
| Monitoring.StatusMatchesTableColour | src/components/DataLogger.jsx:54-64 | in live mode the badges and the table colours put every value in the same band |
| Monitoring.Export | src/pages/Monitoring.jsx:102-117 | an empty history is rejected, otherwise a file that starts with the header line |
| Monitoring.ExportLines | src/pages/Monitoring.jsx:112-117 | exactly 1 + n lines, in history order; the newest sample's line is the last one, with no trailing empty line |
| Monitoring.ToRecord | src/pages/Monitoring.jsx:247-248 | a sample as chart and table receive it: temperature, humidity, a date, no status |
| Monitoring.HistoryChartIsFlat | src/pages/Monitoring.jsx:247 | the trend chart plots 0 for every metric of the history, and all three averages are 0 |
| Monitoring.HistoryAllConnected | src/pages/Monitoring.jsx:248 | the filter predicate set to "connected" would keep the whole history (a status the table cannot select, see "Left out") |
| Series.Window | src/components/SensorChart.jsx:25 | the last `min(20, n)` readings, in order |
| Series.Chart | src/components/SensorChart.jsx:24-37 | `chartData` of both charts (also src/components/SensorChartIrigasi.jsx:24-36): `min(20, n)` points, one per reading of the window |
| Series.ChartAt | src/components/SensorChartIrigasi.jsx:24-36 | point `i` is built from reading `n - len + i`, so the points keep the readings' order |
| Series.WaitingIffEmpty | src/components/SensorChart.jsx:83 | the waiting-for-data branch of either chart is taken exactly when there is no data |
| Seqs.MapAt | src/components/SensorChart.jsx:24-26 | element `i` of `s.map(f)` is `f` of element `i` of `s` |
| Series.Avg | src/components/SensorChart.jsx:16-20 | 0 for an empty column; otherwise the mean (mean times count is the sum) |
| Series.AvgBounds | src/components/SensorChartIrigasi.jsx:16-20 | a non-empty column's mean lies between its bounds |
| Series.AvgConstant | src/components/SensorChartIrigasi.jsx:16-20 | a column of one value averages to that value |
| Series.SumConcat | src/components/SensorChart.jsx:18 | the sum of a concatenation is the sum of its parts |
| Series.Summary | src/components/SensorChart.jsx:170-182 | "--" with no data, otherwise the rendered mean |
| Series.WindowAppend | src/components/SensorChart.jsx:25 | a new reading enters the window at its end, pushing out the oldest when it is full |
| HydroChart.ToPoint | src/components/SensorChart.jsx:26-37 | a falsy timestamp is labelled "--", otherwise through the clock; each metric is `Number(x) \|\| 0` of its field, so a number is plotted as itself and a non-numeric value as 0 |
| HydroChart.Summaries | src/components/SensorChart.jsx:170-182 | three tiles, "--" each without data, else the rendered means with 1, 2 and 2 decimals followed by "°C", nothing and " L/min" |
| HydroChart.MissingMetricsPlotZero | src/components/SensorChart.jsx:34-36 | readings with none of the three metrics plot at zero, and all three means are zero |
| IrrigationChart.ToPoint | src/components/SensorChartIrigasi.jsx:24-36 | the six metrics are `Number(x) \|\| 0` of the six fields in order; the clock label is taken as it is |
| IrrigationChart.NonNumericIsZero | src/components/SensorChartIrigasi.jsx:30-35 | a missing or non-numeric field plots as 0 |
| IrrigationChart.Summaries | src/components/SensorChartIrigasi.jsx:146-176 | six tiles, "--" each without data, else the rendered means with 1 decimal for the first four and 2 for pH and flow, followed by "°C", "°C", "%", "%", nothing and " L/min" |
| DataLogger.StatusOf | src/components/DataLogger.jsx:26 | a falsy status counts as "connected"; the result is always truthy |
| DataLogger.Filtered | src/components/DataLogger.jsx:20-30 | an order-preserving subsequence of the input that holds every copy of each matching item and no copy of any other |
| DataLogger.EmptyTermMatches | src/components/DataLogger.jsx:22-23 | the empty search term is contained in every timestamp |
| DataLogger.NoFilterKeepsAll | src/components/DataLogger.jsx:20-30 | no search and status "all" keep everything |
| DataLogger.MissingStatusIsConnected | src/components/DataLogger.jsx:26-27 | for the filter predicate, an item without status passes "connected" and no other specific status (the table itself always filters on "all") |
| DataLogger.TotalPages | src/components/DataLogger.jsx:33 | `ceil(n / 10)`: zero exactly for no rows; the pages hold n, and one page fewer would not |
| DataLogger.PageSlice | src/components/DataLogger.jsx:34-36 | at most 10 rows: `filtered[start .. min(start + 10, n)]`, empty past the end |
| DataLogger.PageSize | src/components/DataLogger.jsx:34-36 | a page in range holds `min(10, n - start)` rows, at least one |
| DataLogger.ThirdPageOfTwentyFive | src/components/DataLogger.jsx:33-158 | 25 rows make 3 pages; page 3 holds the last 5, the pagination bar is shown, next is disabled and prev is not |
| DataLogger.PaginationShownIff | src/components/DataLogger.jsx:143 | on a page in range the pagination bar is shown exactly when there are more than ten filtered rows |
| DataLogger.PagesPartition | src/components/DataLogger.jsx:33-36 | the pages, read in order, give back the filtered list |
| DataLogger.Insert | src/components/DataLogger.jsx:36 | inserting into a newest-first list keeps it newest first and adds exactly that item |
| DataLogger.SortDesc | src/components/DataLogger.jsx:36 | a permutation, newest first |
| DataLogger.CurrentData | src/components/DataLogger.jsx:36 | the page's rows and only those (same multiset as the slice), newest first, at most 10 |
| DataLogger.Display | src/components/DataLogger.jsx:100-171 | a table exactly when the page has rows; without rows, "no data" exactly for an empty input and "no match" otherwise |
| DataLogger.StalePageShowsNoMatch | src/components/DataLogger.jsx:92 | a page past the end of a narrowed search shows the no-match message although matches exist |
| DataLogger.RangeLabel | src/components/DataLogger.jsx:146 | starts at `startIndex + 1` and ends no later than n |
| DataLogger.RangeLabelCountsRows | src/components/DataLogger.jsx:146 | on a page in range the label counts exactly the rows shown |
| DataLogger.Pager.constructor | src/components/DataLogger.jsx:14-16 | page 1, empty search, status "all"; every method keeps the status at "all" |
| DataLogger.Pager.Search | src/components/DataLogger.jsx:92 | the term changes and the page does not |
| DataLogger.Pager.Prev | src/components/DataLogger.jsx:150 | `max(p - 1, 1)` |
| DataLogger.Pager.Next | src/components/DataLogger.jsx:158 | `min(p + 1, totalPages)`, never past the last page |
| DataLogger.NavigationClamps | src/components/DataLogger.jsx:150-158 | pressing next repeatedly stops at the last page, where next is disabled, and pressing prev repeatedly stops at page 1, where prev is disabled |
| DataLogger.TemperatureColor | src/components/DataLogger.jsx:54-58 | blue below 20, red above 30, green from 20 to 30 or for NaN |
| DataLogger.HumidityColor | src/components/DataLogger.jsx:60-64 | orange below 50, blue above 80, green from 50 to 80 or for NaN |
| DataLogger.ClassNamesDistinct | src/components/DataLogger.jsx:54-64 | the class strings of the four colours are distinct |
| DataLogger.TemperatureClass | src/components/DataLogger.jsx:54-58 | a temperature cell's class is 'text-blue-600' exactly below 20, 'text-red-600' exactly above 30, and 'text-green-600' exactly from 20 to 30 or for NaN |
| DataLogger.HumidityClass | src/components/DataLogger.jsx:60-64 | a humidity cell's class is 'text-orange-600' exactly below 50, 'text-blue-600' exactly above 80, and 'text-green-600' exactly from 50 to 80 or for NaN |
| DataLogger.CellText | src/components/DataLogger.jsx:129-134 | `toFixed(1)` succeeds exactly on numbers |
| Csv.DocumentLines | src/pages/Monitoring.jsx:117 | lines of newline-free text joined by "\n" split back into exactly those lines |
| Csv.LineFields | src/pages/hidroponik.jsx:121 | comma-free fields joined by "," split back into exactly those fields |

## Left out

- Network and timers. The spreadsheet hooks and the database query are
  not part of this model. Their results are inputs: rows, an error and a
  `loading` flag. `setInterval`, `clearInterval`, effect scheduling, toasts,
  Blob/URL/anchor downloads, animation and chart drawing are left out too.
- Floating point. Numbers are exact reals, so these are not modelled:
  - rounding of `parseFloat` and of the division in `avg`;
  - `toFixed`, `toISOString`, `toLocaleString` and `toLocaleTimeString`,
    which are parameters of the model;
  - turning a number into text in the dashboard CSV, also a parameter.
- Js.StringToNumber: reads only plain decimal literals. Exponents,
  `Infinity`, and hexadecimal, octal and binary forms are not modelled.
- Js.ParseFloat: reads only the decimal prefix. Exponents and `Infinity`
  are not read.
- Strings.Lower: lowercases only ASCII letters. JavaScript's
  `toLowerCase` covers all of Unicode.
- The table's status filter: `filterStatus` has no control that sets it,
  so the table always filters on "all" (`DataLogger.Pager.Valid` states
  this). `DataLogger.MissingStatusIsConnected` and
  `Monitoring.HistoryAllConnected` describe the filter predicate for a
  status the table never selects.
- Dates:
  - `new Date(row.created_at)` is taken to be a valid time value;
  - invalid dates are not modelled, so neither is the NaN they give the
    sort comparator;
  - the sort key, `new Date(v)`'s time value, is the parameter `epoch`.
- Monitoring.DbRow: `temperature` and `humidity` are typed as numbers.
  The dashboard stores them exactly as the query returns them
  (src/pages/Monitoring.jsx:53-54). A null or text value is outside the
  model. Such a value would give the status "low" through `null < 20`, and
  it would make DataLogger's `toFixed` throw.
- Strings are sequences of Unicode characters, while JavaScript counts
  UTF-16 code units. `Strings.PadStart2` and every string length therefore
  differ from JavaScript only for characters outside the Basic
  Multilingual Plane.
- DataLogger.SortDesc: is stable, as JavaScript's sort is, but the
  contract does not state stability. It states newest-first order and
  permutation only.
- The simulated branch of the general dashboard is left out. The database
  is configured unconditionally, so that branch cannot run, and the model's
  dashboard is always live.
- The badges' colour and background classes are left out. The status
  levels, their badge texts and the table cells' class strings are
  modelled.
- The loading prop that the hydroponic page passes is computed by the
  model (`Hydroponic.View.LoaderShown`). `SensorChart` and `DataLogger`
  never read it, so no rendering depends on it.
- The irrigation page's table, `DataLoggerIrigasi`, is not part of this
  model. Its source is not available.
- The debugging `console.log` effect of the irrigation page is left out.
  It changes no state.
- Cells.Clean: models `replace(",", ".")` faithfully, which changes only
  the first comma. So "1.234,5" reads as 1.234.
