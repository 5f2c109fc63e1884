# refract surf report — a Dafny model of its core

The repository has two halves:

- a Python pipeline (`Forecast/src`) that finds the newest GFS-Wave run on NOAA's NOMADS server, downloads its GRIB files and assembles a nearest-point wave series per buoy station;
- a PHP surf-report application. It parses NDBC buoy files, NOAA tide predictions and NWS gridpoint wind forecasts, imports the wave forecasts, and decides which surf spots to list. It gates each spot on waves, tide and wind, and renders the report's cells.

This project models the decision logic of both halves, one Dafny module per source file:

- **Run discovery and series assembly** (`Nomads`, `Pipeline`, `PointSeries`, `NpMin`): file and directory names, the backward search over (date, cycle) pairs, the hour specification, the download retry loop, the skip-if-cached check, the longitude convention, variable choice, broadcasting, and the sorted, de-duplicated, range-filtered series.
- **Record parsers and importers** (`NdbcWindParser`, `SpectralDataParser`, `SpectralDataParserHelpers`, `WaveForecastRepo`, `WaveForecastRepository`, `NoaaTideRepository`, `NwsGridpointWindRequest`): header scans, column checks, per-line rows, null propagation, table names, and the hourly join of NWS intervals.
- **Tide rules** (`TidePhaseService`, `MidTideModel`, `TidePreference`, `TidePreferenceEvaluator`, `ForecastPreference`, `TideCell`): previous and next high/low, the mid-tide and its label, within-window flags, the slack/incoming/outgoing state, preference matching with its reason precedence and the soonest preferred phase, high/low anchors, and the tide cell text.
- **Angle and wave arithmetic** (`Maths`, `WindPreference`, `WindCell`, `WaveData`, `WavePeriod`, `PeriodService`, `Format`, `Compass`): angle normalisation, distance and span, wrap-aware ranges, the match score, the offshore-wind test, compass labels, the angle of incidence, the two dominant-period rules, and the countdown text.
- **Spot gating and selection** (`WavePreference`, `WaveCell`, `HooksSpotSelector`, `ServicesSpotSelector`): the ordered wave gates, list buckets, the best spot per name ordered by name, and the wave-cell fallbacks.

Shared modules:

- `Common` holds optional values, results with an error message, and the decimal-string helpers.
- `Php` holds the slice of PHP value semantics the code relies on: dynamic values, `isset`, `is_numeric`, casts, truthiness, `round`, `fmod`, `intdiv` and `%`.

Conventions of the model:

- Timestamps are integers (epoch seconds, hours or days, as each module says).
- Angles, heights and periods are exact reals.
- The network, the file system, the database, the clock, DateTime parsing and local-time formatting are parameters (oracles or given data). A database "next/prev" query is a function over the station's table in time order.
- Code that changes state step by step is written as methods with loops and invariants: the parsers, the importers, discovery, downloads, anchors, the selectors, and the memoised tide matcher (a class whose cache is a field). Most of them are proved equal to a reference function whose properties are proved as lemmas; the rest state their results directly in their postconditions.

Behaviours of the code that the model keeps as written:

- `process_point_series` does not catch per-file errors: its per-file `try` has a `finally` and no `except` (main.py:99-156), so one failing file aborts the station.
- Discovery tries cycles 18, 12, 6, 0 in that order (nomads.py:102, 109).
- An empty series after the range filter (main.py:168-170) is not an error; only a station with no rows at all aborts (main.py:158-159).
- The wave-forecast importer (`WaveForecastRepository`) and the selectors' match score follow the code as written (`DegToCompassAsWritten`, `MatchScoreAsWritten`); the corrected definitions are proved separately and listed under Findings.

## Model

| member | source | states |
|---|---|---|
| Maths.NormAngle | includes/Helpers/Maths.php:36-41 | the normalised angle lies in [0, 360) |
| Maths.NormAngleIsFlooredRem | includes/Helpers/Maths.php:36-41 | `normAngle(x)` equals the floored remainder `x - 360 * floor(x / 360)`, an independent definition |
| Maths.NormAnglePeriodic | includes/Helpers/Maths.php:36-41 | angles that differ by whole turns normalise to the same bearing |
| Maths.NormAngleFixes | includes/Helpers/Maths.php:36-41 | a bearing already in [0, 360) is left unchanged |
| Maths.NormAngleShift | includes/Helpers/Maths.php:36-41 | adding less than a turn to a bearing wraps past 360 at most once |
| Maths.AngDist | includes/Helpers/Maths.php:44-48 | the distance lies in [0, 180] |
| Maths.AngDistZero | includes/Helpers/Maths.php:44-48 | the distance is zero exactly when both angles name the same bearing, and it is symmetric |
| Maths.AngSpan | includes/Helpers/Maths.php:51-58 | the short span lies in [0, 180] |
| Maths.AngSpanIsAngDist | includes/Helpers/Maths.php:51-58 | the short span from min to max equals the angular distance between them |
| Maths.ClockwiseSpan | includes/Helpers/Maths.php:53-56 | the clockwise span lies in [0, 360) |
| Maths.DirInRange | includes/Helpers/Maths.php:61-68 | both ends of the window are inside it |
| Maths.DirInRangeIsClockwiseArc | includes/Helpers/Maths.php:61-68 | a bearing is inside exactly when its clockwise offset from min is at most the window's clockwise span, so a window with min > max wraps through north |
| Maths.DirInRangeComplement | includes/Helpers/Maths.php:61-68 | the windows min..max and max..min cover the circle and share only their ends |
| Maths.DirInRangePeriodic | includes/Helpers/Maths.php:61-68 | membership does not depend on which turn any of the three angles is written in |
| Maths.MidDirAsWrittenOffCentre | includes/Helpers/Maths.php:84-89 | as written, the window 100..40 gets the mid direction 130, which is 30 from one end and 90 from the other |
| Maths.MidDir | includes/Helpers/Maths.php:84-89 | the corrected mid direction lies in [0, 360) and is half the short span from each end |
| Maths.MidDirCentred | includes/Helpers/Maths.php:84-89 | both branches of the corrected centre are half the short span from `dmin` and from `dmax` |
| Maths.MidDirClockwise | includes/Helpers/Maths.php:84-89 | when the clockwise span is the short one, min turned by half of it is equidistant from both ends |
| Maths.MidDirAnticlockwise | includes/Helpers/Maths.php:84-89 | when the clockwise span is the long one, max turned by half the short span is equidistant from both ends |
| Maths.PeriodDistance | includes/Helpers/Maths.php:80-82 | the period distance is non-negative, and zero unless both period bounds are set |
| Maths.MatchScore | includes/Helpers/Maths.php:74-93 | the score with the corrected mid direction is non-negative whenever the direction weight is, and zero when neither window is set |
| Maths.MatchScoreAsWritten | includes/Helpers/Maths.php:74-93 | the score the selector uses, with the source's mid direction, is non-negative whenever the direction weight is, and zero when neither window is set |
| Maths.MatchScoreAsWrittenPrefersOffCentre | includes/Helpers/Maths.php:74-93 | with the direction window 100..40, a swell from 130, inside the wrapped window and 30 degrees from one bound and 90 from the other, scores the best possible zero, while one from 70, the short-arc midpoint between the bounds that the comment at Maths.php:83 calls the centre (itself outside the wrapped window), is charged 60 degrees times the weight |
| Maths.MatchScoreZeroAtCentre | includes/Helpers/Maths.php:74-93 | a forecast at the centre of both windows scores zero, the best score |
| Maths.MatchScoreMonotoneInPeriod | includes/Helpers/Maths.php:80-92 | a period farther from the middle of the period window never scores better, under both the corrected and the as-written score |
| WindPreference.DeltaDeg | includes/Utilities/WindPreference.php:23-27 | for bearings at most 540 degrees apart, the signed difference lies in [-180, 180) |
| WindPreference.IsPreferred | includes/Utilities/WindPreference.php:13-18 | a wind is preferred only when both bearings are present |
| WindPreference.DeltaDegCongruent | includes/Utilities/WindPreference.php:23-27 | the signed difference differs from `a - b` by a whole number of turns, so together with its range it is the one value congruent to `a - b` in [-180, 180) |
| WindPreference.DeltaDegIsAngDist | includes/Utilities/WindPreference.php:13-27 | the size of the signed difference is exactly the shortest angular distance between the bearings |
| WindPreference.IsPreferredIffFarEnough | includes/Utilities/WindPreference.php:13-18 | a wind is preferred exactly when it is at least 90 degrees from the spot's facing |
| WavePeriod.ComputeDominantPeriod | includes/Utilities/WavePeriod.php:7-27 | there is a period exactly when all four fields are set; it is then, rounded to one decimal, the mean of the two periods for equal heights, `wwP + bias·(swP − wwP)` for a taller wind-wave and `swP` for a taller swell, within 0.05 of that unrounded value, and for a bias in [0, 1] between the two rounded component periods |
| WavePeriod.DominantRawBetween | includes/Utilities/WavePeriod.php:18-24 | for a bias in [0, 1] the unrounded period lies between the two component periods |
| WavePeriod.SharedPeriodWins | includes/Utilities/WavePeriod.php:18-24 | when both components share a period, that period is chosen whatever the heights and bias |
| WavePeriod.EqualHeightsSymmetric | includes/Utilities/WavePeriod.php:18-19 | with equal heights the components can be swapped without changing the result |
| WavePeriod.BiasExtremes | includes/Utilities/WavePeriod.php:20-24 | a bias of 1 always gives the swell period, and a bias of 0 gives the taller component's period |
| PeriodService.ComputeDominantPeriod | includes/Services/PeriodService.php:7-18 | there is a period exactly when all four fields are set; the heights are rounded to one decimal before they are compared, equal rounded heights give the mean of the periods and otherwise the taller component's period is taken, rounded to one decimal, within 0.05 of that period and between the two rounded component periods |
| PeriodService.RulesAgreeOnTallerSwell | includes/Services/PeriodService.php:7-18 | when the rounded swell height is larger, this rule and `WavePeriod` both give the rounded swell period, for any bias |
| PeriodService.RoundingMergesCloseHeights | includes/Services/PeriodService.php:11-16 | heights 1.04 and 1.01 round to the same value, so this rule averages the periods where the bias rule would not |
| WaveData.Aoi | includes/Hooks/WaveData.php:22-26 | the angle of incidence is at most 180 |
| WaveData.AoiIsAngDist | includes/Hooks/WaveData.php:22-26 | for bearings in [0, 360) it equals the shortest angular distance, is non-negative and is symmetric |
| WaveData.AoiCategory | includes/Hooks/WaveData.php:27-33 | the result is one of the four classes: closeout exactly below 4 degrees, good lines exactly in [4, 15), feathered exactly in [15, 30) and wrapped exactly from 30 degrees |
| WaveData.AoiCategoryMonotone | includes/Hooks/WaveData.php:27-33 | a larger angle never falls in a straighter class |
| WindCell.NormDeg | includes/Hooks/WindCell.php:30 | PHP's truncating `%` applied twice gives the Euclidean remainder of the bearing mod 360, in [0, 360) |
| WindCell.CardinalIndex | includes/Hooks/WindCell.php:32 | the point index is below 16 |
| WindCell.DegToCardinal | includes/Hooks/WindCell.php:27-34 | the dash is returned exactly when the bearing is missing, and otherwise one of the 16 point names |
| WindCell.CardinalSector | includes/Hooks/WindCell.php:27-34 | point k names the bearings within 11.25 degrees of 22.5·k, lower edge included |
| WindCell.CardinalIndexSector | includes/Hooks/WindCell.php:32 | the floor expression gives k for every bearing in point k's sector |
| WindCell.CardinalNorthWraps | includes/Hooks/WindCell.php:32-33 | bearings from 349 to 359 wrap round to "N" through the final `% 16` |
| WindCell.CardinalPeriodic | includes/Hooks/WindCell.php:27-34 | a bearing a whole number of turns away gets the same name, negative bearings included |
| WindCell.ParseWholeTenths | includes/Hooks/WindCell.php:16 | a whole speed printed without a decimal point reads back as its value in tenths |
| WindCell.ParseFractionTenths | includes/Hooks/WindCell.php:16 | a speed printed with one decimal place reads back as its value in tenths |
| WindCell.TenthsTextRoundTrip | includes/Hooks/WindCell.php:16 | the speed as printed (whole numbers without a decimal point) reads back as the speed rounded to tenths, for any sign |
| WindCell.SpeedText | includes/Hooks/WindCell.php:16 | the printed speed reads back as a whole number of tenths within half a tenth of the speed |
| WindCell.Format | includes/Hooks/WindCell.php:12-22 | the cell is the dash alone exactly when both bearing and speed are missing; with a speed and no bearing it is `<speed> kt (&mdash;)` |
| WindCell.FormatShowsBearing | includes/Hooks/WindCell.php:17-21 | with a bearing, the cell starts with its point name and shows three digits that read back as the bearing mod 360 |
| Compass.PointIndex | includes/BatchProcessing/SpectralDataParser.php:23-28 | a found position holds the name among the 16 points, and nothing is found only for a name that is not a point |
| Compass.SpecDirDegrees | includes/BatchProcessing/SpectralDataParser.php:23-28 | the direction table has an entry exactly for the 16 point names |
| Compass.SpecDirDegreesInTable | includes/BatchProcessing/SpectralDataParser.php:48 | a known point name maps to one of the tabulated degrees |
| Compass.SpecDegreesAreBearingsRoundedDown | includes/BatchProcessing/SpectralDataParser.php:23-28 | the value of point k is its bearing 22.5·k rounded down, and the table maps the k-th name to it |
| WaveCell.NumField | includes/Hooks/WaveCell.php:31-35 | a field becomes a float exactly when it is set and numeric |
| WaveCell.MetersToFeet | includes/Helpers/Maths.php:7-10 | metres times 3.28084, rounded to the precision: within half a unit of its last place of the exact feet |
| WaveCell.MetersToFeetMonotone | includes/Helpers/Maths.php:7-10 | a greater height in metres is never shown as fewer feet |
| WaveCell.FormatParts | includes/Hooks/WaveCell.php:16-23 | the dash exactly when one of the three parts is not numeric; otherwise feet and period to one decimal from the parts' float values and a bearing within half a degree |
| WaveCell.FromBuoyRow | includes/Hooks/WaveCell.php:26-37 | height and direction come from WVHT and MWD; the period is the dominant period when the row has its components, otherwise SwP, then APD, and is missing only when all three are |
| WaveCell.FromForecastRow | includes/Hooks/WaveCell.php:40-47 | each of `hs_m`, `per_s`, `dir_deg` is present exactly when the field is set and numeric, and is then its float value |
| WaveCell.FromForecastRowRoundTrip | includes/Hooks/WaveCell.php:40-47 | reading a DTO back from the row it is stored as gives the same DTO |
| WaveCell.RenderedDir | includes/Hooks/WaveCell.php:87-88 | the bearing shown is a whole number in [0, 359] within half a degree (round the circle) of the direction |
| WaveCell.RenderedDirClose | includes/Hooks/WaveCell.php:87-88 | rounding the normalised bearing and folding 360 onto 0 stays in [0, 359] and within half a degree |
| WaveCell.RenderDto | includes/Hooks/WaveCell.php:74-95 | the cell is the dash exactly when height, period or direction is missing; otherwise the height is `metersToFeet` of the metres to one decimal (within 0.05 ft of the exact feet), the period is rounded to one decimal and the bearing is a whole degree within half a degree |
| WaveCell.CellFromBuoyRow | includes/Hooks/WaveCell.php:56-59 | a buoy cell is the dash exactly when WVHT or MWD is not numeric or no period source is; otherwise its height is WVHT in feet to one decimal |
| WaveCell.DominantCell | includes/Hooks/WaveCell.php:68-71 | the alias renders exactly as `cellFromBuoyRow` |
| WaveCell.CellFromForecastRow | includes/Hooks/WaveCell.php:62-65 | a forecast cell is the dash exactly when one of `hs_m`, `per_s`, `dir_deg` is not numeric |
| WaveCell.ForecastCellOfStoredDto | includes/Hooks/WaveCell.php:40-47 | a DTO stored as a row and rendered through `cellFromForecastRow` renders as the DTO itself |
| SpectralDataParser.HeaderColumns | includes/BatchProcessing/SpectralDataParser.php:13 | the header always yields at least one column (`preg_split` of a trimmed string) |
| SpectralDataParser.FirstMarked | includes/BatchProcessing/SpectralDataParser.php:11-17 | the index found is the first marked one at or after the start, and none is found only when no later index is marked |
| SpectralDataParser.FirstHeader | includes/BatchProcessing/SpectralDataParser.php:11-17 | the header found is a line of the file |
| SpectralDataParser.FirstHeaderIsFirstMatch | includes/BatchProcessing/SpectralDataParser.php:11-17 | the header is the first line matching `^\s*#\s*YY\s+MM\s+DD`, and there is none exactly when no line matches |
| SpectralDataParser.FindHeader | includes/BatchProcessing/SpectralDataParser.php:11-17 | the loop with its `break` returns the first header's columns and a data start two lines below it, or no columns and no start |
| SpectralDataParser.FirstAccepted | includes/BatchProcessing/SpectralDataParser.php:11-17 | the loop stops at the first line the test accepts, or at none |
| SpectralDataParser.Token | includes/BatchProcessing/SpectralDataParser.php:44 | `$vals[$idx] ?? null` is present exactly for an index inside the tokens |
| SpectralDataParser.TimestampReadsBack | includes/BatchProcessing/SpectralDataParser.php:39-40 | five digit tokens of widths that fit read back unchanged from the `%04d-%02d-%02d %02d:%02d:00` timestamp |
| SpectralDataParser.RowAfterSpec | includes/BatchProcessing/SpectralDataParser.php:42-54 | a built row has the key `ts` and one key per column and no other; a column holds the value of its last position; `ts` holds the timestamp unless a column is named `ts` |
| SpectralDataParser.RowAfterKeys | includes/BatchProcessing/SpectralDataParser.php:42-54 | the keys after k columns are `ts` and the first k column names |
| SpectralDataParser.RowAfterTs | includes/BatchProcessing/SpectralDataParser.php:42 | `ts` keeps the timestamp unless one of the columns is named `ts` |
| SpectralDataParser.RowAfterLastWins | includes/BatchProcessing/SpectralDataParser.php:43-54 | a column name not repeated later holds the value of its own position |
| SpectralDataParser.RowAfterStep | includes/BatchProcessing/SpectralDataParser.php:43-54 | assigning the next column extends the row by exactly that column |
| SpectralDataParser.IsNAIsUpperNA | includes/BatchProcessing/SpectralDataParser.php:45 | the character test is `strtoupper($raw) === 'N/A'` |
| SpectralDataParser.CellKinds | includes/BatchProcessing/SpectralDataParser.php:44-54 | an absent, `N/A` or blank token is null; an integer only comes from SwD or WWD and is a tabulated bearing; a string only from STEEPNESS and is the raw token; a float only from another column with a numeric token, as its value |
| SpectralDataParser.Cells | includes/BatchProcessing/SpectralDataParser.php:43-54 | one value per column, each the value of that column's token |
| SpectralDataParser.BuildRow | includes/BatchProcessing/SpectralDataParser.php:42-54 | the inner loop builds exactly the row of `ts` followed by each column's value in column order |
| SpectralDataParser.LineRow | includes/BatchProcessing/SpectralDataParser.php:33-56 | a data line gives no row exactly when it is blank, a comment, or short of tokens; otherwise the row of its timestamp and cells |
| SpectralDataParser.LineRows | includes/BatchProcessing/SpectralDataParser.php:32-57 | what the data loop makes of each line, line by line |
| SpectralDataParser.LineRowKeys | includes/BatchProcessing/SpectralDataParser.php:42-54 | every row kept is keyed by `ts` and the columns and nothing else |
| SpectralDataParser.ReadRows | includes/BatchProcessing/SpectralDataParser.php:32-57 | the data loop returns, in line order, the rows of the lines from the data start that are not skipped |
| SpectralDataParser.Parse | includes/BatchProcessing/SpectralDataParser.php:6-60 | `parse` returns the specified result: the error, or the first header's columns and the rows from two lines below it |
| SpectralDataParser.ParseFailsIffNoHeader | includes/BatchProcessing/SpectralDataParser.php:19-21 | `parse` throws exactly when no line matches the header pattern |
| SpectralDataParser.ParseData | includes/BatchProcessing/SpectralDataParser.php:30-59 | with a header, `parse` returns the first header's columns and at most one row per line, from two below the header |
| SpectralDataParser.ParseRowKeys | includes/BatchProcessing/SpectralDataParser.php:42-56 | every row of a successful `parse` is keyed by `ts` and the columns, and nothing else |
| SpectralDataParser.Filter | includes/BatchProcessing/SpectralDataParser.php:62-69 | `filter` leaves the data as it was |
| SpectralDataParser.FilterFromSpec | includes/BatchProcessing/SpectralDataParser.php:64 | the kept columns are exactly the non-excluded ones, each under its original position, positions ascending |
| SpectralDataParser.FilterDropsDateColumns | includes/BatchProcessing/SpectralDataParser.php:62-64 | with the default exclusions no date column is left and every other column is |
| SpectralDataParserHelpers.CellKinds | includes/Helpers/SpectralDataParser.php:40-49 | an absent token or one whose trim is `N/A` is null; integers only from SwD/WWD and tabulated; strings only from STEEPNESS; floats only from other numeric tokens |
| SpectralDataParserHelpers.SameCellOnBareTokens | includes/Helpers/SpectralDataParser.php:41 | on tokens with no surrounding whitespace the older parser reads a value exactly as the newer one does |
| SpectralDataParserHelpers.TrimOfBare | includes/Helpers/SpectralDataParser.php:41 | a token with no whitespace at either end is its own trim |
| SpectralDataParserHelpers.Cells | includes/Helpers/SpectralDataParser.php:39-50 | one value per column, each the value of that column's token |
| SpectralDataParserHelpers.BuildRow | includes/Helpers/SpectralDataParser.php:37-50 | the inner loop builds exactly the row of `ts` followed by each column's value in column order |
| SpectralDataParserHelpers.LineRow | includes/Helpers/SpectralDataParser.php:32-52 | a line gives no row exactly when it has fewer tokens than columns (blank and `#` lines are not skipped as such) |
| SpectralDataParserHelpers.LineRows | includes/Helpers/SpectralDataParser.php:31-53 | what the data loop makes of each line, line by line |
| SpectralDataParserHelpers.CommentLinesAreRows | includes/Helpers/SpectralDataParser.php:32-33 | a line whose trimmed text starts with `#` and has at least as many tokens as there are columns gives a row, where the newer parser skips it |
| SpectralDataParserHelpers.RepeatedHeaderIsRow | includes/Helpers/SpectralDataParser.php:11-33 | the header line `#YY MM DD` matches the header pattern and gives three columns; a second copy of it below the header is read as a data row, where the newer parser skips it |
| SpectralDataParserHelpers.LineRowKeys | includes/Helpers/SpectralDataParser.php:37-50 | every row kept is keyed by `ts` and the columns and nothing else |
| SpectralDataParserHelpers.ReadRows | includes/Helpers/SpectralDataParser.php:31-53 | the data loop returns, in line order, the rows of the lines from the data start with enough tokens |
| SpectralDataParserHelpers.Parse | includes/Helpers/SpectralDataParser.php:6-56 | `parse` returns the specified result: `Spec header not found.`, or the first header's columns and its rows |
| SpectralDataParserHelpers.ParseFailsIffNoHeader | includes/Helpers/SpectralDataParser.php:19-21 | `parse` throws exactly when no line matches the header pattern |
| SpectralDataParserHelpers.ParseData | includes/Helpers/SpectralDataParser.php:30-55 | with a header, `parse` returns the first header's columns and at most one row per line, from two below the header |
| SpectralDataParserHelpers.ParseRowKeys | includes/Helpers/SpectralDataParser.php:37-53 | every row of a successful `parse` is keyed by `ts` and the columns, and nothing else |
| NdbcWindParser.StripHash | includes/BatchProcessing/NDBCWindParser.php:67 | `preg_replace('/^#\s*/', '', ...)` removes a leading `#` and the whitespace after it, keeping a tail of the line, and leaves any other line alone |
| NdbcWindParser.HashTokens | includes/BatchProcessing/NDBCWindParser.php:67 | a header or units line always yields at least one token |
| NdbcWindParser.UnitsAfterSpec | includes/BatchProcessing/NDBCWindParser.php:74-76 | after mapping units by position, each column holds the token at its last position (null past the tokens), the keys are the old ones and the columns, and every other unit is kept |
| NdbcWindParser.UnitsKeys | includes/BatchProcessing/NDBCWindParser.php:74-76 | the unit keys after k columns are the old keys and the first k column names |
| NdbcWindParser.UnitsKept | includes/BatchProcessing/NDBCWindParser.php:74-76 | a name not among the columns keeps the unit an earlier header gave it |
| NdbcWindParser.UnitsLastWins | includes/BatchProcessing/NDBCWindParser.php:75 | a column not repeated later holds the token at its own position, or null past the tokens |
| NdbcWindParser.MapUnits | includes/BatchProcessing/NDBCWindParser.php:74-76 | the `foreach` leaves exactly the unit map of the positional mapping |
| NdbcWindParser.HeaderAt | includes/BatchProcessing/NDBCWindParser.php:62-81 | a line yields a header finding exactly when it is blank or a `#` line matching the header pattern; the finding has at least one column and its data start one or two lines below (two when a `#` units line follows) |
| NdbcWindParser.Headers | includes/BatchProcessing/NDBCWindParser.php:61-84 | the header finding of every line, line by line |
| NdbcWindParser.HeaderScanLast | includes/BatchProcessing/NDBCWindParser.php:61-84 | the scan does not stop at the first header: it ends with nothing when no line is a header, and otherwise with the columns and data start of the last one |
| NdbcWindParser.ScanHeader | includes/BatchProcessing/NDBCWindParser.php:60-84 | the loop over all lines ends in exactly the specified scan state: columns, accumulated units and data start |
| NdbcWindParser.IndexMap | includes/BatchProcessing/NDBCWindParser.php:94-100 | the position map holds exactly the wanted names that are columns, each at its last position |
| NdbcWindParser.IndexColumns | includes/BatchProcessing/NDBCWindParser.php:94-100 | the loop builds exactly that position map |
| NdbcWindParser.FirstAbsent | includes/BatchProcessing/NDBCWindParser.php:105-109 | the first required name missing from the map, in the order checked, and none exactly when all are present |
| NdbcWindParser.RequiredPresent | includes/BatchProcessing/NDBCWindParser.php:105-109 | once no required name is missing, MM, DD, hh, mm and WSPD all have positions |
| NdbcWindParser.WspdUnit | includes/BatchProcessing/NDBCWindParser.php:113-120 | the speed is in knots exactly when the WSPD unit token, lower-cased, does not contain `m/s` and is `kt` or mentions `knot`; otherwise m/s |
| NdbcWindParser.Speeds | includes/BatchProcessing/NDBCWindParser.php:160-174 | both speeds are present exactly when the speed token is not missing |
| NdbcWindParser.SpeedsClose | includes/BatchProcessing/NDBCWindParser.php:25-35 | the file's own unit is kept to within 0.005, and the other unit is its conversion by 1.943844 to within 0.005 |
| NdbcWindParser.Tokens | includes/BatchProcessing/NDBCWindParser.php:128 | a data line always splits into at least one token |
| NdbcWindParser.YearToken | includes/BatchProcessing/NDBCWindParser.php:132 | the year token is YYYY's when that column exists, else YY's, and there is none only when neither column does |
| NdbcWindParser.Year | includes/BatchProcessing/NDBCWindParser.php:135-139 | a YY-only year under 100 is read as 2000 plus it; every other year is the token's integer value |
| NdbcWindParser.Direction | includes/BatchProcessing/NDBCWindParser.php:150-158 | a direction is present exactly when there is a WDIR column and its token is not missing, and is then the token's value reduced into [0, 360) |
| NdbcWindParser.RowOf | includes/BatchProcessing/NDBCWindParser.php:141-181 | a row's direction is the line's direction; its speeds are present exactly when the WSPD token is not missing |
| NdbcWindParser.ParseDataLine | includes/BatchProcessing/NDBCWindParser.php:125-181 | a line gives no row exactly when it is blank, a comment, short of tokens, or has a missing year; otherwise the row of its tokens and year |
| NdbcWindParser.NoYearColumnNoRows | includes/BatchProcessing/NDBCWindParser.php:132-133 | without a YY or YYYY column every data line is dropped |
| NdbcWindParser.TimestampFields | includes/BatchProcessing/NDBCWindParser.php:141-147 | the timestamp reads back to the year, month, day, hour and minute when these fit their widths |
| NdbcWindParser.LineResults | includes/BatchProcessing/NDBCWindParser.php:124-182 | what the data loop makes of each line, line by line |
| NdbcWindParser.ReadRows | includes/BatchProcessing/NDBCWindParser.php:122-182 | the data loop returns, in line order, the rows of the lines from the data start that are kept |
| NdbcWindParser.Parse | includes/BatchProcessing/NDBCWindParser.php:53-192 | `parse` returns the specified result: an error, or the columns, `degT`, the speed unit and the rows |
| NdbcWindParser.Rows | includes/BatchProcessing/NDBCWindParser.php:201-205 | `rows` fails exactly when `parse` does, and otherwise returns its data |
| NdbcWindParser.LastHeader | includes/BatchProcessing/NDBCWindParser.php:61-84 | the last header finding is the last line that is a header, with its columns and the line after it, or after its units line |
| NdbcWindParser.ParseOutcome | includes/BatchProcessing/NDBCWindParser.php:86-191 | `parse` gives the header error exactly when no line is a header; otherwise the first missing required column's error, or the last header's columns, the detected unit and the rows from its data start; the could-not-locate error never occurs |
| NoaaTideRepository.TableFor | includes/Repositories/NoaaTideRepository.php:186-189 | the table name is `tides_` followed by digits only |
| NoaaTideRepository.TableForKeepsDigits | includes/Repositories/NoaaTideRepository.php:185-189 | a station id's digits are kept in order whatever non-digits surround them (`8720030` gives `tides_8720030`) |
| NoaaTideRepository.DeriveTableName | includes/Repositories/NoaaTideRepository.php:192-198 | the name is `tides_` and a run of 6 to 9 digits from the base name; it throws exactly when the base name has no run of six digits |
| NoaaTideRepository.DeriveTableNameOfAnnualFile | includes/Repositories/NoaaTideRepository.php:191-196 | `<digits>_annual.xml` names the table `tides_<digits>` |
| NoaaTideRepository.ReadDatum | includes/Repositories/NoaaTideRepository.php:201-206 | `datainfo/Datum` trimmed when present, else the root's `datum` attribute, and none only when both are absent |
| NoaaTideRepository.Datum | includes/Repositories/NoaaTideRepository.php:35 | an absent datum and a present `""` or `"0"` (the falsy values `?:` skips) become MLLW; any other present datum is kept |
| NoaaTideRepository.ReadSrcYear | includes/Repositories/NoaaTideRepository.php:209-216 | a year is read exactly when the trimmed BeginDate starts with four digits, and lies in [0, 9999] |
| NoaaTideRepository.ReadSrcYearOfBeginDate | includes/Repositories/NoaaTideRepository.php:208-214 | `20250101 00:00` gives the year of its first four digits |
| NoaaTideRepository.SrcYear | includes/Repositories/NoaaTideRepository.php:36 | without a year, or with year 0, the current year; a non-zero year read from the file is kept |
| NoaaTideRepository.HlType | includes/Repositories/NoaaTideRepository.php:99 | the type is H, L or I, and it is H or L exactly when the reading was, unchanged |
| NoaaTideRepository.Numeric | includes/Repositories/NoaaTideRepository.php:95-96 | a value is read exactly for a numeric string |
| NoaaTideRepository.FeetOf | includes/Repositories/NoaaTideRepository.php:95 | feet from `pred_in_ft`, else centimetres over 30.48, and none only when neither is numeric |
| NoaaTideRepository.MetresOf | includes/Repositories/NoaaTideRepository.php:96 | metres from `pred_in_cm` over 100, else feet times 0.3048, and none only when neither is numeric |
| NoaaTideRepository.ChildUnitsAgree | includes/Repositories/NoaaTideRepository.php:94-96 | when the item gives one height only, the other is its exact conversion |
| NoaaTideRepository.ItemRow | includes/Repositories/NoaaTideRepository.php:75-134 | only an attribute item can throw; a row kept is typed H, L or I and carries the datum and source year |
| NoaaTideRepository.ChildHeights | includes/Repositories/NoaaTideRepository.php:78-99 | a child item with a parsable date and time gives a row exactly when a height is numeric, with the heights of the two fallbacks rounded to three places |
| NoaaTideRepository.ChildSkips | includes/Repositories/NoaaTideRepository.php:86-89 | a child item with an empty date or time, or one that does not parse, is skipped |
| NoaaTideRepository.AttrHeights | includes/Repositories/NoaaTideRepository.php:101-123 | an attribute item with a time and a numeric `v` gives a row: `v` is metres when the root units are `meters` or `m`, feet otherwise, and the other height is converted |
| NoaaTideRepository.AttrThrowsOnlyOnBadTime | includes/Repositories/NoaaTideRepository.php:103-110 | an attribute item throws exactly when it has a time and a numeric value but the time does not parse |
| NoaaTideRepository.ItemRows | includes/Repositories/NoaaTideRepository.php:75-135 | what the loop makes of each item, item by item |
| NoaaTideRepository.ImportAnnualHLXml | includes/Repositories/NoaaTideRepository.php:17-138 | the import returns the specified table and upserted rows, or the error thrown |
| NoaaTideRepository.ImportRows | includes/Repositories/NoaaTideRepository.php:75-134 | every imported row is typed H, L or I and carries the file's datum and source year, and there is at most one per item |
| NoaaTideRepository.ChildItemsNeverThrow | includes/Repositories/NoaaTideRepository.php:78-100 | a found, parsed, named file of child-schema items never makes the import throw |
| NoaaTideRepository.AtOrAfter | includes/Repositories/NoaaTideRepository.php:155-161 | the rows kept are exactly the table's rows at or after `now`, and none exactly when every row is earlier |
| NoaaTideRepository.GetNextHL | includes/Repositories/NoaaTideRepository.php:141-166 | at most `limit` rows, each a row of the table at or after `now`; none exactly when the limit is 0 or no row is at or after `now` |
| NoaaTideRepository.GetNextHLIsPrefix | includes/Repositories/NoaaTideRepository.php:141-166 | the rows are the first `limit` rows at or after `now` in table order, or all of them when there are fewer; on a time-ordered table these are the earliest ones (`AtOrAfterIsSuffix`) |
| NoaaTideRepository.AtOrAfterIsSuffix | includes/Repositories/NoaaTideRepository.php:158-159 | on a table in time order the rows at or after `now` are the table from the first of them on |
| NoaaTideRepository.AtOrAfterHeadIsEarliest | includes/Repositories/NoaaTideRepository.php:154-161 | on a table in time order the first row at or after `now` (the `ORDER BY t_utc ASC` query) is no later than any row at or after `now` |
| NoaaTideRepository.GetPrevHL | includes/Repositories/NoaaTideRepository.php:147-181 | the row returned is strictly before `now`, and none exactly when no row is |
| NoaaTideRepository.GetPrevHLIsLatest | includes/Repositories/NoaaTideRepository.php:174-176 | on a table in time order no row before `now` is later than the one returned |
| Nomads.CandidateDirs | Forecast/src/nomads.py:20-24 | two directories, `wave/gridded` first and its parent `wave` second, under `gfs.<YYYYMMDD>/<cycle padded to 2>` |
| Nomads.FileNameFields | Forecast/src/nomads.py:26-28 | for a cycle below 100 and an hour below 1000 the name has fixed fields from which the cycle, the hour and the extension read back |
| Nomads.FileNameHasNoSlash | Forecast/src/nomads.py:26-28 | a file name with a slash-free extension contains no slash |
| Nomads.HttpOk | Forecast/src/nomads.py:38-49 | an answer counts as present only with status 200; any other status or a raised request exception counts as absent |
| Nomads.FirstAnswering | Forecast/src/nomads.py:61-66 | the URL returned is the first that answers 200, and none is returned only when none answers |
| Nomads.IdxUrls | Forecast/src/nomads.py:61-62 | one `.idx` URL per candidate directory, in probing order |
| Nomads.ProbeIdx | Forecast/src/nomads.py:56-66 | the probe loop returns the first candidate `.idx` URL that answers 200, or none |
| Nomads.BaseDirOf | Forecast/src/nomads.py:68-77 | the base directory is one of the candidate directories, and there is none exactly when no `.idx` of hour 0 or hour 3 answers |
| Nomads.BaseOfIdxUrl | Forecast/src/nomads.py:73-77 | the directory part of an answering `.idx` URL is the candidate directory it was built from |
| Nomads.IdxUrlHead | Forecast/src/nomads.py:77 | `rsplit("/", 1)[0]` of an `.idx` URL gives back its directory |
| Nomads.PickBaseDir | Forecast/src/nomads.py:68-77 | `pick_base_dir` probes hour 0 before hour 3 and returns the specified directory |
| Nomads.CycleKeys | Forecast/src/nomads.py:102 | each date is tried with cycles 18, 12, 6, 0 in that order |
| Nomads.KeysForPrefix | Forecast/src/nomads.py:106-113 | the pairs met after some look-back offsets are a prefix of the pairs met after all of them |
| Nomads.KeysStep | Forecast/src/nomads.py:106-110 | one more look-back offset adds exactly that date's four pairs |
| Nomads.ProbeDate | Forecast/src/nomads.py:109-117 | the inner loop over one date's cycles skips pairs already seen, stops at the first that resolves, keeps the probe log free of repeats, and leaves the seen set equal to the pairs probed; when no pair resolves, every cycle of the date was checked and none resolves, and all of them are now in the seen set |
| Nomads.TrackedSkip | Forecast/src/nomads.py:111-112 | a pair already seen is passed over without probing |
| Nomads.TrackedProbe | Forecast/src/nomads.py:113-115 | a new pair that does not resolve is recorded as seen and probed |
| Nomads.TrackedFound | Forecast/src/nomads.py:113-117 | a new pair that resolves is logged once as probed |
| Nomads.FoundAt | Forecast/src/nomads.py:106-117 | the pair found after an unresolved prefix of the pairs is the first resolving pair |
| Nomads.LatestAvailableRunWithBase | Forecast/src/nomads.py:89-119 | discovery returns the first (date, cycle) in look-back order whose base directory resolves, with that base; otherwise the no-run error and none of the pairs resolved; no pair is probed twice |
| Nomads.FirstResolvingUnique | Forecast/src/nomads.py:102-119 | the first resolving (date, cycle) of the search order, with its base directory, is unique |
| Nomads.BuildHourUrls | Forecast/src/nomads.py:122-123 | one URL per hour, in hour order |
| Nomads.HourUrlParts | Forecast/src/nomads.py:122-123 | each URL splits at its last slash into the base directory and a file name from which the cycle and hour read back |
| NpMin.SumBounds | Forecast/src/np_min.py:6-7 | a sum of values in [lo, hi] lies between count·lo and count·hi |
| NpMin.MeanBetween | Forecast/src/np_min.py:6-7 | the mean of values in [lo, hi] lies in [lo, hi] |
| NpMin.Linspace | Forecast/src/np_min.py:13-16 | `[start]` for at most one value, otherwise `num` values from `start` in equal steps |
| NpMin.LinspaceEndsAtStop | Forecast/src/np_min.py:13-16 | with more than one value the last is `stop` exactly |
| NpMin.Arange | Forecast/src/np_min.py:18-27 | a zero step is exactly the error; otherwise the values are `start + i·step` while they stay on the near side of `stop`, and `stop` absent means counting from 0 |
| NpMin.RampExtend | Forecast/src/np_min.py:24-26 | appending the next value keeps the ramp |
| NpMin.RampUp | Forecast/src/np_min.py:24 | the positive-step loop yields a ramp whose values are below `stop` and whose next value would not be |
| NpMin.RampDown | Forecast/src/np_min.py:26 | the negative-step loop yields a ramp whose values are above `stop` and whose next value would not be |
| NpMin.LerpBetween | Forecast/src/np_min.py:43-44 | between its abscissae the line stays between its ordinates |
| NpMin.LastAtMost | Forecast/src/np_min.py:36-40 | the last index whose abscissa is at most `x` |
| NpMin.Interp | Forecast/src/np_min.py:29-44 | the shape error exactly for empty or unequal inputs; the end values outside the range; otherwise the line through a bracket `xp[lo] <= x < xp[lo+1]`, and numpy's value for ascending `xp` |
| NpMin.BracketIsLast | Forecast/src/np_min.py:36-40 | on an ascending `xp` the bisection bracket starts at the last index at most `x` |
| NpMin.Argmax | Forecast/src/np_min.py:46-51 | an empty input is exactly the error; otherwise the index of the first largest value |
| NwsGridpointWindRequest.Url | includes/API/NWSGridpointWindRequest.php:14-18 | the URL starts with the gridpoints endpoint |
| NwsGridpointWindRequest.UrlRoundTrip | includes/API/NWSGridpointWindRequest.php:14-18 | any office without a slash and any grid cell read back unchanged from their URL |
| NwsGridpointWindRequest.CellSplits | includes/API/NWSGridpointWindRequest.php:17 | the `x,y` part splits back into the two numbers' texts and holds no slash |
| NwsGridpointWindRequest.PathSplits | includes/API/NWSGridpointWindRequest.php:17 | the path after the endpoint splits at its one slash into the office and the cell |
| NwsGridpointWindRequest.HourOf | includes/API/NWSGridpointWindRequest.php:60 | the bucket is the whole hour holding the instant |
| NwsGridpointWindRequest.HourOfShift | includes/API/NWSGridpointWindRequest.php:59-60 | moving an instant by whole hours moves its bucket by as much |
| NwsGridpointWindRequest.StepCount | includes/API/NWSGridpointWindRequest.php:59 | the number of hourly steps from the start that stay before the end |
| NwsGridpointWindRequest.HourBuckets | includes/API/NWSGridpointWindRequest.php:49-67 | the start's hour and then one bucket per further hour, as many as hourly steps start before the end; the start hour alone when the interval is empty |
| NwsGridpointWindRequest.HourBucketsConsecutive | includes/API/NWSGridpointWindRequest.php:59-61 | the buckets of an interval are distinct consecutive hours |
| NwsGridpointWindRequest.ExpandHourly | includes/API/NWSGridpointWindRequest.php:58-66 | the loop and its empty-interval fallback list exactly those buckets |
| NwsGridpointWindRequest.SpeedToKtMs | includes/API/NWSGridpointWindRequest.php:70-85 | both speeds are present exactly when the value is |
| NwsGridpointWindRequest.SpeedConversions | includes/API/NWSGridpointWindRequest.php:73-84 | a unit holding `km_h` is read as km/h, else one holding `kn` as knots, else m/s; each speed is within 0.005 of its exact conversion |
| NwsGridpointWindRequest.OverwriteSpec | includes/API/NWSGridpointWindRequest.php:106-108 | after the writes the keys are the old ones and the buckets; every bucket holds the value, every other key its old value |
| NwsGridpointWindRequest.OverwriteStep | includes/API/NWSGridpointWindRequest.php:107 | writing one more bucket is one more map update |
| NwsGridpointWindRequest.WriteBuckets | includes/API/NWSGridpointWindRequest.php:106-108 | the inner loop leaves exactly the overwritten map |
| NwsGridpointWindRequest.SpreadValue | includes/API/NWSGridpointWindRequest.php:105-108 | one pass writes the value, null when it is not numeric, to every bucket of its interval, or stops with the error of reading the interval |
| NwsGridpointWindRequest.Spread | includes/API/NWSGridpointWindRequest.php:104-117 | the loop over a series leaves exactly the specified map, or the first interval error |
| NwsGridpointWindRequest.SpreadStops | includes/API/NWSGridpointWindRequest.php:104-117 | once an interval cannot be read the loop ends with that error |
| NwsGridpointWindRequest.SpreadKeys | includes/API/NWSGridpointWindRequest.php:103-109 | once every interval is read, an hour is a key exactly when some value's interval covers it |
| NwsGridpointWindRequest.CoveredStep | includes/API/NWSGridpointWindRequest.php:104-108 | an hour covered by the first n values is covered by the first n-1 or by the n-th |
| NwsGridpointWindRequest.LaterIntervalWins | includes/API/NWSGridpointWindRequest.php:104-108 | an hour holds the value of the last value whose interval covers it |
| NwsGridpointWindRequest.SetMin | includes/API/NWSGridpointWindRequest.php:122 | the least element of a non-empty set |
| NwsGridpointWindRequest.SetMinExists | includes/API/NWSGridpointWindRequest.php:122 | a non-empty set of hours has a least element |
| NwsGridpointWindRequest.SortedOf | includes/API/NWSGridpointWindRequest.php:121-122 | `array_unique` then `sort` gives every element once, strictly increasing |
| NwsGridpointWindRequest.WdirOf | includes/API/NWSGridpointWindRequest.php:126-133 | a direction is present exactly when the map has a number there |
| NwsGridpointWindRequest.FModOfWhole | includes/API/NWSGridpointWindRequest.php:129 | `fmod` by 360 of a whole number in [0, 720) is its remainder |
| NwsGridpointWindRequest.RoundWhole | includes/API/NWSGridpointWindRequest.php:133 | `round` leaves a whole number as it is |
| NwsGridpointWindRequest.WdirInRange | includes/API/NWSGridpointWindRequest.php:127-133 | a present direction becomes its whole part taken round the circle, a whole degree in [0, 359] |
| NwsGridpointWindRequest.JoinRow | includes/API/NWSGridpointWindRequest.php:124-136 | a row keeps its hour; its speeds are present exactly when the speed map has a number there, its direction when the direction map does |
| NwsGridpointWindRequest.JoinSpec | includes/API/NWSGridpointWindRequest.php:123-137 | one row per hour, in the given order |
| NwsGridpointWindRequest.JoinHours | includes/API/NWSGridpointWindRequest.php:120-137 | the join loop builds exactly those rows |
| NwsGridpointWindRequest.JoinShape | includes/API/NWSGridpointWindRequest.php:123-137 | over increasing hours the rows keep hours and order, every direction is a whole degree in [0, 359], and nulls sit exactly where a map has no number |
| NwsGridpointWindRequest.FetchRows | includes/API/NWSGridpointWindRequest.php:88-140 | `fetch_rows` after the fetch returns the specified rows, or the first interval error |
| NwsGridpointWindRequest.NoRowsWithoutSeries | includes/API/NWSGridpointWindRequest.php:95-97 | without a speed series, a direction series or any speed value there are no rows |
| NwsGridpointWindRequest.JoinCovers | includes/API/NWSGridpointWindRequest.php:121-123 | rows joined over an ordering of a set of hours carry exactly the hours of that set |
| NwsGridpointWindRequest.FetchRowsIsJoin | includes/API/NWSGridpointWindRequest.php:102-139 | with both series read, the result is the join over the sorted union of their hours |
| NwsGridpointWindRequest.FetchRowsShape | includes/API/NWSGridpointWindRequest.php:102-139 | the rows run over the hours of either series, each once, increasing; every direction is in [0, 359]; nulls sit exactly where a series has no number |
| Php.Field | includes/Hooks/WaveCell.php:31 | `$row[k] ?? null` gives a value exactly when the key is set to a non-null value |
| Php.Trunc | includes/API/NWSGridpointWindRequest.php:133 | `(int)` of a float rounds toward zero: it keeps the sign and is within one of the value, never above it in size |
| Php.FMod | includes/API/NWSGridpointWindRequest.php:129 | `fmod` by a positive modulus has the sign of the dividend and stays within one modulus of zero |
| Php.FModBelow | includes/Helpers/Maths.php:38 | `fmod` by 360 leaves a value in [0, 360) unchanged |
| Php.FModAbove | includes/API/NWSGridpointWindRequest.php:129 | `fmod` by 360 takes one turn off a value in [360, 720) |
| Php.TruncMod | includes/Hooks/WindCell.php:30 | PHP's `%` has the sign of the dividend, agrees with the Euclidean remainder for non-negative dividends, and pairs with the truncating quotient |
| Php.NormDegInt | includes/BatchProcessing/NDBCWindParser.php:156 | `(($w % 360) + 360) % 360` is the Euclidean remainder of `$w` by 360, in [0, 360) |
| Php.RoundHalfAway | includes/Hooks/WaveCell.php:87 | `round($x)` is within half a unit of `$x` |
| Php.RoundHalfAwayMonotone | includes/Helpers/Maths.php:9 | `round` never reverses an order |
| Php.RoundToMonotone | includes/Helpers/Maths.php:9 | `round($x, p)` never reverses an order |
| Php.RoundScaledClose | includes/Helpers/Maths.php:9 | `round($x, p)` is within half a unit of the last place kept |
| Php.RoundToTwoClose | includes/BatchProcessing/NDBCWindParser.php:28 | `round($x, 2)` is within 0.005 of `$x` |
| Php.RoundToOneClose | includes/Utilities/WavePeriod.php:26 | `round($x, 1)` is within 0.05 of `$x` |
| Php.NumOrNull | includes/Hooks/WaveCell.php:18-20 | `is_numeric($v) ? (float)$v : null` gives a float exactly for a numeric value; a numeric string is PHP 8's: optional surrounding whitespace around a signed decimal literal with an optional fraction and an optional exponent |
| Php.DigitsExponentNumeric | includes/Hooks/WaveCell.php:18-20 | digits, `e` and digits form a numeric string whose float value is the mantissa scaled by ten to the exponent |
| Php.Scale10Up | includes/Hooks/WaveCell.php:18-20 | scaling by a non-negative exponent multiplies by that power of ten |
| Php.BareExponentNotNumeric | includes/Hooks/WaveCell.php:18-20 | `"1e"` is not numeric, while `(float)` still reads its leading `1` |
| Php.DigitsAreNumeric | includes/BatchProcessing/SpectralDataParser.php:39-40 | a digit token is numeric and reads as its decimal value |
| Php.SqlTimestampRoundTrip | includes/BatchProcessing/NDBCWindParser.php:147 | fields that fit `%04d-%02d-%02d %02d:%02d:00` read back unchanged from the timestamp |
| Php.SqlTimestampFields | includes/BatchProcessing/NDBCWindParser.php:147 | where each field and separator sits in a timestamp built from fields of the right widths |
| Php.Index | includes/Repositories/WaveForecastRepo.php:26 | `$v[k] ?? null` is a non-null entry of an array value under that key |
| Php.Basename | includes/Repositories/WaveForecastRepo.php:26 | `basename` holds no slash |
| Php.BasenameOfJoin | includes/Repositories/NoaaTideRepository.php:194 | the base name of `dir/name` is `name` |
| Php.DigitsOnly | includes/Repositories/NoaaTideRepository.php:188 | `preg_replace('/\D+/', '', s)` leaves only digits and never lengthens |
| Php.DigitsOnlyKeepsDigits | includes/Repositories/NoaaTideRepository.php:188 | a string of digits is left unchanged |
| Php.DigitsOnlyConcat | includes/Repositories/NoaaTideRepository.php:188 | the digits of a concatenation are the digits of each part in turn |
| Php.FirstDigitRunFromSpec | includes/Repositories/NoaaTideRepository.php:194 | `(\d{6,9})` finds nothing exactly when no six digits stand together, and otherwise the first such run, at most nine long |
| Php.FirstDigitRunAfter | includes/Repositories/NoaaTideRepository.php:194 | after a digit-free stretch, a run of 6 to 9 digits followed by a non-digit is matched whole |
| Common.OrElse | Forecast/src/nomads.py:73 | `a or b` on optional values: present exactly when either is, and the first when it is present |
| Common.Upper | includes/BatchProcessing/SpectralDataParser.php:45 | `strtoupper` keeps the length and upper-cases each character |
| Common.Lower | includes/BatchProcessing/NDBCWindParser.php:116 | `strtolower` keeps the length and lower-cases each character |
| Common.TrimLeft | includes/BatchProcessing/SpectralDataParser.php:33 | the left trim is no longer than the string and does not start with whitespace |
| Common.TrimLeftCuts | includes/BatchProcessing/SpectralDataParser.php:33 | the left trim is the rest of the string after a prefix made only of whitespace |
| Common.TrimRight | includes/BatchProcessing/SpectralDataParser.php:33 | the right trim is no longer than the string and does not end with whitespace |
| Common.TrimRightCuts | includes/BatchProcessing/SpectralDataParser.php:33 | the right trim is the string up to a suffix made only of whitespace |
| Common.Trim | includes/BatchProcessing/SpectralDataParser.php:33 | `trim` leaves no whitespace at either end and is no longer than the string |
| Common.TrimEnds | includes/BatchProcessing/SpectralDataParser.php:33 | `trim` is a middle stretch of the string, with only whitespace cut before and after it |
| Common.TrimOfTrimmed | includes/BatchProcessing/SpectralDataParser.php:33 | a string with no whitespace at either end is its own trim |
| Common.SkipRegexWs | includes/BatchProcessing/SpectralDataParser.php:12 | the scan stops at the first character after `i` that is not `\s`, having passed only `\s` |
| Common.FindRegexWs | includes/BatchProcessing/SpectralDataParser.php:36 | the scan stops at the first `\s` character after `i`, having passed none |
| Common.SplitWs | includes/BatchProcessing/SpectralDataParser.php:36 | `preg_split('/\s+/', ...)` gives at least one piece, and no piece holds whitespace |
| Common.SplitWsRebuilds | includes/BatchProcessing/SpectralDataParser.php:36 | the pieces, joined back with the whitespace runs between them, give the string: they are its non-whitespace stretches, in order |
| Common.WsRunsAreRuns | includes/BatchProcessing/SpectralDataParser.php:36 | the separators `preg_split` cut at are non-empty runs made only of whitespace |
| Common.InnerPiecesNonEmpty | includes/BatchProcessing/SpectralDataParser.php:36 | only the first and the last piece can be empty: every piece between two whitespace runs holds at least one character |
| Common.SplitOn | Forecast/src/main.py:41 | splitting at a separator gives at least one piece, and no piece holds the separator |
| Common.SplitOnJoin | Forecast/src/main.py:41 | joining the pieces back with the separator gives the string |
| Common.JoinSplitOn | Forecast/src/main.py:41 | pieces free of the separator, joined with it, split back into themselves |
| Common.NatToStringRoundTrip | includes/Hooks/WindCell.php:16 | a natural number's decimal text reads back as the number |
| Common.PadNatRoundTrip | includes/Hooks/WindCell.php:17 | a zero-padded number reads back as the number and, when it fits, has exactly the padded width |
| Common.IntStringRoundTrip | Forecast/src/main.py:41 | an integer's text reads back as the integer, sign included |
| Common.PyRangeSpec | Forecast/src/main.py:42 | `range(start, stop, step)` holds `start + i·step` at each index, all on the near side of `stop`, and the next value would not be |
| Common.PyRangeValues | Forecast/src/main.py:42 | each value of `range` is `start + i·step` and lies before `stop` in the direction of the step |
| Common.PyRangeEnd | Forecast/src/main.py:42 | the value after the last one of `range` is no longer before `stop` |
| Common.KeptStep | includes/BatchProcessing/SpectralDataParser.php:56 | one more line adds its row to the data when it has one, and nothing otherwise |
| Common.KeptSpec | includes/BatchProcessing/SpectralDataParser.php:32-57 | the data holds at most one row per line, and exactly the rows of the lines in range |
| Common.KeptSource | includes/BatchProcessing/SpectralDataParser.php:56 | every row of the data comes from a line in range |
| Common.KeptAll | includes/Repositories/WaveForecastRepo.php:184-193 | when every line gives a row, the data is all of them in line order |
| Common.Picked | includes/Services/SpotSelector.php:37-145 | a filter keeps at most as many items as it is given |
| Common.PickedSpec | includes/Services/SpotSelector.php:37-145 | the kept items are the images of some increasing choice of the items that the filter accepts, covering every accepted one |
| Common.LastSome | includes/BatchProcessing/NDBCWindParser.php:61-84 | the last index holding a finding, and none exactly when no index does |
| Common.LastIndexOf | Forecast/src/nomads.py:77 | the last position of the character, and none exactly when it does not occur |
| Common.RSplitJoin | Forecast/src/nomads.py:77 | `rsplit(c, 1)` of `head + c + tail`, with no `c` in the tail, gives back the head and the tail |
| Common.Gather | includes/Repositories/WaveForecastRepository.php:70-98 | the rows gathered from a loop that may throw: an error exactly when an item threw, and then the first such error; otherwise at most one row per item, each from an item |
| Common.GatherStep | includes/Repositories/WaveForecastRepository.php:70-98 | one more item adds its row, adds nothing, or ends with its error |
| Common.GatherStops | includes/Repositories/WaveForecastRepository.php:70-98 | once an item throws, the loop ends with its error |
| Pipeline.HourFields | Forecast/src/main.py:41 | three integers are read only from text that splits at `:` into exactly three pieces |
| Pipeline.ParseHours | Forecast/src/main.py:40-42 | the hours exist exactly when the spec is three integers with a non-zero step; they climb from `start` by `step`, none passes `end`, and the next would |
| Pipeline.HourFieldsRoundTrip | Forecast/src/main.py:40-42 | three integers written as `a:b:c` read back unchanged |
| Pipeline.IntHasNoColon | Forecast/src/main.py:41 | an integer's text holds no colon |
| Pipeline.DefaultHours | Forecast/src/main.py:32 | the default `0:72:3` gives 25 hours from 0 to 72 |
| Pipeline.Download | Forecast/src/main.py:44-59 | the download succeeds exactly when some attempt up to `retries` does, at the first such attempt; every failed attempt k is followed by a pause of 2·k seconds; when all fail, every attempt was made |
| Pipeline.LocalPaths | Forecast/src/main.py:207-216 | at most one stored path per URL |
| Pipeline.LocalPathsExact | Forecast/src/main.py:207-216 | the stored paths are exactly the destinations of the hours obtained, from the cache or by download |
| Pipeline.LocalPathsEmpty | Forecast/src/main.py:214-218 | there is no stored path exactly when no hour was obtained |
| Pipeline.FetchAll | Forecast/src/main.py:203-222 | the download loop succeeds exactly when some hour is obtained, and then returns the stored paths in URL order; otherwise it fails with the "downloaded 0 files" message |
| Pipeline.DestOfHourUrl | Forecast/src/main.py:204-209 | an hour's file is stored as the target directory and the hour's file name |
| Pipeline.AllSeries | Forecast/src/main.py:227-229 | a successful pass over the stations gives one series per station |
| Pipeline.AllSeriesEach | Forecast/src/main.py:227-229 | each station gets its own series, in station order |
| Pipeline.ProcessStations | Forecast/src/main.py:227-229 | the per-station loop returns the specified series, the first failing station aborting it |
| Pipeline.AllSeriesErr | Forecast/src/main.py:227-229 | once a station fails the whole run fails with its error |
| Pipeline.AllSeriesFirstFailure | Forecast/src/main.py:225-229 | the pass over the stations fails exactly when some station fails, and then with the message of the first station that fails |
| Pipeline.ResolvedRun | Forecast/src/main.py:196-229 | a resolved run fails with the hour specification's error when it is malformed, with `Resolved run <yyyymmdd> <cc>Z @ <base>, but downloaded 0 files. …` when no hour was obtained, and otherwise succeeds only with every station's series, in station order, over the stored files, which are at least one |
| Pipeline.ResolvedRunStationFailure | Forecast/src/main.py:225-229 | once some hour is stored, the resolved run fails exactly when a station fails, and then with the first failing station's error |
| Pipeline.RunResolved | Forecast/src/main.py:196-229 | the method with its download and station loops gives exactly the outcome of the resolved-run specification |
| Pipeline.Run | Forecast/src/main.py:186-229 | when no (date, cycle) of the look-back window resolves, the run ends with no work; when one does, the outcome is the resolved run of the first that resolves, errors included; a run with no work had no pair resolve |
| PointSeries.FloorMod | Forecast/src/main.py:104 | Python's float `%` by a positive modulus lies in [0, m) and differs from the value by whole moduli |
| PointSeries.FloorModBounds | Forecast/src/main.py:104 | the floored remainder lies in [0, m) |
| PointSeries.LonTarget | Forecast/src/main.py:104 | on a 0..360 grid a western longitude is shifted into [0, 360) by whole turns; any other longitude is kept |
| PointSeries.LonTargetOneTurn | Forecast/src/main.py:104 | a longitude in [-360, 0) on a 0..360 grid is shifted by exactly 360 |
| PointSeries.AddBroadcast | Forecast/src/main.py:110-112 | pandas addition of the run times and the lead times works exactly for equal lengths or a length-1 side, and adds element by element, repeating the single value |
| PointSeries.TimeValues | Forecast/src/main.py:107-121 | the times are `valid_time`, else `time + step`, else `time`, else the run's own time; only `time + step` can fail |
| PointSeries.PickVar | Forecast/src/main.py:85-89 | the first of the candidate names the point has, in priority order, and none exactly when it has none |
| PointSeries.Vals | Forecast/src/main.py:135-144 | a scalar or one-element array is repeated to n values and a longer one is cut to its first n; only a shorter one fails |
| PointSeries.Column | Forecast/src/main.py:146-149 | a column exists exactly when a variable was picked, with one value per time |
| PointSeries.FileFrame | Forecast/src/main.py:99-151 | a file gives no frame exactly when none of the three quantities is found; a frame has one value per time in every column |
| PointSeries.FramesOf | Forecast/src/main.py:91-156 | every frame gathered is well formed |
| PointSeries.FrameRows | Forecast/src/main.py:162 | a frame gives one row per time |
| PointSeries.ColumnsOf | Forecast/src/main.py:162 | the concatenated table has a column exactly when some frame has it |
| PointSeries.UpsertSpec | Forecast/src/main.py:165 | placing a row in a time-ordered table keeps it in strictly ascending time and replaces the row with the same time |
| PointSeries.KeptAsLastStep | Forecast/src/main.py:165 | one more row is kept, and an earlier kept row stays kept unless it has that row's time |
| PointSeries.ConsolidateSpec | Forecast/src/main.py:165 | sorting and dropping duplicate times, keeping the last, gives strictly ascending times and exactly the rows no later row shares a time with |
| PointSeries.ConsolidateKeepsTimes | Forecast/src/main.py:165 | every time of the input keeps one row |
| PointSeries.Limit | Forecast/src/main.py:167-170 | the rows kept are exactly those within the sanity limits, and the order is kept |
| PointSeries.SeriesShape | Forecast/src/main.py:158-170 | the final series has ascending unique times; its rows are exactly the last row of each time that lies within the limits |
| PointSeries.ProcessPointSeries | Forecast/src/main.py:61-184 | the per-station loop returns the specified series: the errors for no paths, a failing file or no usable frame, otherwise the consolidated rows within the limits |
| PointSeries.FramesStep | Forecast/src/main.py:91-151 | one more file either ends the run with its error or appends its frame, if any |
| PointSeries.FramesErrPersists | Forecast/src/main.py:91-156 | once a file fails, the run fails with its message |
| ServicesSpotSelector.FloatOf | includes/Services/SpotSelector.php:67-70 | `(float)$spot[k]` of a missing column is 0 |
| ServicesSpotSelector.DirWindowAgreesWithinOneTurn | includes/Services/SpotSelector.php:72-74 | for bearings within one turn the inline direction test agrees with `Maths::dirInRange` |
| ServicesSpotSelector.DirWindowDiffersOutsideOneTurn | includes/Services/SpotSelector.php:72-74 | with a bound stored outside one turn the inline test differs: the window -20..20 excludes 350 here and `dirInRange` includes it |
| ServicesSpotSelector.Clock | includes/Services/SpotSelector.php:92 | a local time text exists exactly when the instant does |
| ServicesSpotSelector.Bucket | includes/Services/SpotSelector.php:81-90 | the bucket is "1" or "2", and "1" exactly when the spot has tide preferences and the tide matches |
| ServicesSpotSelector.TideNote | includes/Services/SpotSelector.php:80-116 | with preferences and a match, the matching phase and time; with preferences and no match, the next preferred phase; without preferences, the next tide marker; each only when both phase and time are set |
| ServicesSpotSelector.RowOf | includes/Services/SpotSelector.php:118-143 | a row carries the dominant period, the tide match fields, whether the spot has preferences, its bucket and its note |
| ServicesSpotSelector.RowFor | includes/Services/SpotSelector.php:37-143 | a spot gives a row exactly when both MWD values are present, the dominant period exists and lies within the spot's range, and the direction passes |
| ServicesSpotSelector.Select | includes/Services/SpotSelector.php:14-146 | the loop returns the specified list |
| ServicesSpotSelector.SelectKeepsPassingSpots | includes/Services/SpotSelector.php:37-145 | the list holds one row per spot that passes the wave checks, in the spots' order, and nothing else |
| ServicesSpotSelector.SelectBucketRule | includes/Services/SpotSelector.php:81-90 | a listed row is in list 1 exactly when its spot has tide preferences and the tide matches |
| HooksSpotSelector.HasPrefs | includes/Hooks/SpotSelector.php:72-73 | `$hasPrefs` holds whenever the tide matcher sees a preference in one of the four columns |
| HooksSpotSelector.PrefColumnsNotEmpty | includes/Hooks/SpotSelector.php:72-73 | each column the matcher reads as a preference passes `!empty` |
| HooksSpotSelector.HasPrefsWiderThanPrefs | includes/Hooks/SpotSelector.php:72-73 | the converse fails: a column set to 2 counts for `$hasPrefs` and is no preference for the matcher |
| HooksSpotSelector.NowRowOf | includes/Hooks/SpotSelector.php:72-119 | a "now" row carries the gate's height, period and direction with their wave cell; it is in list "1" exactly when the tide matches and the spot has tide preferences, else "2"; its phase code is the tide reason, else the next preferred phase, else the next marker, and its tide column shows that code or a dash |
| HooksSpotSelector.Select | includes/Hooks/SpotSelector.php:32-123 | the loop builds exactly the "now" list of the specification: empty without both station coordinates, else one row per spot whose wave gate passes |
| HooksSpotSelector.SelectKeepsPassingSpots | includes/Hooks/SpotSelector.php:50-67 | without both station coordinates the list is empty; otherwise its rows are, in the spots' order, those of exactly the spots whose wave gate passes |
| HooksSpotSelector.SelectBucketRule | includes/Hooks/SpotSelector.php:70-75 | every listed row is in list "1" exactly when its tide matches and its spot has tide preferences |
| HooksSpotSelector.BeforeIrreflexive | includes/Hooks/SpotSelector.php:209-211 | the name order used by `usort` never puts a name before itself |
| HooksSpotSelector.BeforeTransitive | includes/Hooks/SpotSelector.php:209-211 | the name order is transitive |
| HooksSpotSelector.BeforeTotal | includes/Hooks/SpotSelector.php:209-211 | any two different names are ordered one way or the other |
| HooksSpotSelector.MinuteFloor | includes/Hooks/SpotSelector.php:150 | the reference minute is the start of the minute holding the instant |
| HooksSpotSelector.Target | includes/Hooks/SpotSelector.php:164-166 | the target instant lies exactly `delta` minutes after the reference minute |
| HooksSpotSelector.MinutesLeft | includes/Hooks/SpotSelector.php:144-148 | the whole minutes left until the end of the day, never negative, and 0 once the day is over |
| HooksSpotSelector.TideCode | includes/Hooks/SpotSelector.php:173 | the tide code is the next preferred phase when there is one (`closest_pref` always equals it), else the next marker |
| HooksSpotSelector.Score | includes/Hooks/SpotSelector.php:178-183 | the match score of a passing forecast, computed as the source does with its off-centre mid direction, is never negative, and is zero for a spot with neither a period nor a direction window |
| HooksSpotSelector.CandidateFor | includes/Hooks/SpotSelector.php:155-202 | a spot is a candidate exactly when its delta lies in the window, the forecast gate passes at the target instant and its tide code is allowed; the candidate row carries the spot's name, the forecast's values, the tide code and the score |
| HooksSpotSelector.ConsiderSpot | includes/Hooks/SpotSelector.php:155-202 | the gates taken as successive `continue`s yield exactly the candidate of that spot |
| HooksSpotSelector.BestByName | includes/Hooks/SpotSelector.php:204-206 | every kept entry is filed under its own name |
| HooksSpotSelector.BestIsFirstMinimum | includes/Hooks/SpotSelector.php:204-206 | the table holds one entry per candidate name, and that entry is the lowest-scoring candidate with the name, the earliest on ties |
| HooksSpotSelector.KeysStep | includes/Hooks/SpotSelector.php:204-206 | offering one more candidate keeps the table's names equal to the candidates' names |
| HooksSpotSelector.FirstMinimumStep | includes/Hooks/SpotSelector.php:204-206 | offering one more candidate keeps every entry the first of the lowest with its name |
| HooksSpotSelector.InsertByName | includes/Hooks/SpotSelector.php:209-211 | inserting a row with a new name keeps the list strictly ascending by name and adds exactly that row and name |
| HooksSpotSelector.SplicedIsSorted | includes/Hooks/SpotSelector.php:209-211 | a row placed after every smaller name and before every larger one keeps the list ascending |
| HooksSpotSelector.SplicedMembers | includes/Hooks/SpotSelector.php:209-211 | splicing a row in adds exactly that row and its name |
| HooksSpotSelector.ListByName | includes/Hooks/SpotSelector.php:209-211 | the list holds exactly the kept rows, one per name, ascending by name |
| HooksSpotSelector.ListStep | includes/Hooks/SpotSelector.php:209-211 | listing one more kept entry keeps the listed part exact and ordered |
| HooksSpotSelector.SelectForecast | includes/Hooks/SpotSelector.php:154-211 | the loop shared by both forecast lists yields the best candidate per name over the spots, listed by name, and nothing with fewer than two station coordinates |
| HooksSpotSelector.SelectForecastLaterToday | includes/Hooks/SpotSelector.php:129-212 | the later-today list is the forecast list over the window from now to the end of the local day |
| HooksSpotSelector.SelectForecastTomorrow | includes/Hooks/SpotSelector.php:217-297 | the tomorrow list is the forecast list over the 1440 minutes from local midnight |
| HooksSpotSelector.ForecastListIsBestPerName | includes/Hooks/SpotSelector.php:154-211 | every listed row is the first of the lowest-scoring passing spots with its name, every such name is listed, and the list ascends by name |
| TideCell.Canonicalize | includes/Hooks/TideCell.php:139-147 | a known spelling maps to its canonical code, which is one of the six; any other text is kept and is not a canonical code |
| TideCell.NormalizeCode | includes/Hooks/TideCell.php:136-148 | a trimmed, upper-cased known spelling becomes its canonical code; anything else stays trimmed and upper-cased and is not canonical |
| TideCell.CleanedIsStable | includes/Hooks/TideCell.php:138 | trimming and upper-casing twice is the same as once |
| TideCell.CanonicalIsStable | includes/Hooks/TideCell.php:136-148 | a canonical code normalises to itself |
| TideCell.NormalizeCodeIdempotent | includes/Hooks/TideCell.php:136-148 | normalising a normalised code changes nothing |
| TideCell.NormalizeCodeIgnoresCase | includes/Hooks/TideCell.php:138 | the normalised code does not depend on letter case |
| TideCell.TrimCommutesWithLower | includes/Hooks/TideCell.php:138 | trimming and lower-casing commute |
| TideCell.Humanize | includes/Hooks/TideCell.php:151-162 | a canonical code gets its caption, anything else is shown unchanged |
| TideCell.LabelsAreDistinct | includes/Hooks/TideCell.php:151-162 | different canonical codes get different captions, and no caption is itself a code |
| TideCell.CurrentLabel | includes/Hooks/TideCell.php:23-35 | a missing or empty state shows a dash; otherwise the normalised state is captioned when it is a high, low, incoming or outgoing, and a dash otherwise |
| TideCell.NextPeakInfo | includes/Hooks/TideCell.php:42-61 | nothing when no event lies ahead or the next event has an empty type; otherwise, for the one row `getNextHL(…, 1)` returns, the whole minutes to it, "High" or "Low" by its normalised type, and the caption with its local time |
| TideCell.NextPeakMinutesAreFloor | includes/Hooks/TideCell.php:52 | the minutes are the floor of the time to the next event and never negative |
| TideCell.HlAtLabel | includes/Hooks/TideCell.php:164-171 | an `H` or `L` row is captioned as `humanize` captions it, any other type reads as a low, followed by the local time |
| TideCell.HlAtLabelIsCaseSensitive | includes/Hooks/TideCell.php:164-171 | the type is not normalised: `h`, which normalises to a high, is labelled like a low |
| TideCell.FirstSet | includes/Hooks/TideCell.php:86-95 | the `??` chain yields nothing exactly when no key is set, else the value of the first key that is set |
| TideCell.MinutesUntil | includes/Hooks/TideCell.php:117-119 | the whole minutes until an instant, never negative, and 0 once it has passed |
| TideCell.PrefCellView | includes/Hooks/TideCell.php:79-129 | no cell exactly when neither a code nor a time is set; otherwise the caption of the code; later modes never count down; in "now" mode a numeric delta wins over the time, a delta or time of zero minutes reads "now" and a positive one counts down those minutes |
| TideCell.PrefCellFromSelectorRow | includes/Hooks/TideCell.php:97 | a row with neither a code nor a time renders as a dash |
| TideCell.LaterModesShowLabelAtTime | includes/Hooks/TideCell.php:102-105 | outside "now" mode the cell is the caption, followed by the local time when a time is set and non-empty |
| TideCell.DeltaAtOrBelowZeroIsNow | includes/Hooks/TideCell.php:114-127 | in "now" mode a numeric delta at or below zero renders "<caption> now" |
| TidePhaseService.WalkFrom | includes/Services/TidePhaseService.php:16-20 | the walk ends at the row it started from or at an earlier row of the table |
| TidePhaseService.PrevForWindow | includes/Services/TidePhaseService.php:14-23 | the `a` endpoint, when there is one, is a high or low of the table before now |
| TidePhaseService.WalkBack | includes/Services/TidePhaseService.php:14-23 | the bounded walk back yields exactly that endpoint |
| TidePhaseService.StrictIsOrdered | includes/Services/TidePhaseService.php:14 | a table with strictly increasing times is in time order |
| TidePhaseService.WalkFromNearest | includes/Services/TidePhaseService.php:16-20 | every step of the walk keeps "no high or low lies between the current row and now" |
| TidePhaseService.PrevForWindowIsLatestHL | includes/Services/TidePhaseService.php:14-23 | on a table with distinct times the endpoint found is the latest high or low before now |
| TidePhaseService.FirstHLIndex | includes/Services/TidePhaseService.php:28-33 | the position of the first high or low, with none before it; none exactly when the rows hold no high or low |
| TidePhaseService.FirstHL | includes/Services/TidePhaseService.php:28-33 | the first high or low of the rows, and none exactly when there is none |
| TidePhaseService.FirstHLOf | includes/Services/TidePhaseService.php:26-33 | the `foreach`/`break` loop yields the first high or low |
| TidePhaseService.OppositeAfter | includes/Services/TidePhaseService.php:47-63 | a found row is a high or low of the rows of the other type; once past `b`, finding none means every later high or low has the same type |
| TidePhaseService.OppositeAfterFirst | includes/Services/TidePhaseService.php:51-57 | the search starts right after the first high or low |
| TidePhaseService.OppositeAfterOf | includes/Services/TidePhaseService.php:45-63 | the loop with `$passedFirst` yields exactly that search's result |
| TidePhaseService.TakeHL | includes/Services/TidePhaseService.php:69-73 | at most `n` rows, each a high or low of the rows |
| TidePhaseService.TakeHLStartsWithFirst | includes/Services/TidePhaseService.php:69-73 | the first row collected is the first high or low |
| TidePhaseService.FirstTwoHLOf | includes/Services/TidePhaseService.php:69-73 | the loop collects exactly the first two highs or lows |
| TidePhaseService.Between | includes/Services/TidePhaseService.php:108-109 | "L→H" exactly for a low then a high, "H→L" exactly for a high then a low, and nothing otherwise |
| TidePhaseService.WithinMinutes | includes/Services/TidePhaseService.php:113-115 | the rounded minute difference is within the window exactly when the distance is under the window plus half a minute; never for a negative window |
| TidePhaseService.MinuteOf | includes/Services/TidePhaseService.php:186 | the formatted mid time is the start of its minute |
| TidePhaseService.MidInstant | includes/Services/TidePhaseService.php:102 | the floored halfway instant lies between the two events |
| TidePhaseService.RoundToThreeClose | includes/Services/TidePhaseService.php:106-107 | rounding to three places moves a height by at most half a thousandth |
| TidePhaseService.MidOf | includes/Services/TidePhaseService.php:99-110 | a mid-tide exists exactly for a high/low pair of opposite types; it names the pair's direction, its minute holds the halfway instant, and its heights are the mean heights to within half a thousandth |
| TidePhaseService.TideWindowSpec | includes/Services/TidePhaseService.php:11-199 | "no_hl_events" exactly when there is neither an `a` endpoint nor a high or low ahead; `next` is a high or low at or after now and `prev` a high or low of the table; at most one of H/L and of M+/M- is within the window, and each flag is set exactly when its event is the next high or low (for H and L) or the mid of the endpoints running that way (for M+ and M-) and the rounded minutes from now to that event are at most the window |
| TidePhaseService.TideWindowForStation | includes/Services/TidePhaseService.php:11-199 | the method computes exactly that window |
| TidePhaseService.SameTypeUsesOpposite | includes/Services/TidePhaseService.php:45-65 | when the previous and next events have the same type, `b` moves to the first later event of the other type, if there is one in the rows looked ahead |
| TidePhaseService.NoPrevUsesTwoAhead | includes/Services/TidePhaseService.php:67-78 | without a previous high/low but with two ahead, the reported `prev` is the first one ahead, the same event as `next` |
| TidePhaseService.CheckSlack | includes/Services/TidePhaseService.php:217-227 | a slack window exactly when now is within `slackMin` minutes of the row, centred on it, with the given name |
| TidePhaseService.TruncHalfBetween | includes/Services/TidePhaseService.php:239 | the truncated halfway time lies between the two times |
| TidePhaseService.SlackAt | includes/Services/TidePhaseService.php:230-233 | slack exactly when the row is a high or low within `slackMin` minutes of now; "High" for a high and "Low" for a low, the window spanning `slackMin` minutes either side of the peak |
| TidePhaseService.SlackHit | includes/Services/TidePhaseService.php:229-233 | the previous event's slack wins over the next one's |
| TidePhaseService.StateOf | includes/Services/TidePhaseService.php:201-267 | no state exactly when no slack hits and one side is missing; a flow only outside both slack windows, between the previous and next events, "Incoming" exactly for low to high and "Outgoing" exactly for high to low, its midpoint between the two |
| TidePhaseService.StateSpec | includes/Services/TidePhaseService.php:201-267 | a flow state lies between an event before now and one at or after now, its midpoint between them |
| TidePhaseService.SlackWhenNearEvent | includes/Services/TidePhaseService.php:229-233 | a slack state exactly when now is near the previous or the next event, the previous winning, the window two `slackMin` wide around the peak |
| TidePhaseService.StateForStation | includes/Services/TidePhaseService.php:201-267 | the method computes exactly that state |
| TidePreference.PrefTruthy | includes/Utilities/TidePreference.php:34-40 | a missing value is false, a boolean is itself, a number is true exactly when it casts to 1, and any other text is true exactly when, trimmed and lower-cased, it is one of the "yes" words |
| TidePreference.PrefTruthyIsTruthy | includes/Utilities/TidePreference.php:34-40 | any value the `$truthy` helper accepts is also non-empty in PHP's sense |
| TidePreference.Prefs | includes/Utilities/TidePreference.php:43-46 | the flag for each phase code is the `$truthy` reading of the column `allowPhase` checks for that code |
| TidePreference.AllowPhase | includes/Utilities/TidePreference.php:334-344 | true only for a code among H, L, M+ and M-, and then exactly when the spot's column for it casts to the integer 1 |
| TidePreference.AllowPhaseAgreesOnNumbers | includes/Utilities/TidePreference.php:37 | for an absent, null, boolean or numeric column, `allowPhase` agrees with the preference `tidePrefMatch` reads |
| TidePreference.LetterStartsNoNumber | includes/Utilities/TidePreference.php:338 | a text starting with a letter is not numeric and casts to 0 |
| TidePreference.AllowPhaseRefusesYes | includes/Utilities/TidePreference.php:39 | a column holding "yes" is a preference for `tidePrefMatch` but is refused by `allowPhase` |
| TidePreference.Mins | includes/Utilities/TidePreference.php:142-144 | the signed minutes are within half a minute of the exact difference, and not negative exactly when the later instant is less than half a minute before the earlier one |
| TidePreference.NearestIndex | includes/Utilities/TidePreference.php:81-89 | the index of the smallest distance, the first one on ties |
| TidePreference.Distances | includes/Utilities/TidePreference.php:83-84 | one distance per static station |
| TidePreference.NearestId | includes/Utilities/TidePreference.php:78-89 | the chosen id is one of the static stations, and no station is nearer to the spot |
| TidePreference.NearestStation | includes/Utilities/TidePreference.php:73-89 | the loop keeps the station with the strictly smallest distance, the first on ties |
| TidePreference.MatchReason | includes/Utilities/TidePreference.php:164-192 | the later checks override the earlier: M- when it is within the window and preferred, else M+, else L, else H; nothing otherwise; H and L carry the next event's time and M+ and M- the mid-tide's |
| TidePreference.FirstKindIndex | includes/Utilities/TidePreference.php:210-222 | the position of the first row of a type, none before it; none exactly when no row has the type |
| TidePreference.FirstHighAndLow | includes/Utilities/TidePreference.php:210-222 | the loop yields the time of the first high and of the first low ahead |
| TidePreference.PairIndex | includes/Utilities/TidePreference.php:231-257 | the first adjacent pair of the two given types from a position, and none exactly when there is no such pair |
| TidePreference.PairMidStep | includes/Utilities/TidePreference.php:231-257 | the pair search from one position either takes the pair there or moves on |
| TidePreference.MidsFromPlus | includes/Utilities/TidePreference.php:231-257 | the shared loop finds the M+ mid of the first low-then-high pair |
| TidePreference.MidsFromMinus | includes/Utilities/TidePreference.php:231-257 | the shared loop finds the M- mid of the first high-then-low pair |
| TidePreference.FutureMids | includes/Utilities/TidePreference.php:224-257 | the loop yields the mid of the first low-then-high pair and of the first high-then-low pair |
| TidePreference.PickBestSpec | includes/Utilities/TidePreference.php:260-269 | the best is never later than any candidate not in the past, and is either the starting best or a candidate strictly sooner than every earlier one |
| TidePreference.NextPrefIsSoonest | includes/Utilities/TidePreference.php:194-290 | the next preferred phase is the candidate soonest ahead, the first on ties, and none exactly when no candidate is ahead |
| TidePreference.CandidatesArePreferred | includes/Utilities/TidePreference.php:271-289 | every candidate considered is of a preferred phase |
| TidePreference.Marker | includes/Utilities/TidePreference.php:292-306 | only spots without preferences get a marker: a mid-tide that is not past and has a direction is chosen, at its time, labelled M+ exactly for low to high and M- exactly for high to low; otherwise the next high or low with its type and time when it has a type, else no marker |
| TidePreference.HasCoords | includes/Utilities/TidePreference.php:50 | both `region_lat` and `region_lon` are set and not null |
| TidePreference.CacheKey | includes/Utilities/TidePreference.php:113 | the memo key is the station and the UTC hour that contains now |
| TidePreference.MatchWindow | includes/Utilities/TidePreference.php:118-331 | a window error is reported as a match with nothing else; otherwise `ok` exactly when there is a reason, the debug text names it, a next preference is always a preferred phase with a delta ahead and short of `PHP_INT_MAX`, and a marker only appears without preferences |
| TidePreference.EvaluateWindow | includes/Utilities/TidePreference.php:140-331 | the method computes exactly that match |
| TidePreference.TidePreferenceMatcher.constructor | includes/Utilities/TidePreference.php:31 | the matcher's own memo starts empty; the source shares one memo across instances (see Left out) |
| TidePreference.TidePreferenceMatcher.TidePrefMatch | includes/Utilities/TidePreference.php:29-332 | without coordinates the match is skipped and the memo unchanged; otherwise the window of the nearest station is memoised per station and hour, computed only on a miss, and the result is the match against the memoised window |
| TidePreferenceEvaluator.Evaluator.constructor | includes/Services/TidePreferenceEvaluator.php:19 | the evaluator's own memo starts empty; the source shares one memo across instances (see Left out) |
| TidePreferenceEvaluator.Evaluator.TidePrefMatch | includes/Services/TidePreferenceEvaluator.php:17-277 | without coordinates the match is skipped and the memo unchanged; otherwise the nearest station's window, from `tideWindowForStation` on its table, is memoised per station and hour and computed only on a miss, and the result is the match against it with that table's upcoming rows |
| TidePreferenceEvaluator.MatchedHighOrLowIsNear | includes/Services/TidePreferenceEvaluator.php:142-151 | a high (low) match means the spot prefers it and a high (low) of the table lies at the reported time, at most the window plus half a minute ahead |
| TidePreferenceEvaluator.MatchedMidIsNear | includes/Services/TidePreferenceEvaluator.php:152-161 | a mid-tide match means the spot prefers it, the window's mid-tide runs the matching way, is the reported time and lies within the window of now |
| TidePreferenceEvaluator.NoEventsIsReportedAsMatch | includes/Services/TidePreferenceEvaluator.php:98-114 | a table with no high or low before or ahead of now is reported as a match with no tide and the "no_hl_events" error |
| Format.MinutesToHm | includes/Helpers/Format.php:55-64 | the countdown is "now" exactly when the minutes are not positive |
| Format.MinutesToHmRoundTrip | includes/Helpers/Format.php:55-64 | reading the countdown back gives the minutes, or 0 for "now": hours times 60 plus the minutes is the input |
| Format.MinutesOnlyRoundTrip | includes/Helpers/Format.php:63 | a bare "<m>m" reads back as m |
| Format.HoursRoundTrip | includes/Helpers/Format.php:60-62 | "<h>h <mm>m" reads back as 60h + m |
| Format.HoursSplit | includes/Helpers/Format.php:61 | the hours form splits at its one space into the hour part and the minute part |
| Format.HoursParts | includes/Helpers/Format.php:61 | the two parts of the hours form read back as 60h + m |
| Format.MinutesToHmShape | includes/Helpers/Format.php:57-63 | under an hour the countdown is "<m>m"; from an hour on it is "<h>h <mm>m", with the minutes padded to two digits and h, m the quotient and remainder by 60 |
| Format.HtmlEscape | includes/Helpers/Format.php:90 | the escaped text holds no `<`, `>`, `"` or `'` and is never shorter than the input |
| Format.UnescapeAfterEscapeChar | includes/Helpers/Format.php:90 | decoding an escaped character gives the character back |
| Format.UnescapeEntity | includes/Helpers/Format.php:90 | each of the five entities decodes to its character |
| Format.EscapeRoundTrip | includes/Helpers/Format.php:90 | decoding the escaped text gives the text back |
| Format.Safe | includes/Helpers/Format.php:87-91 | the dash entity exactly when the trimmed text is empty, an em dash or a hyphen; otherwise text that decodes to the trimmed input |
| Format.EscapeNeverDash | includes/Helpers/Format.php:90 | no escaped text is the dash entity, so the dash always means blank |
| MidTideModel.OfKind | includes/Models/MidTideModel.php:40-45 | exactly the rows of the given type |
| MidTideModel.HighsAndLows | includes/Models/MidTideModel.php:14-33 | exactly the highs and lows of the table |
| MidTideModel.NextEnd | includes/Models/MidTideModel.php:38-47 | the next endpoint is the first high/low from now, or an event of the other type after `prev` |
| MidTideModel.MidTideOf | includes/Models/MidTideModel.php:49-59 | the label is M+ exactly for a low then a high and M- in every other case; the mid time lies between the two events and the height is their mean to within half a cent |
| MidTideModel.OfKindOrdered | includes/Models/MidTideModel.php:40-45 | the rows of one type of a time-ordered table are in time order |
| MidTideModel.HighsAndLowsOrdered | includes/Models/MidTideModel.php:14-33 | the highs and lows of a time-ordered table are in time order |
| MidTideModel.OppositeDiffers | includes/Models/MidTideModel.php:39 | the type the guard asks for always differs from `prev`'s |
| MidTideModel.FirstFromIsEarliest | includes/Models/MidTideModel.php:24-45 | on a time-ordered list the one row the ascending query returns is the earliest at or after its bound |
| MidTideModel.NoneOfKindFrom | includes/Models/MidTideModel.php:40-46 | the guard query finds nothing exactly when every event of the wanted type lies before its bound |
| MidTideModel.NextEndTakesFix | includes/Models/MidTideModel.php:38-47 | when the guard query finds an event, it becomes `next`, and its type is not `prev`'s |
| MidTideModel.GuardFixIsEarliest | includes/Models/MidTideModel.php:40-45 | on a time-ordered table the event the guard query finds is the earliest of the other type after `prev` |
| MidTideModel.NextEndReplacesSameType | includes/Models/MidTideModel.php:38-47 | when the first high/low from now has `prev`'s type, `next` is the earliest event of the other type after `prev`, or stays the first one only when there is no such event |
| MidTideModel.NextEndKeepsOtherType | includes/Models/MidTideModel.php:38-47 | when the first high/low from now already has the other type, it is kept, and it is the earliest event of that type after `prev` |
| MidTideModel.NextMid | includes/Models/MidTideModel.php:8-75 | nothing exactly when every high/low is at or after now or every one is before it; otherwise `prev` is a high/low before now, `next` a high/low of the table, and the mid-tide is theirs |
| MidTideModel.NextMidPrevIsLatest | includes/Models/MidTideModel.php:14-22 | on a time-ordered table `prev` is the latest high/low before now |
| MidTideModel.NextMidEndpoints | includes/Models/MidTideModel.php:8-47 | on a time-ordered table `prev` is the latest high/low before now; `next` is the earliest event of the other type after `prev` whenever its type differs, and otherwise the earliest high/low from now, with no event of the other type after `prev` |
| MidTideModel.MidTideOpposes | includes/Models/MidTideModel.php:38-56 | whenever the table has an event of the other type after `prev`, the endpoints are a high and a low, and the label is M+ exactly when `prev` is the low |
| ForecastPreference.NextCursor | includes/Utilities/ForecastPreference.php:84 | the next cursor is after the anchor and at most one minute later |
| ForecastPreference.Events | includes/Utilities/ForecastPreference.php:72-83 | one anchor per table row, with its time and type |
| ForecastPreference.FirstAtOrAfter | includes/Utilities/ForecastPreference.php:72 | the position of the first row at or after the cursor, every row before it being earlier |
| ForecastPreference.NextRow | includes/Utilities/ForecastPreference.php:72-73 | the row read is of the table and at or after the cursor; none exactly when every row is earlier |
| ForecastPreference.NextRowIsQuery | includes/Utilities/ForecastPreference.php:72 | that row is what `getNextHL` with a limit of 1 returns |
| ForecastPreference.AnchorsFrom | includes/Utilities/ForecastPreference.php:71-85 | at most `max` anchors, each a high or low no later than the horizon |
| ForecastPreference.HlAnchors | includes/Utilities/ForecastPreference.php:59-87 | the loop yields exactly the anchors of the specification |
| ForecastPreference.AnchorsTake | includes/Utilities/ForecastPreference.php:75-84 | a row the loop takes becomes the next anchor and the loop goes on from just after it |
| ForecastPreference.AnchorsIncrease | includes/Utilities/ForecastPreference.php:72-84 | anchors come at or after the start, in strictly increasing time order |
| ForecastPreference.AnchorsAreEvents | includes/Utilities/ForecastPreference.php:72-83 | every anchor is a row of the table |
| ForecastPreference.TableRowIsEvent | includes/Utilities/ForecastPreference.php:83 | every table row gives an event |
| ForecastPreference.AnchorsStopAtFirstRefusal | includes/Utilities/ForecastPreference.php:73-81 | the loop stops rather than skips: with fewer than `max` anchors, the row read after the last one is missing, not a high or low, or past the horizon |
| ForecastPreference.NextRowIsEarliest | includes/Utilities/ForecastPreference.php:72 | on a time-ordered table the row read is the earliest at or after the cursor |
| ForecastPreference.AnchorsSkipNothing | includes/Utilities/ForecastPreference.php:72-84 | no table row lies between the cursor in force and the anchor read from it |
| ForecastPreference.HlAnchorsProperties | includes/Utilities/ForecastPreference.php:59-87 | at most `max` anchors, strictly increasing, each a high/low of the table between the start and start plus `hours`; none passed over on a time-ordered table; an early end only at a refused row |
| ForecastPreference.ZoneGatePassesWhenComplete | includes/Utilities/ForecastPreference.php:31-43 | the forecast gate on the zone stub fails only when the period or the direction is missing |
| ForecastPreference.SampleAt | includes/Utilities/ForecastPreference.php:38-51 | an anchor gives a row exactly when the forecast gate passes there, with the anchor's time and type, the forecast's period and direction, and its height with a missing height cast to 0.0 |
| ForecastPreference.Samples | includes/Utilities/ForecastPreference.php:38-52 | no more rows than anchors, and every anchor whose sample succeeded gives its row |
| ForecastPreference.SamplesKeepOrder | includes/Utilities/ForecastPreference.php:38-52 | every row comes from an anchor, and rows keep the anchors' increasing order |
| ForecastPreference.SamplesFromAnchors | includes/Utilities/ForecastPreference.php:38-52 | every row comes from an anchor |
| ForecastPreference.IncreasingTail | includes/Utilities/ForecastPreference.php:72-84 | the rest of an increasing anchor list is increasing |
| ForecastPreference.SamplesIncreasing | includes/Utilities/ForecastPreference.php:38-52 | rows from increasing anchors are in strictly increasing time order |
| ForecastPreference.LaterThanFirst | includes/Utilities/ForecastPreference.php:72-84 | every later anchor is after the first |
| ForecastPreference.ConsIncreases | includes/Utilities/ForecastPreference.php:45-51 | a row earlier than all the rest keeps the rows increasing |
| ForecastPreference.HlAnchoredForecastForStation | includes/Utilities/ForecastPreference.php:17-54 | the loop yields exactly the rows of the specification: nothing without anchors, else one row per anchor whose forecast passes, in order |
| ForecastPreference.AnchoredRowsAreTideEvents | includes/Utilities/ForecastPreference.php:17-54 | at most `maxRows` rows, in time order, each at a table high/low instant between the start and the horizon |
| WaveForecastRepo.DigitRunBack | includes/Repositories/WaveForecastRepo.php:29 | the run of digits ending at a position is all digits and cannot be extended to the left |
| WaveForecastRepo.InferTable | includes/Repositories/WaveForecastRepo.php:28-34 | an inferred table is `waves_` and a non-empty run of digits that the name ends with, after `wave_point_` and before `.json` (or `.json` and a final newline, which `$` lets through) |
| WaveForecastRepo.TableNameTail | includes/Repositories/WaveForecastRepo.php:29 | the tail of the name from `wave_point_` on is that prefix, the digits and the suffix the match accepted |
| WaveForecastRepo.InferTableRoundTrip | includes/Repositories/WaveForecastRepo.php:28-31 | any name ending in `wave_point_<digits>.json` gives the table `waves_<digits>` |
| WaveForecastRepo.InferTableNeedsJsonEnding | includes/Repositories/WaveForecastRepo.php:29-33 | a name without the `.json` ending gives no table, so the import is skipped |
| WaveForecastRepo.TableForStation | includes/Repositories/WaveForecastRepo.php:231-237 | `waves_` and the id exactly when the id is all digits (a final newline let through by `$` included); otherwise the "Bad station id" error naming the id |
| WaveForecastRepo.IsList | includes/Repositories/WaveForecastRepo.php:239-249 | true exactly when the keys are 0, 1, 2, … in order |
| WaveForecastRepo.EntryA | includes/Repositories/WaveForecastRepo.php:161-176 | a current-shape entry gives a row exactly when it is an array with a set `time` that parses, at the parsed minute, with each quantity `numOrNull` of the current name (`Hs_m`, `Per_s`, `Dir_deg`) when set, else of the legacy lower-case name |
| WaveForecastRepo.EntryB | includes/Repositories/WaveForecastRepo.php:184-191 | a legacy entry gives a row exactly when it is an array with a set `t_utc`, at the parsed minute or else at the raw text, with `hs_m`, `per_s` and `dir_deg` each the `numOrNull` of its field |
| WaveForecastRepo.EntriesA | includes/Repositories/WaveForecastRepo.php:161-177 | one reading per entry of the `data` array |
| WaveForecastRepo.EntriesB | includes/Repositories/WaveForecastRepo.php:184-192 | one reading per entry of the legacy list |
| WaveForecastRepo.ReadShapeA | includes/Repositories/WaveForecastRepo.php:159-179 | the loop keeps, in order, the rows of exactly the entries that give one |
| WaveForecastRepo.ReadShapeB | includes/Repositories/WaveForecastRepo.php:182-194 | the loop keeps, in order, the rows of exactly the legacy entries that give one |
| WaveForecastRepo.NormalizeRows | includes/Repositories/WaveForecastRepo.php:156-197 | the current shape is read when there is a `data` array, else the legacy list when the input is a list, else nothing |
| WaveForecastRepo.ShapeAFirst | includes/Repositories/WaveForecastRepo.php:159-179 | with a `data` array every row comes from an entry of it, at most one per entry, and the legacy reading is not used |
| WaveForecastRepo.ShapeBKeepsEveryTimedEntry | includes/Repositories/WaveForecastRepo.php:182-194 | in a legacy list every array entry with a set `t_utc` gives a row, in list order, an unparsable time included |
| WaveForecastRepo.NeitherShapeIsEmpty | includes/Repositories/WaveForecastRepo.php:196 | input of neither shape gives no rows |
| WaveForecastRepo.CurrentNamesWin | includes/Repositories/WaveForecastRepo.php:167-169 | a set current-shape name decides even when its value is not numeric; the lower-case name is read only when the other is unset; a quantity is present only from a numeric value |
| WaveForecastRepo.ImportMessageOk | includes/Repositories/WaveForecastRepo.php:24-71 | only a committed import's message starts with "OK " |
| WaveForecastRepo.ImportJson | includes/Repositories/WaveForecastRepo.php:18-41 | the four skips in order with their messages: not a file, no table given or inferred, a read error, JSON that is not an array |
| WaveForecastRepo.ImportJsonOk | includes/Repositories/WaveForecastRepo.php:18-72 | the import reports OK exactly when the file exists, a table is given or inferred, the file reads and decodes to an array with usable rows, and the transaction commits |
| WaveForecastRepo.ExplicitTableIsUsed | includes/Repositories/WaveForecastRepo.php:28 | a given table name is used as is, even an empty one, and the message names the row count |
| WaveForecastRepository.DeriveTableName | includes/Repositories/WaveForecastRepository.php:169-176 | the name is derived exactly when the file's base name holds a run of at least five digits; it is then `waves_` and five to nine digits, and otherwise the fixed message is thrown |
| WaveForecastRepository.DeriveTableNameRoundTrip | includes/Repositories/WaveForecastRepository.php:168-174 | `<dir>/wave_point_<digits>.json` with five to nine digits gives the table `waves_<digits>` |
| WaveForecastRepository.NoSlashAmongDigits | includes/Repositories/WaveForecastRepository.php:171 | a base name built from a slash-free prefix, the digits and a slash-free suffix has no slash, so `basename` keeps all of it |
| WaveForecastRepository.TableFor | includes/Repositories/WaveForecastRepository.php:179-182 | the table is `waves_` followed by digits only |
| WaveForecastRepository.TableForDigits | includes/Repositories/WaveForecastRepository.php:179-182 | an all-digit station id is kept unchanged, and mapping a table's digits again gives the same table |
| WaveForecastRepository.ToNullableFloat | includes/Repositories/WaveForecastRepository.php:184-190 | null, the empty string and non-numeric values give null, numbers give their value, as the shared numeric reading |
| WaveForecastRepository.RoundOrNull | includes/Repositories/WaveForecastRepository.php:192-195 | null stays null; a value becomes its PHP `round` to the requested decimal places, which lies within half a unit of that place |
| WaveForecastRepository.IsoSuffixed | includes/Repositories/WaveForecastRepository.php:200-201 | the normalised time ends in `Z`: the right-trimmed text, with `Z` appended when it was missing |
| WaveForecastRepository.IsoSuffixedIdempotent | includes/Repositories/WaveForecastRepository.php:200-201 | normalising twice is normalising once, and text already ending in `Z` is only trimmed |
| WaveForecastRepository.ParseUtcIso | includes/Repositories/WaveForecastRepository.php:197-212 | the instant is what the DateTime parser makes of the right-trimmed, `Z`-suffixed text |
| WaveForecastRepository.ParseUtcIsoNormalises | includes/Repositories/WaveForecastRepository.php:200-201 | trailing whitespace and re-normalising an already normalised time do not change the parsed instant |
| WaveForecastRepository.CompassIndexAsWritten | includes/Repositories/WaveForecastRepository.php:220-221 | the index read for the compass name lies strictly between -16 and 16, negative ones included |
| WaveForecastRepository.DegToCompassAsWritten | includes/Repositories/WaveForecastRepository.php:216-222 | when the code as written yields a name, it is one of the sixteen points |
| WaveForecastRepository.DegToCompassAsWrittenFailsBelowNorth | includes/Repositories/WaveForecastRepository.php:216-222 | at -20 degrees the index is -1 and the code as written finds no name |
| WaveForecastRepository.DegToCompassAsWrittenDefined | includes/Repositories/WaveForecastRepository.php:220-221 | from -11.25 degrees up the index is in range and a name is found |
| WaveForecastRepository.DegToCompass | includes/Repositories/WaveForecastRepository.php:216-222 | the corrected compass (the importer keeps the code as written): with the bearing normalised first, every direction has a name among the sixteen points |
| WaveForecastRepository.DegToCompassAgrees | includes/Repositories/WaveForecastRepository.php:216-222 | on [0, 360) the corrected compass is the code as written |
| WaveForecastRepository.DegToCompassPeriodic | includes/Repositories/WaveForecastRepository.php:216-222 | bearings a whole number of turns apart get the same name |
| WaveForecastRepository.CompassSector | includes/Repositories/WaveForecastRepository.php:216-222 | point k names the bearings within 11.25 degrees of 22.5·k, the lower edge included and north wrapping through 360 |
| WaveForecastRepository.FloorInSector | includes/Repositories/WaveForecastRepository.php:220 | a value in the k-th stretch of 22.5 degrees has floor quotient k |
| WaveForecastRepository.NorthBothSides | includes/Repositories/WaveForecastRepository.php:216-222 | both [348.75, 360) and [0, 11.25) are north |
| WaveForecastRepository.ModelName | includes/Repositories/WaveForecastRepository.php:68 | the model recorded on the rows is `meta.model` cast to a string, and `gfswave` when `meta` or its `model` is missing or null |
| WaveForecastRepository.EntryRow | includes/Repositories/WaveForecastRepository.php:70-97 | an entry fails exactly when its `time` is an array (the `parseUtcIso` type error) or its time parses and its bearing gets no compass name (the `degToCompass` return-type error); a kept row has the parsed time, feet and compass name null exactly when metres and degrees are, each value set exactly when its field is numeric and then stored as `round(hs, 3)`, `round(hs·3.28084, 2)`, `round(dir, 2)` and `round(per, 2)`, the compass name of the code as written, and the file's model |
| WaveForecastRepository.CompassFailsOnlyBelowNorth | includes/Repositories/WaveForecastRepository.php:216-222 | an entry whose bearing is missing or at least -11.25 degrees never raises the compass type error |
| WaveForecastRepository.EntryRows | includes/Repositories/WaveForecastRepository.php:70-98 | one outcome per entry, in entry order |
| WaveForecastRepository.ImportJson | includes/Repositories/WaveForecastRepository.php:16-101 | the import gives what the reference import does: the missing-file and bad-structure errors, the table used, and the rows of the usable entries in order, or the first entry's type error (an array time or an unnamed bearing) |
| WaveForecastRepository.ImportNullPropagation | includes/Repositories/WaveForecastRepository.php:80-95 | in every row of an import that succeeds, feet are null exactly when metres are, the compass name exactly when the degrees are, and any name is a compass point |
| WaveForecastRepository.ImportNeedsDataArray | includes/Repositories/WaveForecastRepository.php:27-29 | a file without a `data` array gives the invalid-structure error, whatever the table |
| WaveForecastRepository.ImportAbortsOnBearingBelowNorth | includes/Repositories/WaveForecastRepository.php:73-97 | one entry with a parsable time and a bearing of -20 degrees makes the whole import fail with the `degToCompass` type error |
| WaveForecastRepository.FalsyTableNameIsDerived | includes/Repositories/WaveForecastRepository.php:32 | an empty or `"0"` table name is ignored and the table is derived from the file name |
| WavePreference.Setting | includes/Utilities/WavePreference.php:66-69 | a spot setting is present exactly when it is set on the spot |
| WavePreference.FirstFailingSpec | includes/Utilities/WavePreference.php:26-81 | the first failing check is absent exactly when every check passes, and otherwise it is the earliest failing one |
| WavePreference.RealtimeForSpot | includes/Utilities/WavePreference.php:18-96 | a passing realtime gate reports the dominant period of the midpoint row, within each set period bound, the mean direction within the window when both bounds are set, and the midpoint height |
| WavePreference.RealtimeGateOrder | includes/Utilities/WavePreference.php:26-81 | the realtime gate fails exactly when one of its five checks fails, and reports the first in the order coordinates, MWD, period, period range, direction |
| WavePreference.ForecastForSpot | includes/Utilities/WavePreference.php:102-141 | a passing forecast gate reports the forecast's own period, direction and height and the target time, the period inside a window with both bounds and the direction inside its window |
| WavePreference.ForecastGateOrder | includes/Utilities/WavePreference.php:111-130 | the forecast gate fails exactly when one of its four checks fails, and reports the first in order |
| WavePreference.LoneMinimumOnlyGatesRealtime | includes/Utilities/WavePreference.php:75-78 | a lone minimum period rejects a shorter period in the realtime gate but not in the forecast gate |
| WavePreference.PeriodTestsAgreeOnClosedWindow | includes/Utilities/WavePreference.php:75-78 | with both period bounds set the two gates' period tests agree |

## Left out

- Network I/O: the HTTP requests of `nomads.py` and `main.py` and the PHP fetches. They are the oracles `fetch`, `attemptOk` and `cached`; the NWS payload arrives already decoded.
- The `time.sleep` back-off in `download` (main.py:44-59): only the attempt count and the outcome are modelled, plus a record of the requested pauses.
- GRIB and xarray decoding, pandas datetime handling, JSON writing and logging in `main.py`. A file arrives as its least longitude, its time coordinates and the variables at the nearest grid point.
- pandas' default sort is not stable. The de-duplication of `process_point_series` is modelled under a stable sort, so "the latest row wins" holds only under that assumption.
- All SQL and PDO work: table creation, upserts and queries. The rows an importer would upsert are its result, and query results are parameters or functions over a table sequence.
- TidePhase.php and TideRepo.php are not part of this model. TidePreference.php's calls into them are the parameters `phase` and `nextHL` of `TidePreference.TidePreferenceMatcher.TidePrefMatch`.
- TideCell.php:44 and ForecastPreference.php:72 call `TideRepo::getNextHL`. The model uses `NoaaTideRepository.GetNextHL` over the station's table in time order, assumed to be the same query.
- StationRepo.php is not part of this model; the coordinates its SQL returns are parameters.
- TidePreference.TidePreferenceMatcher.constructor, TidePreferenceEvaluator.Evaluator.constructor: the memo is a method-level `static $cache` in the source (TidePreference.php:31, TidePreferenceEvaluator.php:19), shared by every instance during a request and keyed by station and hour only. The model gives each object its own memo, starting empty, so windows fetched by another instance (possibly with another `windowMin`) are not reused.
- Pipeline.HourFields: each field is read by `Common.ParseInt`, an optional `-` and decimal digits. Python's `int()` at main.py:41 also accepts surrounding whitespace, a leading `+` and underscores between digits (`" 72"`, `"+3"`, `"1_0"`); the model rejects those hour specifications as malformed.
- NwsGridpointWindRequest.HourBuckets: hours are bucketed in UTC, while the PHP formats each hour in the `validTime`'s own offset. The two agree for the `+00:00` offsets the NWS API returns.
- DateTime parsing and time zones: parsing is an oracle returning an instant, and local-time strings (`toLocalStr`, `localHm`, `toLocalTime`, `UTC_time`, the `t_local` columns) are either oracles or left out. The evaluator reports each time as the instant it shows.
- `TidePreferenceEvaluator.Evaluator.TidePrefMatch`: the test of `$nextPrefTime` (TidePreferenceEvaluator.php:268) is read as "a time is known", because the model's times are instants, not strings.
- The "no tide station" branches (TidePreference.php:90-110, TidePreferenceEvaluator.php:74-90) are reached only when no station's distance compares below the initial bound `PHP_FLOAT_MAX`. That happens only for a non-finite coordinate: for example, `region_lat` "1e999" casts to INF, and the haversine distance (Maths.php:12-21) is then NaN for every station. The model's coordinates are exact reals, so every distance is finite and one of the three fixed stations is always found; the branch is not modelled.
- Trigonometry: `Maths::haversine` and `circularAverage` (Maths.php:12-34), Geo.php and both Interpolator.php files. Distances, the weighted circular mean and the interpolated rows are parameters.
- Float rendering: `number_format` and `round` to text in WaveCell.php:91-94 and Format.php, and how PHP prints a float (the oracle `floatText`). IEEE rounding, NaN and infinities are not modelled: reals are exact.
- `WaveData::dominate_period` (WaveData.php:8-20) reads an undefined `$closest` and returns nothing, so it is not modelled.
- Format.php's other helpers (`localLabel`, `localClock`, `localHm`, `toLocalTime`, `UTC_time`, the wave-cell placeholders) are time-zone formatting outside this model.
- The `usort` of the selectors is modelled as insertion in name order into an already sorted list. The order is the same for distinct names; among equal names only one spot survives the best-per-name reduction.
- UI assembly (templates, `Report`), configuration, cron glue and one-off scripts.

## Findings

| source | as written | input that shows it | evidently intended | confidence | as-written member | corrected member |
|---|---|---|---|---|---|---|
| includes/Helpers/Maths.php:84-89 | the centre of a wrapped direction window is `normAngle(dmin + angSpan(dmin, dmax) / 2)`. `angSpan` is the short arc, but adding half of it from `dmin` goes clockwise even when the short arc runs anticlockwise from `dmin` | dmin 100, dmax 40: the centre is 130, which is 30 degrees from one edge and 90 from the other | the midpoint of the short arc between the bounds (70 for this input), equidistant from both | not executed | Maths.MidDirAsWrittenOffCentre | Maths.MidDir |
| includes/Repositories/WaveForecastRepository.php:216-222 | `degToCompass` reads index `(int)floor(fmod(deg + 11.25, 360) / 22.5) % 16`. `fmod` keeps the sign of a negative bearing, so below -11.25 degrees the floored index is negative; PHP's `% 16` keeps the sign of the dividend, so unless the index is exactly -16 (which becomes 0, "N") it stays negative and no name is found | deg -20: the index is -1 | normalise the bearing to [0, 360) first, so every direction gets one of the sixteen names (-20 gives NNW) | not executed | WaveForecastRepository.DegToCompassAsWrittenFailsBelowNorth | WaveForecastRepository.DegToCompass |
