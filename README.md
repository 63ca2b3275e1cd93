# River-ice breakup forecasting: a Dafny model

This project models the data-processing core of `riverice`. `riverice` is a set of Python scripts that forecast when the ice on Alaskan rivers breaks up in spring. The forecast is driven by degree days: the daily amount by which the mean air temperature exceeds a base temperature (25 °F for "DD25"). These are accumulated from March 1.

The model covers, module by module:

- **Calendar** (`riverice_util.py`): the date helpers.
  - days since a reference day (`datestr2dayssince`);
  - the date a number of days past March 1 (`dayssince2date`);
  - Julian days (`julianday2date`, `datestr2julianday`, `julian_day`);
  - `days_past_march1`.
  - Python's `date`, `timedelta`, `strptime` and `strftime` are modelled on proleptic-Gregorian ordinals.
- **DegreeDays** (`riverice_util.py`): from a station's daily temperatures to the table of daily and cumulative degree days.
  - `station2df` is a small class whose rows `get_MAMJ_dd` changes in place;
  - `get_dddf`, `get_pivotdf` and `station2pivot`;
  - the lookups `retrieve_dd`, `retrieve_dd_anomaly` and `retrieve_dd_anomaly_fixed`.
- **GapFill** (`acis2combinedDD.py`): per selected station, in order:
  - exclude the seasons with more than ten missing days, except 2024;
  - fill the remaining gaps from the climatology;
  - write the two degree-day tables with their four comment lines.
- **Correlation** (`riverice_util.py` `calculate_corr`, `generate_TDDcorr.py`): the correlation records per (location, station) pair and their flattening into a frame. Also the driver loop over the 65 candidate dates, which never fills its records.
- **StationMeta** (`get_acisids.py`):
  - `safelyget`;
  - the station-code and RFC-station tables read from CSV rows;
  - the ACIS identifier dictionary and the per-station metadata record.
- **Forecast**, **Forecast2025**, **Forecast2024** (`make_forecast_2025.py`, `make_forecast_2024.py`):
  - the training table `make_likelihood_DF`;
  - the day loop, with its `break`, that turns a regression and a normal density into a result record;
  - the record's probability bands (**Bands**);
  - the grouping of the records by forecast date in an insertion-ordered dict (**Groups**, a class);
  - the daily reports, each sorted by river and average breakup date (**Report**).

Shared modules:

- **Common** holds Python/pandas semantics: list slicing, `iloc` positions, NaN-able cells and frames.
- **Text** holds string conversion, splitting, replacement and `sorted(set(...))` on strings.

Exceptions are values: each fallible operation returns a `Result`, and the error names the Python exception raised. File contents, the regression statistics, today's date and the `DAILY` switch are parameters.

## Model

| member | source | states |
|---|---|---|
| Calendar.DaysSinceReference | scripts/riverice_util.py:36-42 | Every error is a ValueError. An unparsable date string or reference is one; when both parse and the reference names a valid day of the date's year the call succeeds. The result is then the signed number of days from that reference day to the date. |
| Calendar.SinceParts | scripts/riverice_util.py:39-40 | The reference parses exactly when both the month field and the day field are digit runs, and then yields those two numbers. |
| Calendar.SinceMarch1 | scripts/riverice_util.py:36 | The default reference '0301' reads as March 1. |
| Calendar.AsWrittenAgreesOnMarch1 | scripts/riverice_util.py:40 | With the default reference, reading the day from `since[3:]` gives the same result as the intended `since[2:]`, for every date string. |
| Calendar.AsWrittenMisreadsMarch15 | scripts/riverice_util.py:40 | With reference '0315', the code as written counts 15 days, not 5, from March 15 to 2000-03-20. |
| Calendar.DaysSinceToDateMarch1 | scripts/riverice_util.py:44-47 | With the default reference it is March 1 of the year plus `k` days. |
| Calendar.JulianDayToDateJan1 | scripts/riverice_util.py:49-51 | The same in terms of January 1 of the year. |
| Calendar.DatestrToJulianDay | scripts/riverice_util.py:53-55 | The result exists exactly when the string parses (else ValueError), and then lies in 1..366. |
| Calendar.DaysPastMarch1 | scripts/riverice_util.py:71-74 | The result is negative exactly in January and February. It equals the day of the year minus 60, or 61 in a leap year. For March to June it lies in 0..121. |
| Calendar.JulianDay | scripts/riverice_util.py:76-78 | The result lies between 1 and the length of the date's year. |
| Calendar.DayOfYearMonotone | scripts/riverice_util.py:76-78 | Within a year, a later date has a larger day number. |
| Calendar.DaysSinceMarch1OfString | scripts/riverice_util.py:36-42 | `datestr2dayssince` on the ISO string of a date equals `days_past_march1` of that date. |
| Calendar.DaysSinceRoundTrip | scripts/riverice_util.py:36-47 | The days since March 1 of a date, added back to March 1 of its year, give the date again. |
| Calendar.DaysSinceInverse | scripts/riverice_util.py:36-47 | An offset that stays inside the year survives `dayssince2date` followed by `datestr2dayssince`. |
| Calendar.DaysSinceOf | scripts/riverice_util.py:44-47 | A date produced by `dayssince2date(k, y)` is `k` days past March 1 of `y`, and its string reads back as `k`. |
| Calendar.JulianDayRoundTrip | scripts/riverice_util.py:49-55 | The Julian day of a date string lies in 1..366, and `julianday2date` of it gives the date back. |
| Calendar.JulianDayInverse | scripts/riverice_util.py:49-55 | Every day number of a year names a date of that year that has that number. |
| Calendar.JulianDayOf | scripts/riverice_util.py:49-55 | A date produced by `julianday2date(jd, y)` has Julian day `jd`. |
| Calendar.AddDays | scripts/riverice_util.py:47 | Adding a timedelta is an OverflowError outside years 1..9999; otherwise the result's ordinal is the sum. |
| Calendar.AddDaysBetween | scripts/riverice_util.py:42-47 | `b + timedelta((a - b).days) == a`. |
| Calendar.AddOneDay | scripts/riverice_util.py:47 | Adding one day gives the next calendar day. |
| Calendar.AddDaysWithinYear | scripts/riverice_util.py:51 | Adding days without leaving the year lands on the date whose day number is the sum. |
| Calendar.FromOrdinalOrdinal | scripts/riverice_util.py:47 | `fromordinal(toordinal(d)) == d`. |
| Calendar.OrdinalInjective | scripts/riverice_util.py:42 | Two valid dates with the same ordinal are the same date. |
| Calendar.ParseFormatIso | scripts/riverice_util.py:38 | Formatting a date as ISO and parsing it back gives the date. |
| Calendar.ParseCompactYear | scripts/riverice_util.py:46 | For a four-digit year, the compact string of year and `MMDD` parses to that date of that year. |
| Calendar.FormatMonthDay | scripts/generate_TDDcorr.py:53 | `strftime('%m-%d')` is five characters: two-digit month, '-', two-digit day. |
| DegreeDays.DeltaT | scripts/riverice_util.py:11-21 | TDD has base 32 °F, DD20 base 20 and DD25 base 25. Any other prefix is `KeyError(prefix)`. |
| DegreeDays.TavgCell | scripts/riverice_util.py:60-61 | An empty entry is NaN. An "M" entry becomes the sentinel -9999; a number stays that number. |
| DegreeDays.StationFrame.FromRaw | scripts/riverice_util.py:57-63 | The frame holds one day per raw row, in file order, with the converted temperature and the year of its date. |
| DegreeDays.SeasonDays | scripts/riverice_util.py:67-68 | A day is kept exactly when it is one of the series' days and falls in March to June of a year up to 2025. |
| DegreeDays.GetMAMJ | scripts/riverice_util.py:65-69 | The drop of the four columns happens in place, or is a KeyError that changes nothing; the result is the March-June season of years up to 2025. |
| DegreeDays.Clamp | scripts/riverice_util.py:83 | A negative degree-day entry becomes 0; others, and NaN, are kept. |
| DegreeDays.DailyDd | scripts/riverice_util.py:82-83 | A day's `dd` is `max(0, Tavg_F - deltaT)`, and NaN where the temperature is NaN. |
| DegreeDays.ClampNegatives | scripts/riverice_util.py:83 | In place, every entry of the `dd` column is replaced by its clamped value and nothing else changes. |
| DegreeDays.DdColumn | scripts/riverice_util.py:82-83 | The column has one clamped `dd` per day, in the days' order. |
| DegreeDays.KeptMembers | scripts/riverice_util.py:84 | The grouped table keeps exactly the days whose temperature is a number: pandas drops NaN group keys. |
| DegreeDays.YearTotalAbsent | scripts/riverice_util.py:85 | A year with no observation totals zero. |
| DegreeDays.TableStep | scripts/riverice_util.py:84-86 | One observation more adds one row, whose `dd_cumul` is the previous total of its year plus its own `dd`. |
| DegreeDays.Accumulate | scripts/riverice_util.py:84-86 | The loops compute the reference `GroupedTable` of the kept days: the groups of `groupby([year, julian_day, Tavg_F]).sum()`, then the per-year cumulative sum in group order. |
| DegreeDays.GetDdDf | scripts/riverice_util.py:80-87 | An unknown prefix is a KeyError; otherwise the result is the grouped, cumulative table `GroupedTable` of the clamped degree days of the days with a temperature, for rows in any order. |
| DegreeDays.GroupInsertSorted | scripts/riverice_util.py:84 | Adding one row to sorted groups keeps them sorted by (year, Julian day, Tavg_F) and adds exactly that row's key. |
| DegreeDays.GroupInsertTotal | scripts/riverice_util.py:84 | Adding one row to the groups adds its `dd` to its year's total and leaves every other year's total unchanged; equal keys are merged, not lost. |
| DegreeDays.GroupedMeaning | scripts/riverice_util.py:84-85 | The groups are strictly sorted by key, there is one group per distinct key of the rows, and each year's `dd` total equals the total of the rows of that year. |
| DegreeDays.GroupedCumul | scripts/riverice_util.py:85 | Whatever the row order, the next group of the same year adds its own `dd` to the running total, and the first group of a year starts at its own `dd`. |
| DegreeDays.GroupedInDateOrder | scripts/riverice_util.py:84-86 | For date-ordered rows, each row is its own group, in the rows' order, and the grouped table equals the one-pass reference `DdTable`. |
| DegreeDays.CumulativeSums | scripts/riverice_util.py:85 | The loop with a per-year total computes the reference cumulative sum `CumSum` of the groups. |
| DegreeDays.DdIsClamped | scripts/riverice_util.py:82-86 | Every row's `dd` is the clamped difference, and its `dd_cumul` is at least its `dd`. |
| DegreeDays.CumulNonDecreasing | scripts/riverice_util.py:85 | Within a year, a later `dd_cumul` is the earlier one plus the degree days in between, so it never decreases. |
| DegreeDays.CumulStep | scripts/riverice_util.py:85 | The next row of the same year adds exactly its own degree days. |
| DegreeDays.CumulFirstOfYear | scripts/riverice_util.py:85 | The first row of a year has `dd_cumul == dd`. |
| DegreeDays.CumulRestartsEachYear | scripts/riverice_util.py:84-86 | In a date-ordered series, the row after a year's last row holds only its own `dd`. |
| DegreeDays.GroupKeysIncreasing | scripts/riverice_util.py:84 | In a date-ordered series, the grouping keys (year, Julian day) strictly increase, so each group is one day and the group sort keeps the series' order. |
| DegreeDays.Pivot | scripts/riverice_util.py:89-92 | Rows are the Julian days present, ascending; columns are the years; a cell holds the value of its (day, year) row, or NaN. A duplicate (day, year) pair is pandas' ValueError. |
| DegreeDays.Station2Pivot | scripts/riverice_util.py:94-95 | The result is the pivot of `dd_cumul` of the DD25 table of the season, and the column drop happens in the caller's frame. |
| DegreeDays.DdAt | scripts/riverice_util.py:97-101 | Reading position p and year column y: a missing column becomes NaN; a bad position is an IndexError, which is not caught. |
| DegreeDays.RetrieveDdByLabel | scripts/riverice_util.py:97-101 | On a pivot whose rows are consecutive Julian days from 60, the positional lookup reads the row labelled `JulianDay - offset`. |
| DegreeDays.AnomalyAt | scripts/riverice_util.py:103-108 | The station value minus the climatology at the same position. Any KeyError becomes NaN; an IndexError on either side propagates. |
| DegreeDays.RetrieveDdAnomalyFixed | scripts/riverice_util.py:110-117 | An unparsable `MM-DD` is a ValueError; otherwise the result is the anomaly at that date's Julian day in the row's year. |
| DegreeDays.AnomalyFixedAtDayOfYear | scripts/riverice_util.py:113-115 | The fixed-date anomaly of a valid `MM-DD` is read at position `DayOfYear - 60`. |
| GapFill.FinalSet | scripts/acis2combinedDD.py:34 | The selected stations are strictly sorted, and a name is among them iff some list of the JSON holds it. |
| GapFill.SelectedMeans | scripts/acis2combinedDD.py:39-40 | A climatology file is processed iff its name, with AIRPORT shortened to AP, is in some list of the JSON. |
| GapFill.MissingDayYearsCount | scripts/acis2combinedDD.py:48 | A year appears among the groups of missing days iff it has at least one missing day. |
| GapFill.SignificantMembers | scripts/acis2combinedDD.py:49 | A group key is kept iff its year has more than ten missing days. |
| GapFill.ExcludedYearsMeaning | scripts/acis2combinedDD.py:48-51 | The excluded years are distinct and ascending. They are exactly the years other than 2024 with more than ten missing days. |
| GapFill.MissingYears | scripts/acis2combinedDD.py:48-51 | The loop over the grouped counts computes the excluded years. |
| GapFill.KeepYearsMembers | scripts/acis2combinedDD.py:54 | Every row of an excluded year is removed and every other row is kept. |
| GapFill.KeepYearsOrder | scripts/acis2combinedDD.py:54 | The filter works row by row: on a concatenation it is the concatenation of the filtered parts, and a single row is kept iff its year is not excluded; so the kept rows stay in order. |
| GapFill.KeepYearsAppend | scripts/acis2combinedDD.py:54 | Filtering a concatenation is concatenating the filtered parts. |
| GapFill.SentinelToNaN | scripts/acis2combinedDD.py:57 | -9999 becomes NaN; every other cell is unchanged. |
| GapFill.FilledTavg | scripts/acis2combinedDD.py:57-59 | An observed temperature stays; a missing or empty one takes the climatology value of its day since March 1. |
| GapFill.FillGapsMeaning | scripts/acis2combinedDD.py:55-59 | The fill succeeds iff every row's climatology lookup succeeds. It then keeps the dates and the observed temperatures and replaces each missing one by the climatology. |
| GapFill.FillGapsSucceeds | scripts/acis2combinedDD.py:55-56 | For season rows, a climatology of at least 122 rows with a `Tavg_F` column always fills. |
| GapFill.ProvenanceComment | scripts/acis2combinedDD.py:62-65 | The provenance line is one comment line. It is the "No years excluded" line exactly when no year is excluded. |
| GapFill.DescriptionComment | scripts/acis2combinedDD.py:70 | The description line is one comment line, the same for every station name and exclusion list. |
| GapFill.HeaderShape | scripts/acis2combinedDD.py:69-72 | Each header is four comment lines: the name, the description, the provenance line and a bare '#'. |
| GapFill.ProcessStation | scripts/acis2combinedDD.py:45-81 | One station's processing yields the two tables the reference `StationOutputs` describes, or its first error. |
| GapFill.RunOne | scripts/acis2combinedDD.py:38-47 | An unselected climatology file writes nothing; a missing station file is FileNotFound; otherwise the station is processed. |
| GapFill.Run | scripts/acis2combinedDD.py:38-81 | The main loop equals the reference `RunOutputs` over the climatology files in listing order: the files written so far and, after an exception, that exception with the earlier stations' files kept. |
| GapFill.RunFailureSticks | scripts/acis2combinedDD.py:38-81 | Once a prefix of the files raises, the whole run ends with that exception and the files written before it. |
| GapFill.RunWrittenGrows | scripts/acis2combinedDD.py:38-81 | The files a prefix of the listing writes are a prefix of what the whole run writes: nothing written is taken back. |
| GapFill.StationOutputsPair | scripts/acis2combinedDD.py:67-81 | A processed station writes two files, daily then cumulative. They share the provenance line of its excluded years and each starts with four comment lines. |
| Correlation.SiteRows | scripts/riverice_util.py:130 | A row is kept exactly when it is a row of the frame with that site. |
| Correlation.SortByYearPermutes | scripts/riverice_util.py:130-131 | Sorting by year only reorders the rows. |
| Correlation.LocationRowsMeaning | scripts/riverice_util.py:130-131 | `testDF` is sorted by year and holds each row of the location as often as the frame does. |
| Correlation.PairedComplete | scripts/riverice_util.py:137-138 | With no NaN on either side, every row is paired, in order. |
| Correlation.CorrOf | scripts/riverice_util.py:136-147 | A missing `JulianDay` column is a KeyError. The record exists exactly when the column exists and there are at least two complete pairs. It then carries the station, the location, pearsonr's statistic and p-value on the pairs, and `r2value == rvalue²`. |
| Correlation.LocationRecordsMeaning | scripts/riverice_util.py:129-147 | The location loop yields one record per (location, station) pair, or its first failure. |
| Correlation.LocationRecordAt | scripts/riverice_util.py:129-147 | The record of location i and station j is record `i * |stations| + j`. |
| Correlation.LocationRecordsWellFormed | scripts/riverice_util.py:139-147 | Every record keeps `r2value == rvalue²` and names one of the locations. |
| Correlation.CorrRecordsMeaning | scripts/riverice_util.py:119-147 | A location missing from the frame is an error. So is a station that is not a column (default stations `columns[5:]`). Otherwise one record per pair, placed as `LocationRecordAt` says. |
| Correlation.StationRecordsSticky | scripts/riverice_util.py:136-147 | Once the station loop fails, every longer loop fails the same way. |
| Correlation.StationLoop | scripts/riverice_util.py:136-147 | The station loop equals the reference `StationRecords`. |
| Correlation.CalculateCorr | scripts/riverice_util.py:119-147 | `calculate_corr` as written equals the reference `CorrRecords`. |
| Correlation.FlatRowsEmpty | scripts/generate_TDDcorr.py:17-21 | The comprehension yields no row iff every list is empty. |
| Correlation.FlatRowsOrder | scripts/generate_TDDcorr.py:17-21 | Sub-record j of key i is row `Offset(records, i) + j`, keys in dict order. |
| Correlation.FilledSquares | scripts/generate_TDDcorr.py:17-22 | After `fillna(0)`, each row carries the record's r² as r·r, with 0 for a missing r. |
| Correlation.MakeDFFromRecords | scripts/generate_TDDcorr.py:15-28 | With no rows the `date` column is missing (KeyError at line 23). Otherwise line 25 reads the column that line 24 dropped. Either way the call raises. |
| Correlation.NormalizeAbsent | scripts/generate_TDDcorr.py:26-27 | A name without AIRPORT or INTERNATIONAL is unchanged. |
| Correlation.NormalizeShorter | scripts/generate_TDDcorr.py:26-27 | The rewrite never lengthens a name. |
| Correlation.NormalizeExample | scripts/generate_TDDcorr.py:26 | AIRPORT becomes AP. |
| Correlation.GetCorrelationRecords | scripts/generate_TDDcorr.py:30-40 | On a frame with rows, any station file makes the call raise an AttributeError. On a frame without rows, a ValueError is raised when the frame does not have exactly one column, or when a station other than the last is not already that column. With no station, `records[datestr]` is set to what `calculate_corr` returns. |
| Correlation.EmptyFrameColumns | scripts/generate_TDDcorr.py:36-37 | On a frame without rows, the column assignments succeed iff there is no station, or the frame has exactly one column and every station but the last is that column. The last station then adds its column if it is new, and every failure is a ValueError. |
| Correlation.GetCorrelationRecordsStores | scripts/generate_TDDcorr.py:38-40 | On success `records[datestr]` holds the new records and every other date keeps its own. |
| Correlation.CandidateDayIs | scripts/generate_TDDcorr.py:52-53 | Candidate i is the date with day number 92 + i of 2000, and its string is that date's `MM-DD`. |
| Correlation.CandidateEnds | scripts/generate_TDDcorr.py:12-13 | The first candidate date is 04-01 and the last is 06-04. |
| Correlation.CandidateDatesMeaning | scripts/generate_TDDcorr.py:51-53 | There are 65 consecutive candidate days, each the day after the one before, and no two share their `MM-DD`. |
| Correlation.CandidateLoop | scripts/generate_TDDcorr.py:50-54 | The main loop visits exactly the candidate date strings and leaves `records` empty. |
| StationMeta.SafeIndex | scripts/get_acisids.py:22-27 | `alist[idx]` with Python indexing (negative from the end), and the default exactly when that raises IndexError. |
| StationMeta.SafeKey | scripts/get_acisids.py:22-27 | The value under the key, or the default exactly when the key is absent. |
| StationMeta.SidType | scripts/get_acisids.py:69 | A type exists iff the sid holds a space, and then the sid starts with the identifier, a space and the type. |
| StationMeta.LastIdOfType | scripts/get_acisids.py:67-71 | There is an identifier iff some sid has type t. |
| StationMeta.LastIdOfTypeAt | scripts/get_acisids.py:67-71 | The last sid of a type wins. |
| StationMeta.SidsToDictMeaning | scripts/get_acisids.py:67-71 | The dict exists iff every sid holds a space (else IndexError). A type is a key iff some sid has it, and then maps to the last such identifier. |
| StationMeta.SidLookup | scripts/get_acisids.py:79-80 | `safelyget(dict, t, '')` is the last identifier of type t, or "". |
| StationMeta.Coordinate | scripts/get_acisids.py:81-82 | A missing `ll` or a short list gives NaN; otherwise the coordinate at that index. |
| StationMeta.StationRecord | scripts/get_acisids.py:75-88 | A missing `name`, `uid` or `sids` is a KeyError, in that order. Bad sids and a short `valid_daterange` are errors. Otherwise every field holds its value or default. |
| StationMeta.StationRecordIds | scripts/get_acisids.py:79-80 | ICAO and NWSID are the identifiers of the last sids of types 5 and 7, empty when there are none. |
| StationMeta.PostprocessAcisMeaning | scripts/get_acisids.py:73-92 | One record per station in input order, or the error of the first station whose record fails. |
| StationMeta.StationCodesOk | scripts/get_acisids.py:46-53 | The codes exist iff no row of any file is empty; an empty row is an IndexError. |
| StationMeta.StationCodesMeaning | scripts/get_acisids.py:46-53 | The codes are strictly ascending. They are exactly the first fields of the rows of all files. |
| StationMeta.StationCodesOrderFree | scripts/get_acisids.py:53 | Any two listings with the same rows give the same codes. |
| StationMeta.GetStationCodes | scripts/get_acisids.py:46-53 | The nested loops compute the reference `StationCodes`. |
| StationMeta.FirstFieldsAppend | scripts/get_acisids.py:51-52 | The walk over two row lists is the first failure or the concatenation of the fields: an empty row anywhere makes the whole walk raise. |
| StationMeta.PrefixedOrder | scripts/get_acisids.py:31-36 | Row j of file i is entry `RowOffset(files, i) + j`: the file stem without its last four characters, then the row. |
| StationMeta.FrameOf | scripts/get_acisids.py:37-40 | Naming seven columns succeeds iff the widest row has seven cells, else a ValueError. Shorter rows are padded with missing cells. |
| StationMeta.RfcStationsMeaning | scripts/get_acisids.py:29-44 | On success, row j of file i is the file's location followed by the row, padded to seven cells, and no row has more than six fields. |
| StationMeta.RfcStationsNoRows | scripts/get_acisids.py:37-40 | With no rows there is no column to name, so the call raises. |
| StationMeta.WriteRfcStations | scripts/get_acisids.py:29-44 | The loops compute the reference `RfcStations`. |
| Forecast.SortByYearMeaning | scripts/make_forecast_2025.py:95 | A site's history is in year order and holds exactly the given entries. |
| Forecast.DayColumnMeaning | scripts/make_forecast_2025.py:76-77 | A breakup table with no rows is pandas' ValueError: the probed `apply` returns the whole frame, which cannot be assigned to one column. Otherwise the day column exists iff every breakup date converts, and then pairs each row with its day. |
| Forecast.ConvertedMeaning | scripts/make_forecast_2025.py:77 | The row-wise `apply` succeeds iff every breakup date converts, and then pairs each row with its day, in table order. |
| Forecast.CombinedNameMeaning | scripts/make_forecast_2025.py:91 | The file name is `DD25_combined_`, the location with each space turned into '_', then `.csv`. |
| Forecast.PossibleDaysMeaning | scripts/make_forecast_2025.py:41 | The possible days are strictly ascending, and they are exactly the breakup days of the history. |
| Forecast.YearsOnMeaning | scripts/make_forecast_2025.py:49 | A year label is listed for day d iff some year of the history broke up on d. |
| Forecast.ItemRowsMeaning | scripts/make_forecast_2025.py:53-59 | The inner loop succeeds iff every year's degree-day cell exists, and then makes one record per year with that cell. |
| Forecast.DayRowsSucceed | scripts/make_forecast_2025.py:47-59 | The middle loop succeeds iff every lookup for the possible days succeeds. |
| Forecast.DayRowsContents | scripts/make_forecast_2025.py:47-59 | Every record of the middle loop belongs to a year that broke up on one of the days, and every such year has its record. |
| Forecast.TableSucceeds | scripts/make_forecast_2025.py:43-59 | The three loops succeed iff every lookup for a forecast day in range and a year of the history succeeds. |
| Forecast.TableNonEmpty | scripts/make_forecast_2025.py:43-60 | The table is empty iff the history or the range is. |
| Forecast.TableSound | scripts/make_forecast_2025.py:43-59 | Every record is the record of a forecast day in range and a year of the history. |
| Forecast.TableComplete | scripts/make_forecast_2025.py:43-59 | Every (forecast day, year) pair has its record. |
| Forecast.LikelihoodSucceeds | scripts/make_forecast_2025.py:39-61 | The training table exists iff the history and range are non-empty (else KeyError on the absolute-day column) and every lookup succeeds. |
| Forecast.LikelihoodContents | scripts/make_forecast_2025.py:39-61 | Every record is for a forecast day in range and a year that broke up on its absolute day. Its lead time is the absolute day minus the forecast day, and its `mean_DD` is the station's cell. Every (forecast day, year) pair has its record. |
| Forecast.TrainingSetSize | scripts/make_forecast_2025.py:102 | The training set of a forecast day in range has one record per year of the history; other days have none. |
| Forecast.OnDayMembers | scripts/make_forecast_2025.py:102 | Selecting a forecast day keeps exactly the records of that day. |
| Forecast.MakeLikelihood | scripts/make_forecast_2025.py:39-61 | The three nested loops compute the reference `Likelihood`. |
| Forecast.DaysFromMeaning | scripts/make_forecast_2025.py:100-108 | A finished day loop has at most one record per day, record k made on day `lo + k`. If it stopped early, the next day's prediction raised. |
| Forecast.DaysFromFails | scripts/make_forecast_2025.py:100-108 | A failed day loop hit its exception on some day after a run of days that produced records. |
| Forecast.Filed | scripts/make_forecast_2025.py:184-187 | Each record is filed under its own forecast date, in order. |
| Forecast.RunDays | scripts/make_forecast_2025.py:100-187 | The day loop equals the reference `DaysFrom`, and on success `results` grows by exactly the filed records. |
| Bands.Xs | scripts/make_forecast_2025.py:15 | `xs` has 202 entries, entry k being k - 101. |
| Bands.BandDaysAre | scripts/make_forecast_2025.py:113-116 | The four bands cover lead times 0-1, 2-6, 7-13 and 14-20. |
| Bands.BandsPartition | scripts/make_forecast_2025.py:113-116 | Together the bands cover lead times 0 to 20, each once, in order. |
| Bands.BandProbsAdd | scripts/make_forecast_2025.py:113-116 | The four band probabilities add up to the mass on lead times 0 to 20. |
| Bands.WindowShape | scripts/make_forecast_2025.py:120-122 | The window never starts before lead time 0, and is shifted iff `mostlikely < 4`. Shifted, it covers 0 to 6; otherwise `mostlikely - 4` to `mostlikely + 2`. |
| Bands.WindowOffCentre | scripts/make_forecast_2025.py:120-135 | For `mostlikely = 10` the summed window is lead times 6-12, while the plot shades 7-13. |
| Bands.CentredWindowShape | scripts/make_forecast_2024.py:104-108 | The centred window covers `r - 3` to `r + 3`, or 0 to 6 when that reaches before 0. It equals the 2024 window for `mostlikely = r + 1` and the days the 2025 plot shades. |
| Bands.RoundHalfEven | scripts/make_forecast_2025.py:118 | The result is within 0.5 of x, and even on a tie. |
| Bands.RoundHalfEvenUnique | scripts/make_forecast_2025.py:118 | Those two properties determine the rounded value. |
| Groups.FirstKeysMeaning | scripts/make_forecast_2025.py:184-189 | The dict's keys are distinct, and they are exactly the keys of some filed pair. |
| Groups.MembersNonEmpty | scripts/make_forecast_2025.py:184-187 | A key has a non-empty list iff it is a key of the dict. |
| Groups.GroupsPermuteValues | scripts/make_forecast_2025.py:184-190 | Taken in key order, the groups hold exactly the filed values, none lost or duplicated. |
| Groups.GroupsOfMeaning | scripts/make_forecast_2025.py:184-187 | The dict built by filing the pairs one by one holds exactly the keys of its iteration order, and under each key exactly the values filed with it, in order. |
| Groups.MembersFiledUnder | scripts/make_forecast_2025.py:184-187 | Every value of a group was filed under that group's key. |
| Groups.OrderedGroups.constructor | scripts/make_forecast_2025.py:81 | `results = {}`: no keys and no groups. |
| Groups.OrderedGroups.Append | scripts/make_forecast_2025.py:184-187 | A new key goes last with list [v]; a present key keeps its place and its list gains v; nothing else changes. |
| Forecast2025.DayRange | scripts/make_forecast_2025.py:66-72 | Days 72 to 89, or with `DAILY` only the day before today's Julian day. |
| Forecast2025.TodayJulianDay | scripts/make_forecast_2025.py:69-72 | Today's ISO string reads back as today's Julian day. |
| Forecast2025.RecordDatesMeaning | scripts/make_forecast_2025.py:117-119 | Both dates exist iff neither leaves years 1..9999 (else OverflowError). |
| Forecast2025.RecordDatesOrdinals | scripts/make_forecast_2025.py:117-119 | The forecast date is `ii` days after January 1, the breakup `ii + mostlikely - 1`. |
| Forecast2025.RecordDatesWithinYear | scripts/make_forecast_2025.py:117-119 | Within the year both dates exist. |
| Forecast2025.ForecastDateIsJulianDay | scripts/make_forecast_2025.py:117 | Within the year the forecast is dated Julian day `ii + 1`, one day after its data. |
| Forecast2025.ForecastedIsJulianDay | scripts/make_forecast_2025.py:119 | Within the year the forecasted breakup is Julian day `ii + mostlikely`. |
| Forecast2025.MakeRecordDated | scripts/make_forecast_2025.py:117-119 | A record exists iff its dates do for `mostlikely = round(mu_0)`, and then it carries those dates. |
| Forecast2025.MakeRecordFields | scripts/make_forecast_2025.py:112-122 | The record carries the site's names and average date, the four band probabilities, and the mass of `pdf[max(101, 97 + mostlikely):…+7]` as written: lead times `mostlikely - 4` to `mostlikely + 2`, or 0 to 6 when shifted. |
| Forecast2025.MakeRecordCentredWindow | scripts/make_forecast_2025.py:120-135 | The corrected record exists iff the script's does and differs only in its window, which is the centred `mostlikely ± 3` sum (0 to 6 near the start) and equals the days the plot shades. |
| Forecast2025.PredictMeaning | scripts/make_forecast_2025.py:101-122 | A missing 2025 cell is a KeyError; a failing `fit` is a ValueError; a failing `predict` breaks the loop; a prediction gives its record. |
| Forecast2025.RecordOfDay | scripts/make_forecast_2025.py:117-183 | A record made on day ii carries the site's fields and is dated `ii` days after January 1. |
| Forecast2025.BrokenUpSkipped | scripts/make_forecast_2025.py:84-86 | A site that has broken up contributes nothing. |
| Forecast2025.SiteRecordsMeaning | scripts/make_forecast_2025.py:82-187 | A site's records are at most one per day of the range, carry its name, and are dated on consecutive days from the first day on. |
| Forecast2025.AllRecordsFromSites | scripts/make_forecast_2025.py:82-187 | Every record comes from a site of the table that has not broken up, and carries its names and average date. |
| Forecast2025.OutcomeReports | scripts/make_forecast_2025.py:189-194 | There is one report per forecast date, each sorted by (river, average date), holding the records of that date; together the reports hold every record once. |
| Forecast2025.AllRecordsSticky | scripts/make_forecast_2025.py:82-187 | An exception at one site ends the script. |
| Forecast2025.Run | scripts/make_forecast_2025.py:74-194 | The script as written equals the reference `Outcome`. That includes the ValueError on an empty breakup table, the off-centre window, and the filing into the dict. |
| Forecast2024.DaysEnd | scripts/make_forecast_2024.py:57-62 | The loop ends at 90, or with `DAILY` the day after today's days since March 1. |
| Forecast2024.TodayDaysSince | scripts/make_forecast_2024.py:60-62 | Today's ISO string reads back as its days since March 1. |
| Forecast2024.BreakupDay | scripts/make_forecast_2024.py:66-67 | The breakup day is the intended `datestr2dayssince`, and with the default reference equals the code as written. |
| Forecast2024.RecordDatesMeaning | scripts/make_forecast_2024.py:103-105 | Both dates exist iff neither leaves years 1..9999 (else OverflowError). |
| Forecast2024.RecordDatesOrdinals | scripts/make_forecast_2024.py:103-105 | The forecast is dated `ii` days after March 1, the breakup `ii + mostlikely - 1`. |
| Forecast2024.RecordDatesWithinYear | scripts/make_forecast_2024.py:103-105 | Within the year both dates exist. |
| Forecast2024.ForecastDateIsDaysSince | scripts/make_forecast_2024.py:103 | Within the year the forecast is dated on the day of its data. |
| Forecast2024.ForecastedIsDaysSince | scripts/make_forecast_2024.py:105 | The forecasted breakup is `ii + mostlikely - 1` days after March 1. |
| Forecast2024.MakeRecordDated | scripts/make_forecast_2024.py:103-105 | A record exists iff its dates do for `mostlikely = round(mu_0) + 1`. |
| Forecast2024.MakeRecordFields | scripts/make_forecast_2024.py:98-108 | The record carries the site's fields, the four bands and the window `xs[startidx:endidx + 1]`, which is `round(mu_0) ± 3`. |
| Forecast2024.PredictMeaning | scripts/make_forecast_2024.py:87-108 | A missing 2024 cell is a KeyError; a failing `fit` is a ValueError; a failing `predict` breaks the loop; a prediction gives its record. |
| Forecast2024.RecordOfDay | scripts/make_forecast_2024.py:103-168 | A record made on day ii carries the site's fields and is dated `ii` days after March 1. |
| Forecast2024.SiteRecordsMeaning | scripts/make_forecast_2024.py:70-172 | A site's records are at most one per day from day 31, carry its name, and are dated on consecutive days. |
| Forecast2024.AllRecordsFromSites | scripts/make_forecast_2024.py:70-172 | Every record comes from a site of the table and carries its names and average date. |
| Forecast2024.OutcomeReports | scripts/make_forecast_2024.py:156-179 | There is one report per forecast date, with distinct names. Its rows are the sorted records of that date turned into the ten-key dicts as written: the week-2 column holds `prob_wk3`, there is no week-3 column, and the river and average-date columns hold the record's. Together the reports hold every record once. |
| Forecast2024.AllRecordsSticky | scripts/make_forecast_2024.py:70-172 | An exception at one site ends the script. |
| Forecast2024.RunSite | scripts/make_forecast_2024.py:70-172 | One site of the loop returns exactly that site's records or its exception (a missing combined file, a failed likelihood table, a failed day), and files every record it returns in `results` after the ones already there. |
| Forecast2024.Run | scripts/make_forecast_2024.py:64-179 | The script as written equals the reference `Outcome`. That includes the ValueError on an empty breakup table and the ten-key dict rows. |
| Report.Lookup | scripts/make_forecast_2024.py:156-168 | `d.get(k)` finds a value iff k is a key of the dict. |
| Report.LookupAt | scripts/make_forecast_2025.py:171-183 | In a dict with distinct keys, each key finds its own value. |
| Report.PutFresh | scripts/make_forecast_2025.py:171-183 | Storing a new key appends it. |
| Report.PutReplaces | scripts/make_forecast_2024.py:166-167 | Storing a present key keeps its position and replaces its value. |
| Report.PutLookup | scripts/make_forecast_2024.py:166-167 | After `d[k] = v`, k finds v and every other key finds what it found before. |
| Report.DistinctLiteral | scripts/make_forecast_2025.py:171-183 | A display with distinct keys is the dict of its pairs. |
| Report.RepeatedLastKey | scripts/make_forecast_2024.py:166-167 | A display whose last key repeats an earlier one has one entry fewer, and that position holds the last value. |
| Report.WeekKeysDiffer | scripts/make_forecast_2025.py:181-182 | The week-2 and week-3 column names differ. |
| Report.RecordDictComplete | scripts/make_forecast_2025.py:171-183 | The record dict has eleven distinct columns, each holding its field; week 2 holds `prob_wk2` and week 3 holds `prob_wk3`. |
| Report.WeekThreeLost | scripts/make_forecast_2024.py:156-168 | The 2024 dict as written has ten columns: its week-2 column holds `prob_wk3`, and there is no week-3 column. |
| Report.AsWrittenPairs | scripts/make_forecast_2024.py:156-168 | The 2024 dict is the first ten pairs of the record with the tenth replaced by (week-2 key, `prob_wk3`); its keys are distinct and the week-3 key is absent. |
| Report.AsWrittenSortKeys | scripts/make_forecast_2024.py:156-176 | In the 2024 dict the river, average-date and forecast-date columns hold the record's own fields, so the sort is that of the records. |
| Report.AsWrittenReportsRows | scripts/make_forecast_2024.py:156-179 | Each written report keeps its name and row count, and each row is its record's ten-column dict: `prob_wk3` under the week-2 key, no week-3 key, river and average date intact. |
| Report.InsertRowSorted | scripts/make_forecast_2025.py:191 | Inserting a row into a sorted list keeps it sorted. |
| Report.SortRowsMeaning | scripts/make_forecast_2025.py:191 | The rows come out in (river, average breakup date) order and are a permutation of the filed rows. |
| Report.RowLessTransitive | scripts/make_forecast_2025.py:191 | The sort order is transitive. |
| Report.RowLessAsymmetric | scripts/make_forecast_2025.py:191 | The sort order is asymmetric. |
| Report.ReportNameInjective | scripts/make_forecast_2025.py:192 | Different forecast dates give different file names. |
| Report.ReportNamesDistinct | scripts/make_forecast_2025.py:189-194 | No two reports share a file name. |
| Report.ReportRows | scripts/make_forecast_2025.py:189-192 | The report of date i is named after it, sorted, and holds exactly the records filed under it. |
| Report.ReportRowsDated | scripts/make_forecast_2025.py:189-192 | When records are filed under their own date, every row of a report carries the date its file names. |
| Report.ReportsPermuteRecords | scripts/make_forecast_2025.py:184-194 | Taken together, the reports hold every filed record exactly once. |
| Report.WriteReports | scripts/make_forecast_2025.py:189-194 | The loop over the dict computes the reference `Reports` of the filed pairs. |
| Common.Slice | scripts/make_forecast_2025.py:113-116 | In Python slicing both bounds are clamped to the length; element k of the slice is element i + k. |
| Common.DropLast | scripts/acis2combinedDD.py:39 | `s[:-k]` is empty when s is not longer than k; otherwise it is s without its last k elements. |
| Common.ILocPosition | scripts/riverice_util.py:99 | A position is valid iff `-n <= p < n`, and negative positions count from the end. |
| Common.Frame.ILocCell | scripts/riverice_util.py:99 | `iloc[p][c]`: IndexError for a bad position, then KeyError for a missing column, otherwise the cell. |
| Common.Frame.LabelCell | scripts/make_forecast_2025.py:103 | `frame[c][label]` succeeds iff the column and the row label exist, and then reads a row with that label (the only one in the frames the model reads). |
| Common.ColumnILoc | scripts/riverice_util.py:106 | `frame[c].iloc[p]`: KeyError for a missing column, then IndexError for a bad position, otherwise the cell. |
| Common.MapAllMeaning | scripts/get_acisids.py:75-90 | A comprehension over a fallible expression succeeds iff every element does, and otherwise raises the first failure. |
| Text.SortedUnique | scripts/get_acisids.py:53 | `sorted(set(xs))` is strictly ascending and holds exactly the strings of xs. |
| Text.StrictlySortedUnique | scripts/get_acisids.py:53 | The strictly sorted list of a set is unique, so the result depends neither on order nor on repetition. |
| Text.Split | scripts/get_acisids.py:69 | `s.split(c)` yields at least one piece, and no piece holds the separator. |
| Text.JoinSplit | scripts/get_acisids.py:69 | Joining the pieces with the separator restores the string. |
| Text.ParseNatToString | scripts/riverice_util.py:99 | `int(str(n)) == n`. |
| Text.NatToStringInjective | scripts/make_forecast_2025.py:49 | `str` is injective on non-negative integers, so year labels identify years. |
| Text.ZeroPadValue | scripts/riverice_util.py:39-40 | Reading a zero-padded field back gives the number. |
| Text.ReplaceAllFirst | scripts/acis2combinedDD.py:40 | `str.replace` rewrites the first occurrence and resumes scanning after it. |
| Text.ReplaceChar | scripts/make_forecast_2025.py:91 | Replacing one character by another rewrites each occurrence in place. |

## Left out

- Reading and writing files, CSV parsing and `to_csv` float formatting are not modelled. Files are given as their rows, or as frames keyed by name; outputs are returned as values.
- Plotting, `print`, and the `for_ffmpeg` and `PLOTS` branches are left out (make_forecast_2025.py:125-170, make_forecast_2024.py:110-155, riverice_util.py:148-166). They compute no result, and the model assumes they do not raise; in make_forecast_2025.py `PLOTS` is on, so a failing `mkdir` (:162) or `savefig` (:170) would end that script, which is not modelled.
- `get_acis_stationmeta` (get_acisids.py:55-65) is an HTTP request and is not modelled. `postprocess_acis` takes its JSON as a value.
- The `__main__` block of get_acisids.py (96-118), including `icaocodes`, is not modelled because it only composes file I/O, the request and the modelled functions.
- `get_brokenup` (make_forecast_2025.py:32-36) reads a file and swallows every error. It becomes the `brokenUp` input set.
- `dt.datetime.now()` and the `DAILY` switch are parameters.
- `LinearRegression`, `predict`, `root_mean_squared_error`/`mean_squared_error` and `stats.norm.pdf` are one uninterpreted `Regression` parameter. A `fit` that raises (a ValueError) is modelled as an error; a `predict` that raises is modelled as the `break`.
- `pearsonr` is an uninterpreted parameter of the correlation.
- Floating point is modelled as exact reals, with NaN as a separate cell value. Rounding error and `%.2f` output are not modelled.
- Forecast.Fit: the density `pdf` is a sequence of reals. When `sigma_0 == 0` (a perfect fit, for example a training set of one year), `stats.norm.pdf` at make_forecast_2025.py:111 and make_forecast_2024.py:98 is NaN everywhere. All five probabilities of the record are then NaN and are written as empty cells, a case this real-valued pdf cannot express, so Bands.BandProbsAdd says nothing about it.
- GapFill.FilledTavg: the model fills the gaps, as pandas does before copy-on-write. There, the chained `testdf['Tavg_F'].fillna(testdf.Tavg_clim, inplace=True)` at acis2combinedDD.py:59 changes the frame. Under copy-on-write (pandas 3) it changes a temporary and the NaNs stay.
- The `forecastdate` column that `make_likelihood_DF` adds (make_forecast_2025.py:62, make_forecast_2024.py:53) is not modelled, because nothing reads it.
- The station files of `get_correlationrecords` (generate_TDDcorr.py:34-37) are given by their station names. Their `read_csv` is assumed to succeed, and the climatology reads are not modelled. Both are reached only through `rutil.retrieve_tdd_anomaly_fixed`, which riverice_util.py does not define. The model covers the AttributeError this raises on a frame with rows and, on a frame without rows, the column assignment pandas makes once it has swallowed that error.
- The `__main__` block of generate_TDDcorr.py (50-54) never calls `get_correlationrecords`, so the model states only what the loop visits.
- `retrieve_dd_anomaly` and `retrieve_dd_anomaly_fixed` read the climatology CSV themselves; the model takes that file as a parameter.
- Correlation.SortByYear: pandas' default `sort_values` (quicksort) does not promise an order among rows of the same year. The model makes the sort stable. Report.SortRows is stable in the model as well.
- Correlation.NormalizeStationName: lines 26-27 of generate_TDDcorr.py are never reached (line 25 raises first). The rewrite is modelled on its own, with general lemmas and one example, not as part of `makeDF_from_records`.
- StationMeta.FrameOf: the padding value pandas uses for short records (None or NaN) is one "missing" cell here.
- get_acisdata.py and update_predictors.py are not part of this model.
- Calendar.SinceParts, Calendar.ParseIso, Calendar.ParseCompact: non-canonical strings that Python accepts are rejected here (`int` also takes a sign, blanks and underscores; `strptime` takes one-digit months and days). The scripts only pass zero-padded references and ISO dates.
- DegreeDays.DdTable: the laws about it (CumulStep, CumulNonDecreasing, CumulRestartsEachYear) describe the grouped table for date-ordered input, as GroupedInDateOrder shows. GroupedCumul states the running-total law for any input.
- Forecast2024.Run: the records are filed and sorted as records and become the ten-key dicts when the report is formed. This is the script's order, since the sort columns are intact in the dict.
- Degree-day tables are modelled for the Julian days and years present. pandas' column dtype and index names are not modelled.

## Findings

| source | as written | input that shows it | evidently intended | confidence | as-written member | corrected member |
|---|---|---|---|---|---|---|
| scripts/riverice_util.py:40 | the reference day is read from `since[3:]`, one character too far | `datestr2dayssince('2000-03-20', '0315')` counts from March 5 and gives 15 | `int(since[2:])`, giving 5; the default '0301' hides the slip | high, not executed | Calendar.AsWrittenMisreadsMarch15 | Calendar.DaysSinceRoundTrip |
| scripts/make_forecast_2024.py:166-167 | the record display repeats the week-2 key, so `prob_wk3` overwrites `prob_wk2` and the week-3 column is missing | any record: its dict has ten columns | the eleventh key "... week 3 from now", as in make_forecast_2025.py:182 | high, not executed | Report.WeekThreeLost | Report.RecordDictComplete |
| scripts/make_forecast_2025.py:118-122 | with `mostlikely = round(mu_0)`, `pdf[max(101, 97 + mostlikely):…+7]` sums lead times `mostlikely - 4` to `mostlikely + 2`, one day early, while line 135 shades `mostlikely - 3` to `mostlikely + 3` | `mostlikely = 10`: the sum covers 6-12, the shading 7-13 | the window `round(mu_0) ± 3`, as make_forecast_2024.py:104-108 computes with its `+ 1` | medium, not executed | Bands.WindowOffCentre | Forecast2025.MakeRecordCentredWindow |

The scripts' models keep the second and third slips as written, because that is what the scripts write. `Forecast2024.Outcome` writes the ten-key dicts, whose intended eleven-key form is `Report.RecordDict`. `Forecast2025.MakeRecord`, and everything built on it, sums the off-centre window, whose corrected record is `Forecast2025.MakeRecordCentred`. The first slip is harmless for the default reference, which is the only one the scripts pass.
