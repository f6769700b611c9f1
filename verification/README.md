# Scottish electricity data preparation, modelled in Dafny

This project models the data-preparation core of a set of Python/pandas scripts that study
electricity consumption in Scotland. It also proves what that code does. The core has four parts:

- **The anchored-regex Scotland filter** (`CleaningData.py`). Each postcode is normalised
  with `strip()` and `upper()`. Its area is extracted with `^([A-Z]{1,2})`, and a row is
  kept when the area is one of the sixteen Scottish postcode areas.
- **The two filters of `cleaning.py`.**
  - The 2021 filter normalises outcodes and keeps those that start with a Scottish area
    but start with neither `GU` nor `GL`. It then prints a per-prefix histogram.
  - The 2015/2016 filter strips digits from both ends of the raw outcode into a `City`
    column and keeps rows whose `City` is exactly a Scottish area.
- **Data-zone aggregation and dwelling-type flags** (`combining_electricity_and_housing.py`).
  The steps are:
  - a left merge of electricity rows onto a postcode to data-zone lookup;
  - a per-zone `transform('sum')`;
  - `drop_duplicates` on the zone;
  - a left merge onto the housing table;
  - `rstrip('%')` and parsing of the three dwelling-type shares;
  - 0/1 flags for a share of at least 90;
  - the two flag filters.
- **The year-on-year table** (`visualisation_code_plot/year_on_year_analysis.py`).
  - It builds the nine year columns "2015" to "2023" and checks that none is missing.
  - It pivots by council and runs a loop that fills the `yoy_kwh` and `yoy_pct` dicts with
    `Change_{prev}_{curr}` and `Percent_{prev}_{curr}` columns.
  - It copies those columns into the pivot table in place.
  - It sorts the 2022 to 2023 percentages in descending order for the bar chart.
  - A zero previous year is not excluded: the percentage is then the infinity or NaN that
    pandas produces, and `Floats` models both.

Modules and their files:

| module | file | models |
|---|---|---|
| `Options` | options.dfy | a missing value (pandas NaN) as `None` |
| `Text` | text.dfy | `str.isspace`, `str.upper`, `str.strip(chars)`, `str.rstrip(chars)` |
| `Floats` | floats.dfy | float columns: numbers, both infinities and NaN; subtraction, division, the descending sort order |
| `Tables` | tables.dfy | whole-table pandas operations on `seq` of rows: per-row maps, boolean indexing, `drop_duplicates`, left merge, group sums |
| `Dicts` | dicts.dfy | insertion-ordered dicts and frame columns: `d[k] = v` and a loop of such assignments |
| `PostcodeAreas` | postcode_areas.dfy | the sixteen areas, postcode normalisation, the `^([A-Z]{1,2})` extraction |
| `CleaningData` | cleaning_data.dfy | `CleaningData.py` |
| `Cleaning` | cleaning.dfy | `cleaning.py` |
| `Strategies` | strategies.dfy | how the three Scotland filters compare |
| `CombiningElectricityAndHousing` | combining.dfy | `combining_electricity_and_housing.py` |
| `YearOnYear` | year_on_year.dfy | `main` of `year_on_year_analysis.py` |

The two cleaning scripts and the combining script rebind whole columns and tables, so
they are modelled as functions over sequences of row records.

The year-on-year script is modelled in two styles:

- Its loop over consecutive years is a method with a `while` loop. The loop is proved to
  produce the dicts that a specification function describes.
- The pivot table is a class whose `columns` field the column-copying loops update in
  place.

## Model

| member | source | states |
|---|---|---|
| Text.ToUpper | CleaningData.py:12 | the modelled `upper()` keeps the length, maps each character on its own (ASCII a-z to A-Z, everything else unchanged) and leaves whitespace as it is |
| Text.ToUpperIdempotent | CleaningData.py:12 | upper-casing twice is upper-casing once |
| Text.TrimStart | cleaning.py:26 | the result is a suffix of the input; every removed character is a dropped one; the first kept character is not |
| Text.TrimEnd | combining_electricity_and_housing.py:39 | the result is a prefix of the input; every removed character is a dropped one; the last kept character is not |
| Text.Strip | cleaning.py:26 | `strip(chars)` returns a slice of the input; everything before and after it is dropped; its two end characters are kept |
| Text.StripStripped | CleaningData.py:12 | a string whose two ends are not dropped is its own strip |
| PostcodeAreas.ScotlandAreasAreCodes | CleaningData.py:8-9 | every one of the sixteen areas is one or two capitals; G is an area, GU and GL are not |
| PostcodeAreas.Normalise | CleaningData.py:12 | the normalised postcode has no surrounding whitespace and no lower-case ASCII letter |
| PostcodeAreas.NormaliseIdempotent | cleaning.py:10 | normalising a normalised postcode changes nothing |
| PostcodeAreas.CapitalRun | CleaningData.py:15 | the leading run of capitals is a prefix, all capitals, and stops at the first non-capital |
| PostcodeAreas.AreaCode | CleaningData.py:15 | no area exactly when the string is empty or starts with a non-capital; otherwise a prefix of one or two capitals, one only when the second character is not a capital |
| PostcodeAreas.AreaIsCappedCapitalRun | CleaningData.py:15 | the area is the leading run of capitals cut to at most two letters |
| PostcodeAreas.AreaExamples | CleaningData.py:15 | "EH8 9AG" gives EH, "G1 1AA" gives G, "GU1 1AA" gives GU, "1AB" and "" give none |
| CleaningData.WithArea | CleaningData.py:12-15 | the row's postcode is normalised, `Area` is extracted from the normalised postcode, other columns are untouched |
| CleaningData.ScotlandData | CleaningData.py:18 | at most as many rows as the input, every one with a Scottish area |
| CleaningData.RowKeptIffScottish | CleaningData.py:18 | an input row is kept (normalised) if and only if the area of its normalised postcode is one of the sixteen |
| CleaningData.MaskIsDecision | CleaningData.py:12-18 | the mask `InScotland` on the normalised row holds exactly when `KeepsPostcode` holds of the raw postcode, that is when the area of the normalised postcode exists and is one of the sixteen |
| CleaningData.KeptPostcodesAreNormal | CleaningData.py:12 | every kept postcode is stored in normalised form |
| CleaningData.ScotlandDataIsSubsequence | CleaningData.py:18 | the output is a subsequence of the input in input order; each kept row differs only by its normalised postcode and `Area` |
| CleaningData.ScotlandDataIdempotent | CleaningData.py:12-18 | filtering the filtered table again returns it unchanged |
| CleaningData.ScotlandDataOfOneRow | CleaningData.py:18 | a one-row table keeps its normalised row exactly when that row's area is Scottish |
| CleaningData.LowerCaseWithSpacesIsKept | CleaningData.py:12-18 | " eh8 9ag " is kept with area EH and stored as "EH8 9AG" |
| CleaningData.AreaDecisions | CleaningData.py:15-18 | GU1 1AA is read greedily as GU and dropped; G1 1AA is kept as G; EH8 9AG as EH; "" and "1AB" have no area and "" is dropped |
| CleaningData.NoLeadingLetterIsDropped | CleaningData.py:15-18 | a postcode that normalises to "" or to a string starting with a non-capital has no area and is dropped |
| Cleaning.WithNormalOutcode | cleaning.py:10 | only `Outcode` changes, to its normalised form |
| Cleaning.AvoidsGuAndGl | cleaning.py:13 | a string whose second character is neither U nor L starts with neither GU nor GL |
| Cleaning.Clean2021 | cleaning.py:10-13 | every remaining outcode starts with a Scottish area and with neither GU nor GL |
| Cleaning.Clean2021KeepsExactly | cleaning.py:10-13 | a row is kept if and only if its normalised outcode starts with a Scottish area and with neither GU nor GL |
| Cleaning.MasksAreDecision2021 | cleaning.py:10-13 | the two `str.startswith` masks (`StartsWithAny` of the sixteen areas, and not of GU or GL) on the normalised row hold together exactly when `Keeps2021` holds of the raw outcode |
| Cleaning.Clean2021IsSubsequence | cleaning.py:12-13 | both filters keep rows in input order and change no column but `Outcode` |
| Cleaning.CountIsGroupSum | cleaning.py:15 | the count for one prefix is the group sum of ones over the rows with that prefix |
| Cleaning.PrefixCountsSum | cleaning.py:15 | the per-prefix counts add up to the number of rows that have a prefix |
| Cleaning.PrefixCountsCover2021 | cleaning.py:15 | for the 2021 table the per-prefix counts add up to the number of remaining rows |
| Cleaning.PrefixCountsAreValueCounts | cleaning.py:15 | `PrefixCounts` lists each extracted prefix once; the count beside a prefix is the number of rows with that prefix; every prefix some row has is listed |
| Cleaning.WithCity | cleaning.py:26 | `City` is the outcode with digits stripped from both ends; the outcode and the other columns are untouched |
| Cleaning.CitiesAreStripped | cleaning.py:35 | after the `City` assignment every row's `City` is its digit-stripped outcode |
| Cleaning.CleanByCity | cleaning.py:26-27 | every remaining row has a `City` that is a Scottish area and is its digit-stripped outcode |
| Cleaning.CleanByCityKeepsExactly | cleaning.py:37 | a row is kept if and only if its digit-stripped raw outcode equals a Scottish area |
| Cleaning.CityMaskIsDecision | cleaning.py:26-27 | the `isin` mask on the new `City` column holds exactly when `KeepsByCity` holds of the raw outcode, that is when its digit-stripped form is one of the sixteen |
| Cleaning.CleanByCityIsSubsequence | cleaning.py:35-37 | the filter keeps input order; outcode and other columns are unchanged, `City` is added |
| Cleaning.DigitStripExamples | cleaning.py:26 | "EH10" becomes EH, "1EH" becomes EH, "EC1A" keeps its inner digit |
| Strategies.AreaPassesPrefix | cleaning.py:12-13 | a string with a Scottish area passes the 2021 prefix test |
| Strategies.AnchoredImpliesPrefix | CleaningData.py:18 | whatever the anchored regex keeps, the 2021 filter keeps |
| Strategies.PrefixPassIsAreaOrG | cleaning.py:12-13 | a string that passes the prefix test has a Scottish area, or is G followed by a capital other than U or L |
| Strategies.PrefixIffAnchoredOrG | cleaning.py:12-13 | the 2021 filter keeps exactly what the anchored regex keeps plus the outcodes that normalise to G and a capital other than U or L |
| Strategies.DigitStripImpliesAnchored | cleaning.py:27 | what the digit-strip filter keeps, unless it starts with a digit, the anchored regex keeps with the same area |
| Strategies.GY1SplitsStrategies | cleaning.py:12-13 | "GY1" is kept by the prefix test and dropped by the anchored regex and by the digit strip |
| Strategies.UnnormalisedSplitsStrategies | cleaning.py:26-27 | "eh8" and " EH8" are kept by the anchored regex and the prefix test and dropped by the digit strip |
| Strategies.EC1ADroppedByAll | cleaning.py:27 | "EC1A" is dropped by all three filters |
| Strategies.LeadingDigitSplitsStrategies | cleaning.py:26-27 | "1EH" is kept by the digit strip alone |
| Strategies.GU1DroppedByAll | cleaning.py:13 | "GU1" is dropped by all three filters |
| Tables.MapRows | CleaningData.py:12 | a per-row column assignment keeps the length and maps row `i` to row `i` |
| Tables.Select | CleaningData.py:18 | boolean indexing keeps only rows that satisfy the mask, and every such row as often as it occurs |
| Tables.SelectMember | CleaningData.py:18 | a row of the table is in the selection if and only if it satisfies the mask |
| Tables.SelectKeepsOrder | cleaning.py:12 | the selection is a subsequence of the table, in table order |
| Tables.SelectIdempotent | CleaningData.py:18 | selecting twice with the same mask is selecting once |
| Tables.EmbedsCompose | cleaning.py:12-13 | a subsequence of a subsequence is a subsequence |
| Tables.DedupFrom | combining_electricity_and_housing.py:31 | at most one row per key, keeping exactly the keys of the table not yet seen |
| Tables.DropDuplicates | combining_electricity_and_housing.py:31 | one row per distinct key, the set of keys unchanged, no more rows than the input |
| Tables.DropDuplicatesFirstOccurrences | combining_electricity_and_housing.py:31 | the kept rows are the first row of each key, in first-occurrence order |
| Tables.DedupFromMap | combining_electricity_and_housing.py:28-31 | de-duplicating after a per-row map that keeps the key is mapping the de-duplicated rows |
| Tables.MatchesOf | combining_electricity_and_housing.py:22 | the right rows matching a left row, no more and no fewer (in right-table order with repeats: `MatchesOfIsSelect`) |
| Tables.MatchesOfIsSelect | combining_electricity_and_housing.py:22 | the matches of a left row are the right table filtered by the join condition, in right-table order and with repeats |
| Tables.JoinRow | combining_electricity_and_housing.py:22 | one output row per matching right row, or one row with the right side missing |
| Tables.LeftMerge | combining_electricity_and_housing.py:22 | a left merge has at least as many rows as the left table (its row-by-row shape for any right table: `LeftMergeBlocks`, `LeftMergeKeepsLeft`) |
| Tables.LeftMergeBlocks | combining_electricity_and_housing.py:22 | the merge is exactly the left rows' blocks laid end to end, in left order: the block of left row `i` (that row joined with each of its matches, or with nothing) sits at position `p[i]`, the first block starts at 0, each block ends where the next one starts, and the last one ends at the end of the merge |
| Tables.LeftMergePlacesBlocks | combining_electricity_and_housing.py:22 | each left row's block occurs in the merge at its start position, and an earlier row's block ends no later than a later row's block starts |
| Tables.LeftMergeTilesBlocks | combining_electricity_and_housing.py:22 | the block start positions tile the merge: the first is 0, each block ends where the next begins, and the last block ends at the merge's last row |
| Tables.LeftMergeKeepsLeft | combining_electricity_and_housing.py:22 | every left row survives the merge, in order: at increasing positions the merge holds left row `i` joined with its first match, or with nothing |
| Tables.FirstMatch | combining_electricity_and_housing.py:22 | the match found is a matching right row; none means no right row matches |
| Tables.LeftMergeOneToOne | combining_electricity_and_housing.py:22 | with unique right keys, row `i` of the merge is left row `i` joined with its match or with nothing |
| Tables.GroupSumIsFilteredTotal | combining_electricity_and_housing.py:28 | a group sum is the total over the rows of that group |
| Tables.GroupSumsConserveTotal | combining_electricity_and_housing.py:28-31 | summing each distinct key's group sum once gives the total of all keyed rows |
| Tables.DedupGroupSums | combining_electricity_and_housing.py:31 | over a de-duplicated table, the group sums add up to the sum over the keys not yet seen |
| CombiningElectricityAndHousing.Zone | combining_electricity_and_housing.py:22-27 | the merged row keeps outcode, postcode and total consumption and carries the lookup's zone when there is a match |
| CombiningElectricityAndHousing.ZonedElectricity | combining_electricity_and_housing.py:22 | the left merge onto the lookup loses no electricity row |
| CombiningElectricityAndHousing.ZonedElectricityKeepsEveryRow | combining_electricity_and_housing.py:22 | every electricity row survives the merge, in order, carrying the zone of its first matching lookup postcode or none, whether or not the lookup's postcodes are unique |
| CombiningElectricityAndHousing.ZonedElectricityOneToOne | combining_electricity_and_housing.py:22 | with unique lookup postcodes every electricity row appears once, in order, with its postcode's zone or none |
| CombiningElectricityAndHousing.ZoneTotals | combining_electricity_and_housing.py:28 | the per-zone sum column is added to each row, which is otherwise unchanged |
| CombiningElectricityAndHousing.ZoneTotalIsZoneSum | combining_electricity_and_housing.py:28 | each row's zone consumption is the total consumption of its zone's rows; a row without a zone gets none; rows of one zone share the value |
| CombiningElectricityAndHousing.DataZoneElectricity | combining_electricity_and_housing.py:31-32 | at most one summary row per zone |
| CombiningElectricityAndHousing.DataZoneElectricityZones | combining_electricity_and_housing.py:31 | the summary holds exactly the zones of the electricity rows |
| CombiningElectricityAndHousing.DataZoneElectricityIsFirstRows | combining_electricity_and_housing.py:28-32 | the summary is the first row of every zone with its zone total, in first-occurrence order |
| CombiningElectricityAndHousing.ZoneTotalsConserveConsumption | combining_electricity_and_housing.py:28-31 | the zone totals of the summary add up to the consumption of all rows with a zone |
| CombiningElectricityAndHousing.JoinZone | combining_electricity_and_housing.py:35 | the housing row is kept and gets the summary's zone and total, or nothing |
| CombiningElectricityAndHousing.HouseDataElectricity | combining_electricity_and_housing.py:35 | the left merge onto the zone summary loses no housing row |
| CombiningElectricityAndHousing.HouseMergeOneToOne | combining_electricity_and_housing.py:28-35 | every housing row appears once, in order; it gets a zone exactly when that zone has electricity rows, and then its consumption is that zone's group sum of `Total_cons_kwh` |
| CombiningElectricityAndHousing.SummaryCarriesZoneTotals | combining_electricity_and_housing.py:28-32 | every summary row with a zone carries that zone's total consumption |
| CombiningElectricityAndHousing.SummaryMatch | combining_electricity_and_housing.py:35 | a housing row has a summary match if and only if some electricity row is in its zone, and that match is the zone's only summary row |
| CombiningElectricityAndHousing.ShareStripsOnlyTrailingPercent | combining_electricity_and_housing.py:37-53 | `rstrip('%')` removes only a trailing run of per-cent signs and leaves no per-cent sign at the end |
| CombiningElectricityAndHousing.Flag | combining_electricity_and_housing.py:55-57 | a flag is 0 or 1, and 1 exactly when the share is at least 90 |
| CombiningElectricityAndHousing.FlagRow | combining_electricity_and_housing.py:37-57 | the three shares are the parsed stripped texts; zone, zone code and consumption are carried over |
| CombiningElectricityAndHousing.Flagged | combining_electricity_and_housing.py:55-57 | one flagged row per merged row, in order |
| CombiningElectricityAndHousing.FlagsAreThresholds | combining_electricity_and_housing.py:55-57 | in the flagged table every flag is 0 or 1 and is 1 exactly when its share is at least 90 |
| CombiningElectricityAndHousing.FlatElectricity | combining_electricity_and_housing.py:60 | only flagged table rows with `Flats` 1 |
| CombiningElectricityAndHousing.WholeHouseElectricity | combining_electricity_and_housing.py:61 | only flagged table rows with `Whole House` 1 |
| CombiningElectricityAndHousing.FlagFiltersAreSubsequences | combining_electricity_and_housing.py:60-61 | both filters are order-preserving subsequences, and a row is kept if and only if its share is at least 90 |
| CombiningElectricityAndHousing.HouseDataFlaggedOneToOne | combining_electricity_and_housing.py:35-57 | end to end, one flagged row per housing row, in order, with that row's data zone |
| CombiningElectricityAndHousing.HouseDataFlagged | combining_electricity_and_housing.py:22-57 | the whole pipeline from electricity, lookup and housing tables yields at least one flagged row per housing row |
| Floats.Sub | visualisation_code_plot/year_on_year_analysis.py:62 | the difference of two numbers is a number; NaN in, NaN out; NaN only from NaN or infinity minus itself |
| Floats.Div | visualisation_code_plot/year_on_year_analysis.py:64 | a number over a non-zero number is their quotient; over zero it is an infinity of its sign, or NaN for zero over zero |
| Floats.Scale | visualisation_code_plot/year_on_year_analysis.py:64 | multiplying by 100 scales a number and leaves infinities and NaN alone |
| Floats.NotBelowTotal | visualisation_code_plot/year_on_year_analysis.py:97 | any two values are ordered one way or the other by the descending sort |
| Floats.NotBelowTransitive | visualisation_code_plot/year_on_year_analysis.py:97 | the descending sort order is transitive |
| YearOnYear.DecimalString | visualisation_code_plot/year_on_year_analysis.py:42 | `str(n)` is a non-empty string of digits without a leading zero |
| YearOnYear.DecimalRoundTrip | visualisation_code_plot/year_on_year_analysis.py:42 | reading back the digits of `str(n)` gives `n` |
| YearOnYear.YearColumnsAreTheYears | visualisation_code_plot/year_on_year_analysis.py:42 | the year list is exactly "2015" to "2023" and column `j` names year 2015 + `j` |
| YearOnYear.YearColumns | visualisation_code_plot/year_on_year_analysis.py:42 | the year list has nine names |
| YearOnYear.YearNamesAreFree | visualisation_code_plot/year_on_year_analysis.py:42 | the nine names are distinct, four characters long, start with a digit, and none is `Council_Area` |
| YearOnYear.MissingColumns | visualisation_code_plot/year_on_year_analysis.py:45 | a year is listed as missing if and only if it is not a column of the frame |
| YearOnYear.NothingMissing | visualisation_code_plot/year_on_year_analysis.py:45-48 | the missing list is empty if and only if the frame has every year column |
| YearOnYear.PivotColumns | visualisation_code_plot/year_on_year_analysis.py:51 | the pivot's columns are the year columns in year order, with the frame's values, one per council |
| YearOnYear.PivotIsValid | visualisation_code_plot/year_on_year_analysis.py:51 | the pivot's column names are distinct and each has a column |
| YearOnYear.ChangeAndPercentOfNumbers | visualisation_code_plot/year_on_year_analysis.py:62-64 | for two recorded values, change is curr − prev, and percentage is (curr − prev) / prev × 100 when prev ≠ 0 |
| YearOnYear.PercentHasSignOfChange | visualisation_code_plot/year_on_year_analysis.py:64 | for a positive previous year the percentage is positive, negative or zero exactly as the change is |
| YearOnYear.PercentFromZeroOrMissing | visualisation_code_plot/year_on_year_analysis.py:64 | a zero previous year gives an infinity of the change's sign, or NaN; a missing value gives NaN |
| YearOnYear.ChangeColumnAligned | visualisation_code_plot/year_on_year_analysis.py:62 | the change column holds each council's change at that council's place |
| YearOnYear.PercentColumnAligned | visualisation_code_plot/year_on_year_analysis.py:64 | the percentage column holds each council's percentage at that council's place |
| YearOnYear.ChangeColumn | visualisation_code_plot/year_on_year_analysis.py:62 | the change column `pivot[curr] - pivot[prev]` has one value per council |
| YearOnYear.PercentColumn | visualisation_code_plot/year_on_year_analysis.py:64 | the percentage column has one value per council |
| YearOnYear.ChangeNames | visualisation_code_plot/year_on_year_analysis.py:62 | one change name per pass of the loop |
| YearOnYear.PercentNames | visualisation_code_plot/year_on_year_analysis.py:64 | one percentage name per pass of the loop |
| YearOnYear.ChangeColumns | visualisation_code_plot/year_on_year_analysis.py:62 | one change column per pass, each with one value per council |
| YearOnYear.PercentColumns | visualisation_code_plot/year_on_year_analysis.py:64 | one percentage column per pass, each with one value per council |
| YearOnYear.ChangePass | visualisation_code_plot/year_on_year_analysis.py:62 | pass `n` assigns the `n`-th pair's change column under `Change_{prev}_{curr}` |
| YearOnYear.PercentPass | visualisation_code_plot/year_on_year_analysis.py:64 | pass `n` assigns the `n`-th pair's percentage column under `Percent_{prev}_{curr}` |
| YearOnYear.YearOnYearChanges | visualisation_code_plot/year_on_year_analysis.py:57-64 | the loop leaves in `yoy_kwh` and `yoy_pct` exactly the assignments of all passes, in pass order |
| YearOnYear.OneChangePerPair | visualisation_code_plot/year_on_year_analysis.py:57-62 | with distinct names, `yoy_kwh` has one key per consecutive pair, in order, holding that pair's changes |
| YearOnYear.OnePercentPerPair | visualisation_code_plot/year_on_year_analysis.py:57-64 | with distinct names, `yoy_pct` has one key per consecutive pair, in order, holding that pair's percentages |
| YearOnYear.ResultsKeepRows | visualisation_code_plot/year_on_year_analysis.py:57-64 | every result column has one value per council |
| YearOnYear.PairNamesDiffer | visualisation_code_plot/year_on_year_analysis.py:62-64 | pairs whose earlier years end in different digits get different names |
| YearOnYear.YearColumnsPairNamesDistinct | visualisation_code_plot/year_on_year_analysis.py:57-64 | the eight change names are distinct, and so are the eight percentage names |
| YearOnYear.YearColumnsPairNamesFresh | visualisation_code_plot/year_on_year_analysis.py:67-68 | no change name is a year or a percentage name, and no percentage name is a year |
| YearOnYear.PivotTable.constructor | visualisation_code_plot/year_on_year_analysis.py:51 | the pivot holds the index and columns it is given |
| YearOnYear.PivotTable.SetColumn | visualisation_code_plot/year_on_year_analysis.py:67 | `pivot[c] = v` replaces column `c` where it stands or appends it; the index is unchanged |
| YearOnYear.PivotTable.AddColumns | visualisation_code_plot/year_on_year_analysis.py:67-68 | copying a dict into the pivot assigns its keys in dict order; the index is unchanged, and every column still has one value per council |
| Dicts.SetItem | visualisation_code_plot/year_on_year_analysis.py:62 | `d[k] = v` stores `v` under `k`, leaves other entries alone, keeps the key order for an old key and appends a new one |
| Dicts.Assigned | visualisation_code_plot/year_on_year_analysis.py:57-64 | the dict after the first `n` assignments of the loop has distinct keys |
| Dicts.AssignedDistinct | visualisation_code_plot/year_on_year_analysis.py:57-64 | assigning distinct names in turn yields those names in order, each with its value |
| Dicts.AssignedEvery | visualisation_code_plot/year_on_year_analysis.py:57-64 | after all assignments with distinct names the keys are the names |
| Dicts.AssignedAll | visualisation_code_plot/year_on_year_analysis.py:57-64 | a property every assigned value has, every entry has |
| Dicts.SetAllEntries | visualisation_code_plot/year_on_year_analysis.py:67-68 | after copying, every copied key holds its new value and every other column is unchanged |
| Dicts.SetAll | visualisation_code_plot/year_on_year_analysis.py:67-68 | copying dict entries into the pivot's columns keeps its column names distinct |
| Dicts.SetAllFreshKeys | visualisation_code_plot/year_on_year_analysis.py:67-68 | copying distinct new keys appends them to the column order |
| Dicts.SetAllKeeps | visualisation_code_plot/year_on_year_analysis.py:67-68 | a property of every old column and every copied value holds of every column after copying |
| YearOnYear.Series | visualisation_code_plot/year_on_year_analysis.py:97 | the column as a series of (council, value) bars in index order |
| YearOnYear.Insert | visualisation_code_plot/year_on_year_analysis.py:97 | inserting a bar adds exactly that bar |
| YearOnYear.InsertSorted | visualisation_code_plot/year_on_year_analysis.py:97 | inserting into a descending sequence keeps it descending |
| YearOnYear.SortDescending | visualisation_code_plot/year_on_year_analysis.py:97 | the result is a permutation of the bars, largest first, NaN last |
| YearOnYear.Analyse | visualisation_code_plot/year_on_year_analysis.py:42-97 | a missing year stops the analysis with the missing list; otherwise the pivot gets the change and percentage columns and the bar data is its 2022 to 2023 column sorted |
| YearOnYear.AnalysedColumnOrder | visualisation_code_plot/year_on_year_analysis.py:67-68 | the final column order is the nine years, then the eight change columns, then the eight percentage columns |
| YearOnYear.AnalysedKeepsYears | visualisation_code_plot/year_on_year_analysis.py:67-68 | the year columns come out of the analysis as they were loaded |
| YearOnYear.AnalysedChanges | visualisation_code_plot/year_on_year_analysis.py:62 | each change column of the final pivot holds the changes between its two years |
| YearOnYear.AnalysedPercents | visualisation_code_plot/year_on_year_analysis.py:64 | each percentage column of the final pivot holds the percentages between its two years |
| YearOnYear.AnalysedRows | visualisation_code_plot/year_on_year_analysis.py:67-68 | every column of the final pivot has one value per council |
| YearOnYear.AnalysedBars | visualisation_code_plot/year_on_year_analysis.py:96-97 | the 2022 to 2023 column exists, so there is bar data: every council's percentage once, sorted descending |

## Left out

- File and network I/O (`read_csv` of local files and URLs, `to_csv`, `find_data_file`) is not modelled. Each script's input table is a parameter.
- `print`, `describe()` and every plot (matplotlib, seaborn) are not modelled. Neither is the national average at line 75 of `year_on_year_analysis.py`, which only feeds a line chart.
- The map, ranking, time-series and variance scripts and `HouseholdDataClean.py` are not part of this model.
- `astype(float)` parsing of the share texts is a parameter `parse`. A text that does not parse raises in pandas, and that error path is not modelled.
- Text.ToUpper: models `str.upper` on ASCII letters only and leaves every other character unchanged. Python also upper-cases some non-ASCII letters to ASCII capitals ('ı' to 'I', 'ſ' to 'S', 'ß' to "SS", which also changes the length), so such a letter can change which rows a filter keeps: " ıv1 1aa" normalises to "IV1 1AA" in Python and is kept at `CleaningData.py` line 18, while the model drops it.
- Floats are modelled on exact reals. Rounding and signed zero are left out, so -0.0 and +0.0 are both the number 0.
- Cleaning.PrefixCounts: gives the counts in first-occurrence order, while `value_counts` sorts by count. The prefixes, their counts and their sum are stated (`PrefixCountsAreValueCounts`, `PrefixCountsSum`); the order of the printed list is not.
- YearOnYear.SortDescending: states sorted and permutation only. pandas' default sort is not stable, so the order of equal values is not promised.
- YearOnYear.Analyse: the frame's `Council_Area` column is assumed present and unique among its column names. `set_index` failing on a missing `Council_Area` is not modelled.
- Duplicate column names in the loaded frame are not modelled: the frame's columns are a dict.
- Dicts.AssignedDistinct: states the key order only for distinct names. The year names make the names distinct, and that is proved.
- The housing shares with a missing value (NaN before `rstrip`) are not modelled. Every share is a text.
- The lookup's `DataZone2011Code` and the electricity table's `Total_cons_kwh` are never missing in the model (`LookupRow.dataZone` is a string, `ElectricityRow.totalCons` a number). In pandas an empty zone cell in a matched lookup row gives the merged row a NaN zone at `combining_electricity_and_housing.py` line 22, which lines 28 and 31 then group with the unmatched rows; and `transform('sum')` at line 28 skips NaN consumptions. Neither case can be represented, so `Zone`'s promise that a matched row has a zone holds only for lookups without empty zone cells.
- Every `Outcode`, `Postcode` and housing `Data Zone` value is a string in the model. In `cleaning.py` at lines 26 and 35 a missing (NaN) raw `Outcode` stays NaN under `str.strip` and is dropped by `isin`; the model cannot represent such a row. (Line 10 first converts with `astype(str)`, so there a missing value becomes the text "nan", which no filter keeps.)
