# wuvars-orion table logic in Dafny

This project models the in-memory table logic of the ORION variable-star
survey scripts (WFCAM near-infrared time-series photometry of the Orion
Nebula Cluster). It covers:

- **Cross-match bookkeeping** (`orion_tablemate.py`):
  - `TableParameters` picks how a catalog's RA/Dec columns are turned into
    decimal degrees;
  - `tablemater` builds the mated index table of a primary catalog against
    its secondary catalogs;
  - `index_secondary_by_primary` re-indexes a secondary catalog by primary
    rows.
- **Star samples** (`official_star_counter.py`, `color_slope_filtering.py`,
  `long_periods.py`): the quality and variability selections of the
  variability spreadsheet, how they nest, and the long-period priority
  cascade.
- **Partitioning and filtering**:
  - the 16-tile sky partition with margins (`variables_data_filterer.py`);
  - the round-robin split of nights into the four WFCAM chipsets and the
    removal of cloudy nights (`find_bad_timestamps.py`);
  - the glued master variable list with its flag columns
    (`auto_subj_gluer.py`);
  - the `ONCvar_ID` column rename (`old_oncvar_id_renamer_oneoff.py`).

How tables are represented:

- A spreadsheet is a `seq<Row>` of a typed record (`Spreadsheet.Row`).
- Time-series photometry is a `seq<Detection>`.
- Catalogs with arbitrary schemas are a `Catalog.Table`: an ordered list of
  named integer, float or string columns.
- `table.where(mask)` is `Seqs.Filter`, the order-preserving sub-sequence
  of rows that pass a predicate.
- Python exceptions are the `Err` case of `Results.Result`.

What the model takes as parameters, with no definition of its own:

- the nearest-neighbour matcher `match.core_match`;
- the sexagesimal parser `coords.Position` and `np.degrees`;
- the robust statistics `rb.meanr` and `rb.stdr`, and `ndarray.mean`;
- file loading;
- the tables produced by scripts that are not part of this model: the
  periodic selector's outputs and the confirmed subjective lists.

Modules, one per source file, plus shared foundations:

- `results.dfy` (Results): Python exceptions as values
- `seqs.dfy` (Seqs): `where`, `sorted(set(...))`, `max`/`min`
- `catalog.dfy` (Catalog): atpy tables with arbitrary schemas, numpy indexing
- `spreadsheet.dfy` (Spreadsheet): the variability spreadsheet and the band-quality rule
- `photometry.dfy` (Photometry): time-series photometry rows
- `tablemate.dfy` (Tablemate): orion_tablemate.py
- `star_counter.dfy` (StarCounter): official_star_counter.py
- `color_slopes.dfy` (ColorSlopes): color_slope_filtering.py
- `long_periods.dfy` (LongPeriods): long_periods.py
- `tiles.dfy` (Tiles): variables_data_filterer.py
- `bad_timestamps.dfy` (BadTimestamps): find_bad_timestamps.py
- `gluer.dfy` (Gluer): auto_subj_gluer.py
- `renamer.dfy` (Renamer): old_oncvar_id_renamer_oneoff.py

## Model

| member | source | states |
|---|---|---|
| Seqs.Filter | official_star_counter.py:125-127 | `where` keeps the rows that pass and no others: every kept row is an input row that passes, and every passing input row is kept as many times as it occurs in the input |
| Seqs.FilterIsSubsequence | official_star_counter.py:125-127 | the rows `where` keeps appear in the input's order: the output is a subsequence of the input |
| Seqs.SubsequenceHasPositions | official_star_counter.py:125-127 | a subsequence sits at strictly increasing positions of the input, each of its rows equal to the input row at its position |
| Seqs.FilterNested | official_star_counter.py:51-54 | selecting with a narrower criterion from an already-selected table gives the same table as selecting directly |
| Seqs.FilterCommute | color_slope_filtering.py:61-68 | two successive `where` selections can be applied in either order |
| Seqs.FilterComplementCount | official_star_counter.py:177 | a selection and its complement split a table, so their row counts add up to the table's |
| Seqs.SortedDistinct | find_bad_timestamps.py:76 | `sorted(set(xs))` is strictly increasing and holds exactly the values of `xs` |
| Seqs.StrictlyIncreasingUnique | find_bad_timestamps.py:76 | two strictly increasing lists with the same values are equal, so the sorted distinct list is determined by the value set |
| Seqs.InsertSorted | find_bad_timestamps.py:81 | re-sorting after appending one value yields a non-decreasing list with exactly one more occurrence of that value |
| Seqs.Max | variables_data_filterer.py:46-48 | the maximum is one of the values and no value exceeds it |
| Seqs.Min | variables_data_filterer.py:47-49 | the minimum is one of the values and no value is below it |
| Seqs.Flatten | find_bad_timestamps.py:164-191 | extending an empty list by each list in turn gives a list holding exactly the rows of the lists |
| Seqs.FlattenConcat | find_bad_timestamps.py:164-191 | extending by the lists of `a` and then by those of `b` is extending by the lists of `a + b` |
| Seqs.FlattenBlock | find_bad_timestamps.py:164-191 | list `k` sits whole and in place right after all the lists before it |
| Catalog.Lookup | orion_tablemate.py:113-114 | reading a column of an atpy table by name succeeds exactly when the name is a column key; it yields a column stored under that name, and a missing name raises KeyError |
| Catalog.Field | orion_tablemate.py:315 | reading a field of the numpy record array behind a table succeeds exactly when the name is a column key and then finds what the table read finds; a missing field is numpy's ValueError |
| Catalog.LookupAll | orion_tablemate.py:136-141 | reading several columns in turn succeeds exactly when every name is present; otherwise the first missing name is the KeyError |
| Catalog.AddColumn | orion_tablemate.py:263-264 | `add_column` refuses a name the table already has, and only such a name; otherwise it appends the named column after the existing ones, changes nothing else, and keeps the names of a table with distinct names distinct |
| Catalog.AddedLookup | orion_tablemate.py:263-264 | after `add_column`, `table[name]` is the new column and every other name reads what it read before |
| Catalog.TakeColumn | orion_tablemate.py:327 | numpy fancy indexing `a[idx]` succeeds exactly when every index is in range, negative indices counting from the end; the result has one entry per index, of the same kind |
| Catalog.FillColumn | orion_tablemate.py:329-332 | masked assignment writes the fill value of the column's kind exactly where the index is -1 and keeps every other entry; an integer column holds unbounded integers |
| Tablemate.Route | orion_tablemate.py:111-191 | the decimal path is taken exactly when the lower-cased format lacks "sex" and both column lists have length one; inside it "hours" wins over "deg", which wins over "rad"; "sex" with 3+3 columns is the three-column path, with 4 Dec columns the sign-column path, and any other shape is the unhandled case |
| Tablemate.RouteIgnoresCase | orion_tablemate.py:111-131 | routing a lower-cased format gives the same path as routing the format itself |
| Tablemate.DegreesFormats | orion_tablemate.py:117-124 | "decimal degrees", "decimal_degrees" and "Decimal_Degrees" all select the degrees branch |
| Tablemate.RadiansAndHoursFormats | orion_tablemate.py:117-128 | "decimal radians" selects radians and "decimal hours" selects hours |
| Tablemate.SexagesimalFormats | orion_tablemate.py:131-191 | a "sex" format with 3+3 columns is the three-column path and with 3+4 columns the sign-column path; with 2+2 columns it is the unhandled case; a decimal format with 3+3 columns takes no path |
| Tablemate.Scale | orion_tablemate.py:119 | `ra_raw * 15` multiplies every entry of a numeric column and keeps its kind and length; a string column is a TypeError |
| Tablemate.ToDegrees | orion_tablemate.py:127-128 | `np.degrees` turns a numeric column into a float column of the same length, entry by entry through the conversion; a string column is a TypeError |
| Tablemate.SexRows | orion_tablemate.py:146-148 | `zip` of the six (or seven) sexagesimal columns stops at the shortest column, and row `i` holds the `i`-th entry of each |
| Tablemate.ParseRows | orion_tablemate.py:149-158 | every zipped row is parsed, giving one RA and one Dec per row in row order; any row the parser rejects makes the whole path fail |
| Tablemate.Sexagesimal | orion_tablemate.py:132-188 | the first missing column among the first three RA columns is a KeyError naming it; with all of them present, fewer than three RA columns is an IndexError; then a missing Dec column is a KeyError; with everything present the result is exactly the parse of the per-row hour, minute, second, degree, arcminute, arcsecond (and sign) values; a success implies three RA columns and every Dec column were present |
| Tablemate.Decimal | orion_tablemate.py:111-128 | a missing RA or Dec column is a KeyError; hours succeeds exactly when the RA column is numeric, else TypeError, and gives RA times 15 with Dec unchanged; degrees leaves both unchanged; radians succeeds exactly when both columns are numeric, else TypeError, and converts both; an unknown unit leaves RA/DEC unset |
| Tablemate.NormalizeCoords | orion_tablemate.py:111-195 | the unhandled sexagesimal shape and the missing path leave RA/DEC unset; what each handled path yields from the table is stated by the three lemmas below |
| Tablemate.DecimalCoordinates | orion_tablemate.py:111-128 | on the decimal path: a missing RA column, then a missing Dec column, is a KeyError naming it; degrees gives the two columns unchanged; hours succeeds exactly when RA is numeric, else TypeError, with RA times 15; radians succeeds exactly when both are numeric, else TypeError, with both converted to degrees; an unknown unit succeeds leaving RA/DEC unset |
| Tablemate.SexagesimalMissingColumns | orion_tablemate.py:131-191 | on either sexagesimal path: a missing column among the first three RA columns is a KeyError naming it, then fewer than three RA columns is an IndexError, then a missing Dec column is a KeyError naming it |
| Tablemate.SexagesimalCoordinates | orion_tablemate.py:131-191 | on either sexagesimal path with every column present: the coordinates are set exactly when every row's values parse, a failure is a parse error, and the coordinates are the parsed rows |
| Tablemate.NewTableParameters | orion_tablemate.py:65-85 | a Table is used as is with no path; a path string is loaded, and a file that cannot be read is an IOError naming the path; any other data is rejected; for a Table or a loadable path, construction succeeds exactly when coordinate normalisation of that table succeeds, fails with normalisation's error, and keeps the normalised coordinates |
| Tablemate.MateOne | orion_tablemate.py:253-264 | reading RA/DEC that were never set is an AttributeError; otherwise the step succeeds exactly when the name column exists and every match index is in range, and it returns the matcher's indices; a missing name column is a KeyError naming it, and any other failure is an IndexError |
| Tablemate.MateOneContents | orion_tablemate.py:259-261 | the secondary ID column is -1 (in the name column's kind, an integer column holding unbounded integers) exactly where the index is -1, and the secondary's name at the index elsewhere |
| Tablemate.MatePairs | orion_tablemate.py:246-264 | the loop over secondaries succeeds exactly when every secondary matches and its alias repeats neither the primary's nor an earlier secondary's; otherwise the error is the first failing secondary's, its match error or the refused `<alias>_ID` name; on success it yields each secondary's pair in list order |
| Tablemate.PairColumns | orion_tablemate.py:263-264 | each secondary contributes `<alias>_ID` then `<alias>_index`, two columns per secondary in list order |
| Tablemate.Tablemater | orion_tablemate.py:234-266 | a missing primary name column is a KeyError; otherwise it succeeds exactly when every secondary matches and no alias repeats the primary's or an earlier secondary's, and the error is the first failing secondary's; the table has 2 + 2k distinct column names `<alias>_ID`, `<alias>_index` (primary first, then each secondary in order): the primary IDs, the primary row numbers 0..n-1, then for each secondary its matched IDs (-1 where unmatched) and the matcher's indices, each in [-1, number of secondary rows) |
| Tablemate.MatedNamesUnique | orion_tablemate.py:236-264 | with no alias repeated, the column names `tablemater` gives are pairwise distinct, so atpy refuses none of its `add_column` calls |
| Tablemate.ReindexColumns | orion_tablemate.py:322-335 | every secondary column is read at the index column and filled at -1, in column order; it succeeds exactly when every index is in range for every column and no column name repeats one of the two names already present or an earlier column's; otherwise the error is the first failing column's, IndexError or its refused name |
| Tablemate.IndexSecondaryByPrimary | orion_tablemate.py:296-338 | a mated table with fewer than two columns is an IndexError, and one whose first two names are equal has its second name refused; a missing `<alias>_index` field is numpy's ValueError; a non-integer one is an IndexError when the secondary has a column to index and gives just the first two columns when it has none; otherwise it succeeds exactly when that index column is valid for every secondary column and no secondary column name repeats the first two or an earlier one, and the error is the first failing column's; the result has distinct names, starts with the mated table's first two columns and then has one re-indexed column per secondary column, in order |
| Tablemate.LeadingColumns | orion_tablemate.py:299-309 | reading the mated table's first two names back by name finds its first two columns, when the two names differ |
| Tablemate.ReindexBy | orion_tablemate.py:321-335 | with a non-integer index field, no secondary column gives the two leading columns and any column is an IndexError; with an integer one, it succeeds exactly when every column indexes in range and no name repeats, and the error is the first failing column's; the result keeps the two leading columns, has distinct names and one filled column per secondary column, in order |
| Tablemate.IndexSecondaryContents | orion_tablemate.py:327-332 | a matched primary row holds the secondary's value at the index; an unmatched one holds -9999 in an integer column (of unbounded integers) and NaN otherwise |
| Tablemate.IndexNameFinds | orion_tablemate.py:236-264 | in a table whose column names are laid out as `tablemater` lays them out, `table[alias + "_index"]` for a secondary whose alias differs from the primary's and every earlier secondary's finds that secondary's own `_index` column: no earlier column name shadows it |
| Tablemate.IndexAfterMate | orion_tablemate.py:286-338 | re-indexing a secondary that a mated table was built from (its alias distinct as above) reads that secondary's own `_index` column: it succeeds exactly when those indices are valid for every one of its columns and none of its column names repeats the primary's two or an earlier one, keeps the primary ID and row-number columns, and fills each column from the secondary's column taken at those indices, with the missing value for unmatched rows |
| Spreadsheet.Ids | official_star_counter.py:177 | `np.in1d(x, t.SOURCEID)` tests membership in exactly the set of the table's SOURCEIDs |
| StarCounter.Minimum | official_star_counter.py:31-33 | the rows with at least 50 detections in some band |
| StarCounter.MaxVars | official_star_counter.py:51-54 | the rows with Stetson above 1 and at least 50 detections in some band |
| StarCounter.AutovarsOld | official_star_counter.py:57-67 | the rows with Stetson above 1 and some quality band |
| StarCounter.AutocandidatesOld | official_star_counter.py:69-78 | the rows with some quality band |
| StarCounter.AutovarsTrue | official_star_counter.py:88-125 | the rows that meet case 1 (all bands of quality, Stetson above 1) or case 2 (a quality band with reduced chi-squared above 1, Stetson above 1) |
| StarCounter.AutovarsStrict | official_star_counter.py:88-103 | the rows that meet case 1 |
| StarCounter.AutocanTrue | official_star_counter.py:134-170 | the rows that meet candidate case 1 or candidate case 2 |
| StarCounter.AutocanStrict | official_star_counter.py:134-148 | the rows that meet candidate case 1 |
| StarCounter.Subjectives | official_star_counter.py:177 | exactly the `maxvars` rows whose SOURCEID is not a true variable's |
| StarCounter.AutovarsTruePeriodics | official_star_counter.py:204-206 | the true variables whose SOURCEID either run of the periodic selector picked |
| StarCounter.AutovarsStrictPeriodics | official_star_counter.py:208-210 | the strict variables whose SOURCEID either run of the periodic selector picked |
| StarCounter.MaxvarsWithinMinimum | official_star_counter.py:31-54 | `maxvars` is the ordered sub-table of `minimum` selected by the `maxvars` criterion, so every row of it is in `minimum` |
| StarCounter.StrictWithinTrue | official_star_counter.py:88-127 | the strict variables are exactly the case-1 rows of the true variables |
| StarCounter.TrueVarsAreCandidates | official_star_counter.py:88-170 | the true variables are the ordered sub-table of the true candidates that meet case 1 or 2 |
| StarCounter.StrictCandidatesWithinTrue | official_star_counter.py:134-172 | the strict candidates are the true candidates with all three bands of quality |
| StarCounter.AutocanTrueIsOld | official_star_counter.py:69-78 | `autocan_true` and `autocandidates_old` are the same table |
| StarCounter.TrueWithinMaxvars | official_star_counter.py:51-125 | the true variables are an ordered sub-table of `maxvars` |
| StarCounter.TrueWithinOld | official_star_counter.py:57-125 | the true variables are an ordered sub-table of `autovars_old` |
| StarCounter.SubjectivesDisjoint | official_star_counter.py:177 | no row is both a subjective and a true variable |
| StarCounter.SubjectivesPartition | official_star_counter.py:174-180 | if SOURCEID is a key, every `maxvars` row is a subjective or a true variable, and the two printed counts add up to `maxvars`' count |
| StarCounter.PeriodicsNested | official_star_counter.py:204-210 | the periodic true variables are a sub-table of the true variables; the periodic strict variables are exactly their case-1 rows |
| ColorSlopes.JhkEmpty | color_slope_filtering.py:61-65 | the strict variables whose H-K and J-H rms both exceed 1.5 times the mean colour error |
| ColorSlopes.JhkFilled | color_slope_filtering.py:66-68 | the `jhk_empty` rows whose slope error is below 0.2 times the absolute slope |
| ColorSlopes.JhEmpty | color_slope_filtering.py:74-88 | the true variables with J and H of quality and J-H rms above 1.5 times its error |
| ColorSlopes.JhFilled | color_slope_filtering.py:90-92 | the `jh_empty` rows with a confident J vs J-H slope |
| ColorSlopes.HkEmpty | color_slope_filtering.py:96-110 | the true variables with H and K of quality and H-K rms above 1.5 times its error |
| ColorSlopes.HkFilled | color_slope_filtering.py:112-114 | the `hk_empty` rows with a confident K vs H-K slope |
| ColorSlopes.OneColourOfStrict | color_slope_filtering.py:74-114 | the case-1 rows of a selection from the true variables are that selection from the strict variables |
| ColorSlopes.TwoColourWithinJh | color_slope_filtering.py:61-88 | `jhk_empty` is exactly the case-1 rows of `jh_empty` that also pass the two-colour noise test |
| ColorSlopes.TwoColourWithinHk | color_slope_filtering.py:61-110 | `jhk_empty` is exactly the case-1 rows of `hk_empty` that also pass the two-colour noise test |
| ColorSlopes.FilterColorSlopesAsWritten | color_slope_filtering.py:14-49 | the function as written: a ValueError exactly for a band outside jh, hk and jhk, and `None` for a valid band |
| ColorSlopes.AsWrittenReturnsNoTable | color_slope_filtering.py:47-49 | for every valid band and any data, the function as written returns no table |
| ColorSlopes.FilterJhk | color_slope_filtering.py:61-68 | the J-H vs H-K criteria: all bands of quality, both colours above the noise, a confident slope |
| ColorSlopes.FilterJh | color_slope_filtering.py:74-92 | the J vs J-H criteria |
| ColorSlopes.FilterHk | color_slope_filtering.py:96-114 | the K vs H-K criteria |
| ColorSlopes.FilterColorSlopes | color_slope_filtering.py:14-49 | the documented function: a sub-table of `data` chosen by the band's criteria; any other band is a ValueError |
| ColorSlopes.FilterColorSlopesAgrees | color_slope_filtering.py:54-114 | at the module's thresholds, the documented function gives exactly `jhk_filled` on the strict variables, and `jh_filled` and `hk_filled` on the true variables |
| LongPeriods.LongPeriodicSelector | long_periods.py:45-76 | exactly the input rows that satisfy one of the six rules, each as many times as in the input, in the input's order |
| LongPeriods.FirstRule | long_periods.py:103-133 | the rules are tried in the order J+H, H+K, J+K, J, H, K and the first that holds wins; the final branch is taken exactly when the selector would reject the row |
| LongPeriods.AssignedPeriod | long_periods.py:108-131 | J+H and H+K assign the H period, J+K the K period, a single band its own period, and no rule leaves -1 |
| LongPeriods.BestPeriod | long_periods.py:97-133 | a rejected row keeps -1; H+K and single-band rules give a period strictly inside the window; J+H and J+K put the J period in the window, within 5% of the assigned value; pair rules saw both powers above 12, single bands a power above 15 |
| LongPeriods.BestLongPeriod | long_periods.py:79-138 | every input row is kept, in order, with one new `best_period` value from the cascade |
| LongPeriods.DefaultIffRejected | long_periods.py:45-133 | for a non-negative window, a row keeps the default -1 exactly when the selector rejects it |
| LongPeriods.SelectedRowsGetPeriods | long_periods.py:25-138 | every row of `best_long_period(long_periodic_selector(spread))` comes from the spreadsheet and has a real period |
| Tiles.VariablesPhotometry | variables_data_filterer.py:21-22 | exactly the photometry rows whose SOURCEID is in the variables spreadsheet, each as many times as in the photometry, in the photometry's order |
| Tiles.MaxvarsExtent | variables_data_filterer.py:46-52 | the extent of `maxvars` bounds every row, and each of its four ends is some row's RA or Dec; an empty `maxvars` is a ValueError |
| Tiles.Tile | variables_data_filterer.py:57-65 | tile `t` is the box with RA index `t / 4` and Dec index `t % 4` |
| Tiles.FilterByTile | variables_data_filterer.py:24-80 | 16 photometry tables and 16 spreadsheets, tile `t` holding exactly the rows strictly inside its box, each as many times as in the input, in the input's order |
| Tiles.TileOrder | variables_data_filterer.py:57-59 | the RA index is the outer loop and the Dec index the inner loop |
| Tiles.IntervalsDisjoint | variables_data_filterer.py:61-65 | two different tile intervals on one axis share no point |
| Tiles.TilesDisjoint | variables_data_filterer.py:61-75 | no point lies in two different tiles |
| Tiles.IntervalInsideRange | variables_data_filterer.py:51-65 | for a positive range, every tile interval lies strictly inside it |
| Tiles.TileInsideBox | variables_data_filterer.py:46-65 | for a positive extent, every tile lies strictly inside the `maxvars` bounding box |
| Tiles.MarginInNoInterval | variables_data_filterer.py:61-69 | a coordinate within a tenth of a tile width of a grid line lies in no tile interval |
| Tiles.MarginInNoTile | variables_data_filterer.py:61-75 | a row in a margin lands in no tile |
| BadTimestamps.GoodRows | find_bad_timestamps.py:107-117 | the night's detections strictly inside all three magnitude windows with error bits below 5 in every band |
| BadTimestamps.DistinctTimestamps | find_bad_timestamps.py:76 | the timestamp list is strictly increasing and holds exactly the observed MEANMJDOBS values |
| BadTimestamps.DistinctTimestampsUnique | find_bad_timestamps.py:76 | any strictly increasing list of exactly the observed timestamps is the timestamp list |
| BadTimestamps.PaddedTimestamps | find_bad_timestamps.py:78-81 | with 496 timestamps the list is unchanged; otherwise the dummy night 54920 is added once and the list re-sorted |
| BadTimestamps.NightsPerChipset | find_bad_timestamps.py:65 | `ceil(n / 4)`: the least count whose four-fold is at least n |
| BadTimestamps.AnalyzeNights2 | find_bad_timestamps.py:32-128 | the split succeeds exactly when the padded list has 4 ceil(n/4) entries, else IndexError; chipset k holds the padded entries at 4i+k; both mean arrays are 4 x ceil(n/4) with each entry the mean colour of that night's good detections |
| BadTimestamps.AnalyzeSucceedsIff | find_bad_timestamps.py:64-90 | the split succeeds exactly when the number of distinct timestamps is 0 or 3 modulo 4 |
| BadTimestamps.ChipsetPositions | find_bad_timestamps.py:85-90 | padded position p is night p / 4 of chipset p % 4 |
| BadTimestamps.ObservedNightPadded | find_bad_timestamps.py:76-81 | every observed timestamp survives the padding |
| BadTimestamps.PaddingFillsChipsets | find_bad_timestamps.py:64-88 | with 496 timestamps, or a count that is 3 modulo 4, the padded list fills the chipsets exactly |
| BadTimestamps.EveryNightDealt | find_bad_timestamps.py:76-90 | in those cases every observed timestamp is dealt to some chipset |
| BadTimestamps.AnalysisWellShaped | find_bad_timestamps.py:131-169 | the output of `analyze_nights2` has the shape `remove_nights2` expects: four chipsets whose timestamp and mean rows have equal lengths |
| BadTimestamps.SquaredDeviation | find_bad_timestamps.py:181-182 | a squared normalised deviation is finite and non-negative exactly when the spread is non-zero; a zero spread gives +inf off the centre and NaN on it |
| BadTimestamps.AddSquares | find_bad_timestamps.py:181-182 | floating-point addition of the two squares: NaN absorbs, then +inf, else the finite sum |
| BadTimestamps.OutlierMeaning | find_bad_timestamps.py:181-184 | with non-zero spreads a night is flagged exactly when its squared normalised distance exceeds 9; zero spreads flag or spare it as IEEE arithmetic dictates |
| BadTimestamps.Flagged | find_bad_timestamps.py:184 | `night_set[ellipse > 3]` holds the chipset's nights whose ellipse test passes and no others |
| BadTimestamps.FlaggedPositions | find_bad_timestamps.py:184 | the flagged nights are the chipset's nights at exactly the positions whose ellipse test passes, kept in their order |
| BadTimestamps.Chipsets | find_bad_timestamps.py:164-195 | one cuts tuple per chipset from its robust statistics; the flagged list is every chipset's flagged nights, concatenated in chipset order, so it holds exactly the nights flagged in some chipset |
| BadTimestamps.RemoveNights2 | find_bad_timestamps.py:131-204 | the returned table keeps the rows whose timestamp is not flagged and no others, each as many times as in the input, in the input's order, together with the flagged list and the cuts |
| BadTimestamps.RemovalSplitsTable | find_bad_timestamps.py:200-202 | the kept rows and the rows on flagged nights add up to the whole table |
| BadTimestamps.AnalyzeThenRemove | find_bad_timestamps.py:131-204 | run on the output of `analyze_nights2`, `remove_nights2` emits four cuts tuples and flags only padded timestamps |
| BadTimestamps.SimpleAnalyze | find_bad_timestamps.py:206-240 | the sorted distinct timestamps, and two mean arrays of that length, each entry the mean colour of the night's good detections under the default windows |
| Gluer.Flag | auto_subj_gluer.py:32-37 | a flag column entry is 1 exactly when the membership test holds, else 0 |
| Gluer.Autovars | auto_subj_gluer.py:25-37 | the positive-SOURCEID true variables in order, each with autovar 1, strict 1 exactly when its SOURCEID is a strict variable's, and periodic 1 exactly when it is a periodic true variable's |
| Gluer.StrictFlagIffCase1 | auto_subj_gluer.py:32-33 | if SOURCEID is a key, an automatic row is flagged strict exactly when it meets case 1 |
| Gluer.StrictIdIffCase1 | auto_subj_gluer.py:32-33 | if SOURCEID is a key, a spreadsheet row's SOURCEID is a strict variable's exactly when the row itself meets case 1 |
| Gluer.PeriodicFlagIffSelected | auto_subj_gluer.py:36-37 | an automatic row is flagged periodic exactly when a run of the periodic selector picked its SOURCEID |
| Gluer.Subjvars | auto_subj_gluer.py:47-58 | the P* spreadsheet rows on either confirmed subjective list, in order, with autovar 0, strict 0 and periodic 1 exactly for confirmed periodics |
| Gluer.AutovarsAllPositive | auto_subj_gluer.py:60 | re-selecting the positive SOURCEIDs of `autovars` changes nothing |
| Gluer.Glued | auto_subj_gluer.py:60-61 | the glued list is all of `autovars` followed by all of `subjvars` |
| Gluer.GluedFlagsSeparateHalves | auto_subj_gluer.py:27-61 | in the glued list, autovar is 1 exactly on the leading automatic rows; strict rows are automatic; every row comes from one of the two spreadsheets |
| Renamer.RenameColumns | old_oncvar_id_renamer_oneoff.py:17 | renaming keeps every column's place and data, changing only the name of the renamed column |
| Renamer.Rename | old_oncvar_id_renamer_oneoff.py:14-21 | a ValueError exactly when ONCvar_ID or UKvar_ID is missing; otherwise ONCvar_ID becomes old_ONCvar_ID in place and nothing else changes |
| Renamer.RenamedLookup | old_oncvar_id_renamer_oneoff.py:17 | after the rename the column is found under its new name, the old name is gone, and every other name finds the same column as before |
| Renamer.KeysAfterRename | test/test_old_oncvar_id_renamer_oneoff.py:20-24 | the key list is the old one with ONCvar_ID replaced by old_ONCvar_ID where it stood |
| Renamer.TestSimpleCase | test/test_old_oncvar_id_renamer_oneoff.py:5-28 | the test's two-column table is renamed to exactly the expected table |

## Left out

- File loading and writing through atpy, the module-level reads of the FITS tables, and every `print` are not modelled: they are I/O.
- `match.core_match` is a parameter. Its angular-separation logic is not part of this model. `Tablemater` requires only that it return one index in [-1, number of secondary rows) per primary row.
- `coords.Position(...).dd()` and `np.degrees` are parameters. Their string formatting and arithmetic are foreign code.
- `rb.meanr`, `rb.stdr` and `ndarray.mean` are parameters. The NaN that numpy gives for the mean of an empty night is not modelled.
- Magnitudes, periods and coordinates are Dafny reals. Floating-point rounding is not modelled. NaN appears only where the source writes it as a fill value, and in the ellipse test of `remove_nights2`, where a zero spread gives +inf or NaN.
- BadTimestamps.SqrtAboveThree: `np.sqrt(s) > 3` is stated as `s > 9`. This is equivalent for the non-negative sum of squares, but it is not derived from a square-root function.
- `name_col` is modelled as a column name only. An integer `name_col` makes atpy index a row, which the cross-matching cannot use.
- TableParameters loading: a failed load is modelled as the IOError naming the path. The re-raise of any other loader exception is folded into that case.
- Mutation and aliasing are not modelled. `renamer` mutates its argument and returns the same object, `TableParameters` stores attributes, and `tablemater` overwrites the indexed names in place. All of these are value-returning functions here.
- BadTimestamps.AnalyzeNights2: `n_nights` is `np.ceil(n_timestamps / 4.)`, a numpy float (find_bad_timestamps.py:65), used as an array dimension (lines 67-68) and in `range(n_nights)` (line 99). Python 2.7's `range` rejects a float with a TypeError, as numpy releases from 1.12 on do for a float dimension. The model takes `n_nights` as the integer ceil(n/4) (NightsPerChipset), so its "succeeds exactly when" assumes an interpreter that accepts the float; that TypeError is not modelled.
- Catalog.FillColumn: numpy writes a fill into a fixed-width string column truncated to the column's width, so the "-1" of `tablemater` (orion_tablemate.py:261) and the "nan" of `index_secondary_by_primary` (line 332) become "-" and "n" in a one-character column. String columns here carry no width, and the fill is written whole.
- Catalog.FillColumn: integer columns here hold unbounded integers. numpy casts an integer fill to the column's dtype: in the Python 2 era numpy wraps it (-9999 becomes 241 in a uint8 column, -15 in int8, 55537 in uint16, and -1 becomes the maximum of an unsigned type), and numpy 2 raises OverflowError instead. FITS 'B' columns load as uint8. Neither the width nor the wrap is modelled.
- Tablemate.MateOneContents: the -1 written where a primary row has no match (orion_tablemate.py:261) is -1 here; in an unsigned integer ID column numpy stores that type's maximum instead (see Catalog.FillColumn).
- Tablemate.IndexSecondaryContents: the -9999 written where a primary row has no match (orion_tablemate.py:330) is -9999 here; in a narrow or unsigned integer column numpy stores it wrapped or, in numpy 2, raises OverflowError (see Catalog.FillColumn).
- Catalog.Lookup: a missing name read through an atpy table is a KeyError here. atpy is not part of this model; if its `Table.__getitem__` hands the read to the record array, the exception is numpy's ValueError, as Catalog.Field models for the direct `table.data[name]` read of `index_secondary_by_primary`. numpy releases word that message "no field of name …" or "field named … not found"; the model uses the former.
- Tablemate.ReindexColumns: reads each secondary column by position, where the source reads it by name. The two differ only for a table holding two columns of one name, which atpy never builds.
- atpy's exception for a repeated column name is the `DuplicateColumn` error here; its message text is not modelled.
- Renamer.Rename: atpy's own refusal to rename onto an existing column name is not part of this model. RenamedLookup assumes the new name is not already a key.
- BadTimestamps.RemoveNights2: requires a well-shaped analysis. Its documentation demands the output of `analyze_nights2`, and AnalysisWellShaped proves that output qualifies. numpy broadcasting of mismatched lengths is therefore not modelled.
- LongPeriods.DefaultIffRejected: requires a non-negative minimum period. With a negative window an assigned period could itself be -1 and look like the default.
- StarCounter.SubjectivesPartition and Gluer.StrictFlagIffCase1: require SOURCEID to be a key of the spreadsheet. With duplicate SOURCEIDs, membership by ID and membership by row differ.
- The periodic selector, the tablemate comparisons and the montage script's confirmed subjective lists are not part of this model. Their output tables are parameters.
- The plotting, network (SIMBAD), stub, broken and dataset-specific one-off scripts of the repository are not modelled. Row-count assertions that depend on the private dataset are not modelled either.

## Findings

| source | as written | input that shows it | evidently intended | confidence | as-written member | corrected member |
|---|---|---|---|---|---|---|
| color_slope_filtering.py:14-49 | `filter_color_slopes` validates `band` and then ends without a `return`, so it returns `None` | any table with `band='jhk'` | return the sub-table of `data` selected by that band's quality, noise and slope-confidence criteria, as the docstring says; the module-level `jhk_filled`, `jh_filled` and `hk_filled` are those selections | not executed | ColorSlopes.FilterColorSlopesAsWritten, ColorSlopes.AsWrittenReturnsNoTable | ColorSlopes.FilterColorSlopes, ColorSlopes.FilterColorSlopesAgrees |
