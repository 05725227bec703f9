# SheDecides accessibility workflow — a Dafny model of its logic

The SheDecides workflow is a GRASS GIS driver script. It estimates how many
people, and how many women of child-bearing age, live within given travel
times of health facilities.

The script works in these steps:

1. It builds one velocity surface for each season and vehicle mode, from land
   cover, roads and streams.
2. It runs a least-cost search from each facility subset.
3. It cuts the travel-time rasters into isochrone bands with a nested
   r.mapcalc conditional.
4. It crosses the bands with each facility's catchment and computes zonal
   population sums.
5. A small pandas helper pivots those sums into one line per facility, with a
   total and percentage columns.

GRASS itself is not modelled: the least-cost search, the crossing and the
zonal statistics are inputs here. This project models and proves properties
of the script's own logic:

- **Friction combination** (`Friction`, on top of `MapCalc`). r.mapcalc's
  null semantics are modelled on `Option<real>` cells. The model builds the
  road and stream velocity layers, then the wet- and dry-season formulas.
  Their result is proved equal to a directly written precedence rule.
- **Isochrones** (`Isochrones`). There are two parts:
  - the string builder of the nested `if(cost<=t,t,…null())` expression, and
    its parenthesis balance;
  - the expression's per-cell meaning: the first threshold, in list order,
    that the cost does not exceed, or null.

  The expression is given an AST and an evaluator, and the evaluator is proved
  equal to that first-fit classification. For increasing thresholds the value
  is also proved to be the smallest threshold at or above the cost, monotone
  in the cost, and idempotent.
- **Layer and file names** (`LayerNames`, `Paths`, `Strings`). The model
  covers the names the script builds and the names it later recovers by
  Python slicing, splitting and `os.path` calls. The round trips are proved
  for every scenario.
- **Density conversion** (`Density`): population per pixel to per hectare and
  back, through `area()`.
- **Catchment pivot** (`Labels`, `Zones`, `Cumulative`, `Pivot`, `Catchment`),
  in these steps:
  1. parse the `label` column of the zonal statistics;
  2. sort by (facility, isochrone);
  3. take the per-facility running sums;
  4. pivot with `min` and a fill of 0;
  5. add the total column (sum of the bands, or the last band);
  6. add the percentage columns and column names;
  7. apply the output-path and separator defaults.

Decimal numbers are modelled as `real`. Python's `None`, an exception, and
pandas' NaN or infinity for a zero total are all modelled as `Option.None`.

## Model

| member | source | states |
|---|---|---|
| Friction.PresenceVelocity | SheDecides_Python_chain.py:536-546 | the road and the stream velocity layers are defined exactly where the road or stream map is 1, and there they hold the configured speed |
| Friction.Combined | SheDecides_Python_chain.py:560-569 | the r.mapcalc formula equals the precedence rule. A road cell gets the road speed. In the dry season any other cell gets the land-cover velocity. In the wet season (with a known land-cover class) a stream cell not of class 210 gets the stream speed, and any other cell the land-cover velocity. The result is always null, the road speed, the stream speed or the land-cover velocity |
| Friction.DryIgnoresStreams | SheDecides_Python_chain.py:569 | the dry-season velocity does not depend on the stream layer |
| Friction.CombineRaster | SheDecides_Python_chain.py:555-570 | the combined raster has one cell per input cell, each given by the precedence rule |
| Density.PerHectare | SheDecides_Python_chain.py:121 | density is defined exactly when the count is defined and the cell area is non-zero; density × area = count × 10000 |
| Density.PerPixel | SheDecides_Python_chain.py:342 | the count is defined exactly when the density is; count × 10000 = density × area |
| Density.PixelHectarePixel | SheDecides_Python_chain.py:121-133 | for a non-zero cell area, count → density → count gives the original count |
| Density.HectarePixelHectare | SheDecides_Python_chain.py:342-360 | for a non-zero cell area, density → count → density gives the original density |
| Isochrones.IsochroneFormula | SheDecides_Python_chain.py:659-664 | the prefix/suffix loop produces `output=` followed by the rendering of the nested expression, with the first threshold outermost |
| Isochrones.RenderNest | SheDecides_Python_chain.py:659-664 | the nested expression's text is all the openings in list order, then `null()`, then one `)` per threshold |
| Isochrones.FormulaBalanced | SheDecides_Python_chain.py:659-664 | when the layer names have no parentheses, the formula holds exactly n+1 `(` and n+1 `)` for n thresholds |
| Isochrones.FirstFit | SheDecides_Python_chain.py:661-662 | the position found is the first threshold the cost does not exceed: every earlier threshold is below the cost; none is found only when every threshold is below it |
| Isochrones.Classify | SheDecides_Python_chain.py:661-662 | a cell's isochrone value is defined iff its cost is defined and some threshold is at least the cost. The value is then the threshold itself (SheDecides_Python_chain.py:662), not its position: a threshold that is at least the cost, with every earlier threshold below the cost |
| Isochrones.EvalNest | SheDecides_Python_chain.py:659-664 | evaluating the generated expression with r.mapcalc semantics gives exactly the first-fit classification, for every cost including null |
| Isochrones.ClassifySmallestAbove | SheDecides_Python_chain.py:661-662 | with increasing thresholds, a defined value is the smallest threshold at or above the cost |
| Isochrones.ClassifyMonotone | SheDecides_Python_chain.py:661-662 | with increasing thresholds, a higher cost never gets a lower isochrone value |
| Isochrones.ClassifyIdempotent | SheDecides_Python_chain.py:661-662 | classifying an isochrone value again returns it unchanged, for any threshold list |
| Isochrones.TimeLimitsIncreasing | LIBS/config.py:61 | the configured time limits are strictly increasing, so the three lemmas above apply to them |
| Isochrones.ClassifyExample | SheDecides_Python_chain.py:662 | with thresholds 30, 60 and 9999999, costs 10, 45, 500 and null become 30, 60, 9999999 and null |
| LayerNames.ScenariosComplete | SheDecides_Python_chain.py:591-592 | every combination of season, vehicle mode and facility subset that the loops of lines 555-556 and 591-592 visit is among the modelled scenarios |
| LayerNames.VelocityTail | SheDecides_Python_chain.py:595-597 | `velocity_<car>_<season>[-5:]` is `<car>_<season>`, and `[-5:-3]` is the car tag |
| LayerNames.NameChain | SheDecides_Python_chain.py:738-740 | `Nearest_` + (`Isochrones_` + cost[9:])[11:] is exactly the nearest-facility layer created with that cost layer (line 598), and the cross layer is `Cross_HC<level>_` followed by the velocity layer's last five characters |
| LayerNames.CostLayersDistinct | SheDecides_Python_chain.py:597 | different scenarios never write the same cost layer |
| LayerNames.ScenarioCross | SheDecides_Python_chain.py:738 | the cross layer of a scenario names its level, car and season |
| LayerNames.StatsNameFields | SheDecides_Python_chain.py:762 | the statistics file name splits on `_` into its seven fields |
| LayerNames.PivotNameFields | SheDecides_Python_chain.py:778-779 | the pivot file name splits on `_` into its eight fields |
| LayerNames.PivotOfStats | SheDecides_Python_chain.py:778-779 | the pivot file of a statistics file is in the same directory, with `_pivot` before `.csv` |
| LayerNames.PivotBasename | SheDecides_Python_chain.py:778-779 | the pivot file's basename is the statistics file's stem followed by `_pivot.csv` |
| LayerNames.ScenarioStatsFields | SheDecides_Python_chain.py:762 | the basename of a scenario's statistics file splits into stats, Cross, HC level, car, season, layer prefix and `PPP.csv` |
| LayerNames.ScenarioPivotFields | SheDecides_Python_chain.py:778-779 | the basename of a scenario's pivot file splits into the same fields, then `PPP` and `pivot.csv` |
| LayerNames.ScenarioPrefixRead | SheDecides_Python_chain.py:781 | the column prefix read back from a statistics file name is the layer's own prefix (`POP` or `WOCBA`) |
| LayerNames.ScenarioLevelRead | SheDecides_Python_chain.py:792 | the facility layer read back from a pivot file name is the start-point layer of that scenario's least-cost search (line 604) |
| LayerNames.ScenarioNameRead | SheDecides_Python_chain.py:791 | the scenario name read back is `HC<level>_<car>_<season>_<layer>_PPP` |
| LayerNames.ScenarioRoundTrip | SheDecides_Python_chain.py:781-792 | for every scenario, layer and output directory, the prefix, the scenario name and the facility layer read back are the ones the workflow built |
| Paths.SplitExt | LIBS/csv_pivotingtable_catchmentpop.py:17 | `os.path.splitext`: root + extension is the path, and the extension is empty or a single dot-started suffix holding no further `.` and no `/` |
| Paths.SplitExtInsert | LIBS/csv_pivotingtable_catchmentpop.py:17-18 | inserting a dot-free, slash-free text between root and extension keeps the extension and extends the root |
| Paths.BasenameJoin | SheDecides_Python_chain.py:762 | the basename of `os.path.join(dir, name)` is `name`, for a name without `/` |
| Strings.JoinSplit | SheDecides_Python_chain.py:791 | joining the fields of a split with the same separator gives the text back |
| Strings.SplitJoin | SheDecides_Python_chain.py:791 | splitting fields without the separator, joined with it, gives the fields back |
| Strings.PySuffixStripsPrefix | SheDecides_Python_chain.py:655 | slicing `[len(p):]` off `p + t` gives `t` |
| Strings.ParseIntToString | LIBS/csv_pivotingtable_catchmentpop.py:24 | `int(str(i)) == i` for every integer |
| Labels.ParseLabel | LIBS/csv_pivotingtable_catchmentpop.py:24-25 | a label that parses has a `;`. Which labels parse, and to what, is stated by the lemmas of the next four rows |
| Labels.NoSecondField | LIBS/csv_pivotingtable_catchmentpop.py:25 | a label without `;` is rejected (IndexError) |
| Labels.ParseLabelRejects | LIBS/csv_pivotingtable_catchmentpop.py:24 | a label whose first field does not end in an integer is rejected (ValueError) |
| Labels.ParseLabelRejectsIso | LIBS/csv_pivotingtable_catchmentpop.py:25 | a label whose second field does not end in an integer is rejected (ValueError), whatever its first field |
| Labels.ParseLabelRoundTrip | LIBS/csv_pivotingtable_catchmentpop.py:24-25 | a label written as `<words> <hf>;<words> <iso>[;…]` parses back to exactly (hf, iso), whatever the words and the later fields |
| Labels.ParseRows | LIBS/csv_pivotingtable_catchmentpop.py:65-68 | the file parses iff every label parses; each zone then carries its row's parsed pair and `sum`, in row order |
| Labels.ParseRowsRoundTrip | LIBS/csv_pivotingtable_catchmentpop.py:65-66 | the rows written for a sequence of zones parse back to exactly those zones |
| Zones.Sort | LIBS/csv_pivotingtable_catchmentpop.py:28 | the rows are ordered by (HF_cat, ISO_cat) and are a permutation of the input |
| Zones.SortUnique | LIBS/csv_pivotingtable_catchmentpop.py:28 | sorting keeps distinct (facility, isochrone) pairs distinct |
| Zones.BandSort | LIBS/csv_pivotingtable_catchmentpop.py:28 | sorting does not change any facility's population up to any isochrone |
| Zones.Distinct | LIBS/csv_pivotingtable_catchmentpop.py:31 | the distinct values, increasing, each once, with the same members as the input |
| Zones.IncreasingSame | LIBS/csv_pivotingtable_catchmentpop.py:38 | two increasing sequences with the same members are equal, so the pivot's column order depends only on the set of isochrones |
| Zones.BandMonotone | LIBS/csv_pivotingtable_catchmentpop.py:34 | with non-negative sums, a facility's population up to an isochrone never decreases as the isochrone grows |
| Zones.BandWhole | LIBS/csv_pivotingtable_catchmentpop.py:42 | a facility's population up to an isochrone at or above all its zones is its whole population |
| Zones.BandEmpty | LIBS/csv_pivotingtable_catchmentpop.py:38 | a facility's population up to an isochrone below all its zones is 0 |
| Cumulative.CumulativeSums | LIBS/csv_pivotingtable_catchmentpop.py:30-36 | the per-facility loop writes, at each row, the sum of that facility's `sum` over the rows up to and including it |
| Cumulative.CumulativeIsBand | LIBS/csv_pivotingtable_catchmentpop.py:30-36 | in sorted rows with distinct pairs, a row's cumulative sum is its facility's population over the isochrones up to its own |
| Cumulative.CumulativeOfInput | LIBS/csv_pivotingtable_catchmentpop.py:28-36 | the same, measured on the unsorted input: rows of other facilities never contribute |
| Cumulative.CumulativeMonotone | LIBS/csv_pivotingtable_catchmentpop.py:34 | with non-negative sums, a facility's cumulative sums do not decrease along its rows |
| Pivot.MinSum | LIBS/csv_pivotingtable_catchmentpop.py:71 | `aggfunc=np.min`: nothing when the pair has no row, else the `sum` of one of its rows that is at most every other `sum` of the pair |
| Pivot.MinSumUnique | LIBS/csv_pivotingtable_catchmentpop.py:71 | with distinct pairs, a pair's value is the `sum` of its one row |
| Pivot.Percent | LIBS/csv_pivotingtable_catchmentpop.py:80 | a percentage is defined iff the total is non-zero, and then percentage × total = value × 100 |
| Pivot.PercentsOfSum | LIBS/csv_pivotingtable_catchmentpop.py:75-80 | the percentages of several values add up to the percentage of their sum |
| Pivot.ColumnLayout | LIBS/csv_pivotingtable_catchmentpop.py:72-80 | the columns are `<p>_<iso>` per isochrone, `<p>_TOT`, then `<p>_prct<iso>` and `<p>_prctTOT`; slicing `[len(p)+1:]` recovers the isochrone or `TOT` |
| Pivot.PivotTable | LIBS/csv_pivotingtable_catchmentpop.py:71 | one row per distinct facility in increasing order and one column per distinct isochrone in increasing order, over the whole input; every row has one value and one percentage per column; the last-column rule fails only on an empty input |
| Pivot.PivotCell | LIBS/csv_pivotingtable_catchmentpop.py:71 | each cell is the `min` of its pair, filled with 0 when the pair has no row |
| Pivot.MakeRowPercents | LIBS/csv_pivotingtable_catchmentpop.py:75-80 | the total follows its rule. When the total is non-zero, each band is its share of the total, the total column is 100 %, and the band percentages of the sum rule add to 100; when the total is zero no percentage is defined |
| Catchment.OutputPath | LIBS/csv_pivotingtable_catchmentpop.py:57-59 | a given `out_file` is used as is; an empty one yields a path six characters longer than the input |
| Catchment.DefaultOutputPath | LIBS/csv_pivotingtable_catchmentpop.py:16-18 | the default output keeps the input's extension, its root gains `_clean`, and it never equals the input path |
| Catchment.OutputSeparator | LIBS/csv_pivotingtable_catchmentpop.py:19-20 | a given `out_sep` is used, an empty one becomes `in_sep` |
| Catchment.PopTable | LIBS/csv_pivotingtable_catchmentpop.py:68-72 | the per-band table has a row for exactly the facilities of the input and a column for exactly its isochrones |
| Catchment.CumulPopTable | LIBS/csv_pivotingtable_catchmentpop.py:27-42 | the cumulative table exists iff the input has rows, with a row per facility and a column per isochrone of the input |
| Catchment.TableColumns | LIBS/csv_pivotingtable_catchmentpop.py:39-47 | both tables are named `<p>_<iso>`…, `<p>_TOT`, `<p>_prct<iso>`…, `<p>_prctTOT`, in that order |
| Catchment.PopTableCell | LIBS/csv_pivotingtable_catchmentpop.py:71 | a per-band cell is 0 for a pair with no row, else the smallest `sum` among that pair's rows |
| Catchment.PopTablePercents | LIBS/csv_pivotingtable_catchmentpop.py:75-80 | the per-band total is the sum of the bands. A non-zero total gives `prctTOT` = 100, band percentages that add to 100, and each band's share; a zero total gives no percentage |
| Catchment.PopTableTotal | LIBS/csv_pivotingtable_catchmentpop.py:74-75 | with distinct pairs, a facility's per-band `<p>_TOT` is its whole population |
| Catchment.CumulatedCell | LIBS/csv_pivotingtable_catchmentpop.py:28-38 | with distinct pairs, the cumulative value pivoted for a pair is the facility's population up to that isochrone when the pair has a row, and the fill value 0 otherwise |
| Catchment.CumulPopTableCell | LIBS/csv_pivotingtable_catchmentpop.py:30-38 | with distinct pairs, a cumulative cell is the facility's population up to the column's isochrone when the pair has a row, and 0 otherwise |
| Catchment.CumulPopTableMonotone | LIBS/csv_pivotingtable_catchmentpop.py:34-38 | with distinct pairs and non-negative sums, a facility's cumulative values do not decrease across the isochrones it has rows for |
| Catchment.CumulPopTableTotal | LIBS/csv_pivotingtable_catchmentpop.py:41-47 | the cumulative total is the highest isochrone's column, and `prctTOT` is 100 when it is non-zero |
| Catchment.CumulTotalAsWritten | LIBS/csv_pivotingtable_catchmentpop.py:38-42 | as written, a facility with no zone in the highest isochrone gets a total of 0 and no percentages |
| Catchment.CumulTotalWithoutTop | LIBS/csv_pivotingtable_catchmentpop.py:38-42 | the same, for any isochrone bounding all rows: the facility has a line, and its total is 0 |
| Catchment.CumulTotalCounterexample | LIBS/csv_pivotingtable_catchmentpop.py:38-42 | two zones, (h1, lo, p > 0) and (h2, hi, q) with lo < hi: h1 has population p but a cumulative total of 0 |
| Catchment.IntendedCumulTable | LIBS/csv_pivotingtable_catchmentpop.py:13-47 | the corrected cumulative table exists iff there are rows, with columns in increasing isochrone order and named as above, and facilities in increasing order. Every cell is the facility's population up to the column's isochrone, whether or not the pair has a row, and the total is the last column |
| Catchment.IntendedCumulTotal | LIBS/csv_pivotingtable_catchmentpop.py:41-42 | in the corrected table every facility's total is its whole population |
| Catchment.IntendedTotalIsPopTotal | LIBS/csv_pivotingtable_catchmentpop.py:42-75 | with distinct pairs, a facility's corrected cumulative total equals its per-band total |
| Catchment.CumulTotalIsPopTotal | LIBS/csv_pivotingtable_catchmentpop.py:42-75 | with distinct pairs, the as-written cumulative total of a facility that has a zone in the highest isochrone equals its per-band total |
| Catchment.IntendedCumulMonotone | LIBS/csv_pivotingtable_catchmentpop.py:34-38 | with non-negative sums, the corrected table's columns never decrease along a row |
| Catchment.IntendedCumulPercents | LIBS/csv_pivotingtable_catchmentpop.py:45-47 | the corrected table's percentages are each band's share of the row's total, and `prctTOT` is 100 for a non-zero total |
| Catchment.IntendedAgreesWhereZoned | LIBS/csv_pivotingtable_catchmentpop.py:38 | both tables have the same columns, and they agree on every cell whose pair has a row |
| Catchment.CatchmentPopByIso | LIBS/csv_pivotingtable_catchmentpop.py:54-85 | the per-band function succeeds iff the file has rows and every label parses (an empty file raises at line 65). It then writes to the defaulted path with the defaulted separator, and its table has a line for exactly the facilities and a column for exactly the isochrones the labels name |
| Catchment.CatchmentCumulPopByIso | LIBS/csv_pivotingtable_catchmentpop.py:13-52 | the cumulative function as written (total from the last column) succeeds iff the file has rows and every label parses (an empty file raises at line 24). It then uses the same path and separator defaults, and its table has a line for exactly the facilities and a column for exactly the isochrones the labels name |
| Catchment.IntendedCatchmentCumulPopByIso | LIBS/csv_pivotingtable_catchmentpop.py:13-52 | the corrected cumulative function has the same success condition, defaults, lines and columns as the function as written |
| Catchment.CatchmentPopOfZones | LIBS/csv_pivotingtable_catchmentpop.py:63-82 | on the rows written for a set of zones, the per-band function fails when there are none, and otherwise writes exactly the per-band table of those zones |
| Catchment.CatchmentCumulOfZones | LIBS/csv_pivotingtable_catchmentpop.py:22-49 | on the rows written for a set of zones, the cumulative function as written fails when there are none, and otherwise writes exactly the as-written cumulative table of those zones |
| Catchment.IntendedCatchmentCumulTotals | LIBS/csv_pivotingtable_catchmentpop.py:22-49 | on the rows written for a non-empty set of zones, the corrected cumulative function writes a line for exactly the facilities present, each total being the facility's whole population |

## Left out

- The GRASS modules are not modelled. This covers r.in.gdal, g.region, r.proj and v.proj, r.reclass and r.recode, r.stream.extract, r.grow, v.to.rast, r.cost, r.walk, r.to.vect, r.cross, r.univar, db.in.ogr, v.db.join and the exports. Their outputs are inputs of the model: the land-cover velocity per cell, the cost distance per cell, and the zonal statistics rows.
- The least-cost search is not modelled. The combined velocity raster is handed to it unchanged (SheDecides_Python_chain.py:602-604), so nothing in the model converts it.
- The cost loop runs a second time (SheDecides_Python_chain.py:619-645), with the same names and arguments. The second run rebuilds the same lists and overwrites the same layers, so the model has it once.
- The proportion maps and vector conversions of SheDecides_Python_chain.py:668-725 are left out: GRASS calls only.
- LIBS/config.py, LIBS/import_json.py and LIBS/environ_variables.py are not part of this model. The time limits (LIBS/config.py:61) and the road and stream speeds (LIBS/config.py:55-59) appear as constants.
- Directory creation, temporary-layer cleanup, printing and timing are left out.
- Floating-point arithmetic is not modelled. Cells, sums and percentages are mathematical reals, and r.mapcalc's integer or float cell types are not distinguished. Cells are `real`, not integers, because the configured speeds (0.17, 1.2 and 15.0) are fractional.
- pandas' NaN and infinity for a zero total are modelled as an undefined percentage (`None`), not as values.
- Reading and writing CSV files (`read_csv`, `to_csv`, `df_return`) is left out. The model takes the rows as a sequence and returns the table with its path and separator.
- Labels.ParseLabel: accepts only an optional sign followed by ASCII digits. The script runs under Python 2, whose `int()` on a byte string also strips surrounding whitespace, such as a tab or newline left in the last word after splitting on spaces. r.univar's labels carry no such whitespace.
- Zones.Sort: a stable insertion sort. pandas sorts on the two keys of lines 28 and 69 with a stable lexicographic sort, so the order is the same.
- Catchment.CumulPopTableCell: requires distinct (facility, isochrone) pairs. r.univar writes one row per zone of the r.cross map (SheDecides_Python_chain.py:763), so the pairs in the statistics files the workflow writes are distinct. With a duplicated pair, the `min` of line 38 would take the smaller of that pair's running sums, which is not the population up to the isochrone.
- Catchment.CumulPopTableMonotone: requires distinct pairs, for the same reason.
- Catchment.PopTableTotal: requires distinct pairs, for the same reason. With a duplicated pair, `min` keeps only one of its rows, so the total misses the others.
- Zones.Distinct: models `list(set(...))` (line 31) in increasing order. The loop's result does not depend on the order, because every facility writes only its own rows.
- The pivot's index alignment (`cumul_by_HF.add(a, fill_value=0)`, and assigning the series back to `df`) is modelled as writing each running sum at its own row.
- Density.PixelHectarePixel: the round trip is stated for the same cell area on both sides. The workflow converts before and after a reprojection (r.proj, SheDecides_Python_chain.py:352-354), whose resampling is outside the model.

## Findings

| source | as written | input that shows it | evidently intended | confidence | as-written member | corrected member |
|---|---|---|---|---|---|---|
| LIBS/csv_pivotingtable_catchmentpop.py:38-42 | The cumulative pivot fills a missing (facility, isochrone) pair with 0 and takes `<p>_TOT` from the last column. A facility with no zone in the highest isochrone, for instance one whose whole catchment lies within the first band, therefore gets a total of 0. Its percentages are undefined, and its cumulative values drop to 0 after its last band. | two zones (h1, lo, p) and (h2, hi, q) with h1 ≠ h2, lo < hi and p > 0: facility h1 has population p, but its `<p>_TOT` is 0 | every isochrone column holds the facility's population up to that isochrone, and `<p>_TOT` is the facility's whole population | medium; not executed | Catchment.CumulTotalCounterexample | Catchment.IntendedCumulTable |
