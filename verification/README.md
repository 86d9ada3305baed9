# Invasive-species acquisition pipeline and abundance report card, in Dafny

This project models the two pieces of pure logic in a small set of
invasive-species analysis scripts. It proves properties of both.

- **The acquisition pipeline** (`download_invasive.py`). Occurrence records
  are fetched for six HUC8 basins and concatenated. Records without a year
  are dropped. A date string is rebuilt from year, month and day; a missing
  month defaults to 6 and a missing day to 15. Fine taxonomic group labels
  are folded through a fixed table. Each record gets a point geometry. The
  records are clipped to the area of interest, kept from the year 2000 on,
  and left-joined to the waterbody layer. The result is projected onto 15
  fixed columns and written twice: with geometry (GeoJSON) and without it
  (CSV).
- **The report card** (`abundance_report_card.py`). Rows of the CSV get a
  year from their date. Observations are counted per (year, waterbody) cell
  and divided by the waterbody's acreage. Every cell is banded `R`, `Y` or
  `G` against `mean - std` and `mean + std`.

Modules, one per file:

| file | module | models |
|---|---|---|
| options.dfy | `Options` | optional fields (`null`/NaN) and the run's result |
| seqs.dfy | `Seqs` | `FlatMap`, `Filter`, `Map`, ordered subsequence, and their lemmas |
| decimal.dfy | `Decimal` | `str(int)`, the `02d` format, the date string and a parser that inverts it |
| occurrences.dfy | `Occurrences` | the record at each stage |
| fetch.dfy | `Fetch` | `fetch_invasive_species_data` |
| normalize.dfy | `Normalize` | `clean_and_format_dates`, `rename_groups`, `group_name_changes` |
| spatial.dfy | `Spatial` | point building, `clip_to_aoi`, `filter_by_year`, `add_waterbody_name` |
| output.dfy | `Output` | the column selection and geometry drop of `json_to_geojson_and_csv` |
| pipeline.dfy | `Pipeline` | `json_to_geojson_and_csv` and `main` end to end |
| report_card.dfy | `ReportCard` | `preprocess_data`, `compute_observations_per_acre`, `assign_ryg` |

Every stage over a record list is a `FlatMap` of a per-record function or a
`Filter`. Lemmas such as "fetching `a + b` is fetching `a`, then `b`" express
that the stage works record by record and keeps the order.

Things the model takes as parameters instead of computing them:

- The HTTP response for each basin (`respond`).
- Whether a point lies in the area of interest (`inAoi`).
- Whether a point intersects a waterbody's shape (`intersects`).
- The date parser the report card uses (`yearOf`).

Three behaviours of the script are worth knowing:

- **The join is not one-to-one.** `gpd.sjoin(..., how="left")` gives one row
  for each waterbody a point intersects. It does not pick one first match.
  `Spatial.JoinCanDuplicate` shows two rows for one point.
  `|join| == |records|` holds when no point meets two waterbodies
  (`Spatial.JoinOneToOne`), and only then: a point meeting two entries of
  the layer makes the join longer (`Spatial.JoinGrowsOnDoubleHit`).
- **No dated record is fatal.** When no basin returns a record,
  `pd.DataFrame([])` has no `year` column and the date cleaning raises on
  the lookup. When records arrive but none has a year, the frame is empty
  after the year drop. The row-wise `apply` then returns a frame instead of
  a column, and assigning it to `date` raises. `Pipeline.JsonToOutputs` and
  `Pipeline.Run` return `Failure` in exactly these cases.
- **Bad coordinates are not filtered.** The code has no separate filter for
  unusable coordinates. Only the year and the area of interest drop records.

## Model

| member | source | states |
|---|---|---|
| Fetch.FetchAll | download_invasive.py:28-40 | every record of a status-200 response with a `results` list is in the output, and every output record comes from such a response |
| Fetch.Contribution | download_invasive.py:35-37 | one basin's records: the `results` list of a status-200 response, empty when absent or on any other status; no ensures of its own, characterised by `Fetch.FetchAll`, `Fetch.FetchSkipsFailure` and `Fetch.FetchMissingResults` |
| Fetch.FailedBasins | download_invasive.py:35-39 | the reported basins are exactly those whose status is not 200 |
| Fetch.FetchAppend | download_invasive.py:32-37 | fetching `a + b` is fetching `a` followed by fetching `b`, so the output is ordered by basin |
| Fetch.FetchSkipsFailure | download_invasive.py:35-39 | a failing basin adds nothing and the basins after it are still fetched |
| Fetch.FetchMissingResults | download_invasive.py:37 | a status-200 body without `results` adds an empty list |
| Fetch.FetchEmptyIff | download_invasive.py:32-40 | nothing is fetched exactly when no basin contributes a record |
| Fetch.FetchStep | download_invasive.py:33-39 | one more basin appends its results, or appends its name to the failures |
| Fetch.FetchLoop | download_invasive.py:32-40 | the accumulating loop returns the concatenation in basin order and the list of failed basins |
| Normalize.NormalizeDate | download_invasive.py:53-57 | a missing month becomes 6 and a missing day 15; present values, the year and all attributes are kept |
| Normalize.CleanDates | download_invasive.py:49-50 | every record with a year is kept (normalized); every output record comes from an input record with a year |
| Normalize.CleanDatesKeepsYearedInOrder | download_invasive.py:50 | the output is the year-bearing input records one for one and in their original order, the i-th output being the i-th of them with its date normalized |
| Normalize.CleanDatesAccounting | download_invasive.py:50 | kept plus dropped-for-missing-year equals the input count |
| Normalize.CleanDatesEmptyIff | download_invasive.py:50 | the year drop leaves nothing exactly when no record has a year |
| Normalize.NormalizedDateParses | download_invasive.py:57 | for a non-negative year and a month and day below 100, the date string parses back to the record's year, month and day |
| Normalize.NormalizeDateExample | download_invasive.py:53-57 | year 2010 without month or day gives `"2010-06-15"` |
| Normalize.Relabel | download_invasive.py:64 | a table key becomes its mapped value; any other label is returned unchanged |
| Normalize.RelabelIdempotent | download_invasive.py:64 | for a table whose values are not keys, relabelling twice equals relabelling once |
| Normalize.GroupTableHasNoChains | download_invasive.py:17-26 | no value of the group table is itself a key |
| Normalize.GroupRelabelExamples | download_invasive.py:17-26 | `Mollusks-Bivalves` becomes `Mollusks`, `Amphibians-Frogs` becomes `Amphibians`, `Birds` is unchanged |
| Normalize.RenameGroups | download_invasive.py:60-65 | same length and order; each group is relabelled and every other field is unchanged |
| Normalize.RenameGroupsIdempotent | download_invasive.py:60-65 | for a table whose values are not keys, renaming a record list twice equals renaming once |
| Decimal.NatToString | download_invasive.py:57 | `str(n)` is decimal digits without a leading zero, one character exactly below ten |
| Decimal.IntToString | download_invasive.py:57 | `str(int(year))`: non-empty; all digits for a non-negative value, a leading `-` for a negative one |
| Decimal.Pad2 | download_invasive.py:57 | `02d` is at least two characters, and exactly two digits exactly for 0..99 |
| Decimal.DateString | download_invasive.py:57 | the `{year}-{month:02d}-{day:02d}` string; no ensures of its own, characterised by `Decimal.DateRoundTrip` and `Decimal.DateStringExample` |
| Decimal.ParseNatToString | download_invasive.py:57 | reading `str(n)` back gives `n` |
| Decimal.DateRoundTrip | download_invasive.py:57 | for a non-negative year and month and day below 100, the date string parses back to the same three numbers |
| Decimal.DateStringExample | download_invasive.py:57 | 2010, 6, 15 gives `"2010-06-15"` |
| Spatial.Locate | download_invasive.py:119-124 | one point per record, in order, x the longitude and y the latitude |
| Spatial.ClipToAoi | download_invasive.py:67-79 | keeps exactly the records whose point is in the area, each as often as before, as an ordered subsequence |
| Spatial.FilterByYear | download_invasive.py:81-86 | keeps exactly the records with year at least `min_year`, with their multiplicity, as an ordered subsequence |
| Spatial.FilterByYearBoundary | download_invasive.py:85 | year equal to the threshold is kept; the year before is dropped |
| Spatial.JoinOne | download_invasive.py:99 | a record yields at least one row, and each of its rows carries that record |
| Spatial.SpatialJoin | download_invasive.py:99 | the left join as the concatenation of each record's rows; no ensures of its own, characterised by the `Spatial.Join*` lemmas below |
| Spatial.JoinOneLabels | download_invasive.py:99 | a record's only row is unlabelled exactly when it intersects no waterbody; each label names an intersecting waterbody; every intersecting waterbody gives a labelled row; the row count is the number of hits, or 1 without any |
| Spatial.JoinKeepsRecord | download_invasive.py:99 | every input record appears in at least one joined row |
| Spatial.JoinRowSound | download_invasive.py:99 | every joined row comes from an input record; its label is sound; an unlabelled row means no waterbody is intersected |
| Spatial.JoinKeepsOrder | download_invasive.py:99 | the input is an ordered subsequence of the joined rows' records |
| Spatial.JoinMultiplicity | download_invasive.py:99 | a record appears (input occurrences) × (its own row count) times |
| Spatial.JoinUnmatchedOnce | download_invasive.py:99 | a record occurring once that meets no waterbody appears exactly once, unlabelled |
| Spatial.JoinOneToOne | download_invasive.py:99 | when no point meets two waterbodies, the join is one row per record in order |
| Spatial.JoinNoShorter | download_invasive.py:99 | the left join has at least as many rows as records |
| Spatial.JoinGrowsOnDoubleHit | download_invasive.py:99 | a record whose point meets two or more entries of the waterbody layer makes the join strictly longer than the record list |
| Spatial.JoinCanDuplicate | download_invasive.py:99 | a point inside two waterbodies yields one labelled row per waterbody (listed in layer order, the model's choice) |
| Output.ProjectRow | download_invasive.py:136-141 | a projected row has exactly the 15 output columns |
| Output.Cell | download_invasive.py:135-140 | one column of the selection read from a joined row; no ensures of its own, characterised by `Output.ProjectRowReadBack` |
| Output.ProjectRowReadBack | download_invasive.py:136-141 | date, waterbody label and geometry read back from the row are the record's own |
| Output.GeoFrame | download_invasive.py:141 | the geometry frame has the 15 columns and one row per joined row |
| Output.DropColumn | download_invasive.py:150 | dropping a column keeps the number of rows |
| Output.DropColumnFacts | download_invasive.py:150 | a well-formed frame stays well formed; exactly that column goes; the rest keep their order and cells |
| Output.WriteOutputs | download_invasive.py:140-150 | the geometry frame and the flat frame without `geometry`; no ensures of its own, characterised by `Output.OutputViewsAgree` |
| Output.OutputViewsAgree | download_invasive.py:136-150 | both views are well formed with the same rows in the same order; the flat one has the first 14 columns and each row equals the geometry row minus `geometry` |
| Pipeline.NormalizeAll | download_invasive.py:113-117 | date cleaning then group relabelling; no ensures of its own, characterised by `Pipeline.ResolvedRowQualifies` and the `Normalize` lemmas |
| Pipeline.Resolve | download_invasive.py:119-133 | points, clip, year filter, waterbody join in the script's order; no ensures of its own, characterised by `Pipeline.ResolvedRowQualifies` and `Pipeline.QualifyingRecordJoined` |
| Pipeline.JsonToOutputs | download_invasive.py:106-151 | the conversion fails exactly when no fetched record has a year (empty input included) |
| Pipeline.Run | download_invasive.py:153-158 | a run fails exactly when no basin contributes a record with a year |
| Pipeline.RunScript | download_invasive.py:153-158 | the script's run over its six basins fails exactly when none of them contributes a record with a year |
| Pipeline.ResolvedRowQualifies | download_invasive.py:110-133 | every joined row holds a fetched record that had a year, date-normalized and group-relabelled; it lies in the area, has year at least 2000, and its group is no table key. `Output.OutputViewsAgree` maps joined rows one to one onto written rows |
| Pipeline.QualifyingRecordJoined | download_invasive.py:110-133 | every fetched record with a year of 2000 or later whose point is in the area reaches a joined row, normalized and relabelled |
| Pipeline.EndToEndExample | download_invasive.py:106-151 | a 2005 record in OTB plus a yearless record give one row per file, dated `2005-06-15` and labelled OTB |
| ReportCard.Preprocess | abundance_report_card.py:21-26 | every kept row is an input row with its date's year; every input row with a readable date is kept |
| ReportCard.PreprocessKeepsDated | abundance_report_card.py:21-26 | keeps exactly the rows with a readable date, in order and unchanged, each with its date's year; others are dropped, not repaired |
| ReportCard.CountTable | abundance_report_card.py:33 | axes are the years and waterbodies that occur in labelled rows; every pair is a cell; each cell is its row count |
| ReportCard.CellPositiveIffOccurs | abundance_report_card.py:33 | a cell is non-zero exactly when its pair occurs in a row; combinations that never occur are 0 |
| ReportCard.CellCountAppend | abundance_report_card.py:33 | counting is additive over a split of the rows |
| ReportCard.ObsPerAcre | abundance_report_card.py:36 | same years; the columns are the union of count columns and acreage keys; every pair is a cell |
| ReportCard.ObsPerAcreCells | abundance_report_card.py:36 | with positive acreages, a cell is NaN exactly when its waterbody lacks counts or acreage; otherwise it is count/acreage |
| ReportCard.Divide | abundance_report_card.py:36 | a non-zero acreage gives the finite quotient (times the acreage it is the count); a zero one gives NaN for 0/0 and +infinity otherwise |
| ReportCard.Letter | abundance_report_card.py:48-54 | every band is written as one of `R`, `Y`, `G` |
| ReportCard.Categorize | abundance_report_card.py:48-54 | no ensures of its own; characterised by `ReportCard.RedIffAboveHigh`, `ReportCard.BandIntervals`, `ReportCard.BandMonotone` and `ReportCard.NaNIsYellow` |
| ReportCard.RedIffAboveHigh | abundance_report_card.py:44-50 | for any spread, R exactly when the value is strictly above mean+std |
| ReportCard.BandIntervals | abundance_report_card.py:44-54 | for std ≥ 0: G iff below mean−std, Y iff in between with both ends included |
| ReportCard.BandAtThresholds | abundance_report_card.py:44-54 | a value exactly at either threshold is Y when std ≥ 0 |
| ReportCard.BandMonotone | abundance_report_card.py:44-54 | for std ≥ 0, a larger value never gets a less severe band; +infinity is R |
| ReportCard.NaNIsYellow | abundance_report_card.py:48-54 | every comparison with NaN is false, so NaN is Y |
| ReportCard.NegativeSpreadInverts | abundance_report_card.py:44-52 | with std < 0 a value below mean−std can be R, so std ≥ 0 is needed for the G claim |
| ReportCard.AssignRyg | abundance_report_card.py:56 | same years, waterbodies and cells; each cell is the letter of its value's band |
| ReportCard.ReportCardTable | abundance_report_card.py:108-116 | years are exactly those of dated, labelled rows; columns are the waterbodies of dated rows plus the acreage keys; every pair is a cell holding `R`, `Y` or `G` |
| ReportCard.UnobservedWaterbodyIsYellow | abundance_report_card.py:33-56 | an acreage waterbody never observed gets Y in every year (a NaN column) |
| ReportCard.ZeroCountIsGreen | abundance_report_card.py:36-54 | a zero count of an observed waterbody is G under the script's constants |

## Left out

- HTTP requests and JSON decoding are not modelled. Each basin's response is
  an input. A body that is not JSON, or a `results` that is `null`, would
  raise in the script; neither is modelled.
- A request that raises (connection error, timeout) ends the script. It is
  not modelled; every basin yields a response.
- The `print` diagnostics are not modelled. The failed basins appear as
  `Fetch.FailedBasins` instead.
- Reading the shapefiles, reprojection (`to_crs`) and the clip and join
  geometry are library floating-point geometry. They are replaced by the
  `inAoi` and `intersects` parameters.
- The written `geometry` is the point at (longitude, latitude) as built. The
  script writes the point after `to_crs` to the waterbody layer's system.
  Both layers are stored in EPSG:4326, like the points, so that
  reprojection changes nothing. A layer in another system would change
  the written coordinates, and the model does not cover that.
- Clip row order: the model keeps input order. The library's clip may return
  the surviving rows in spatial-index order.
- Spatial.JoinOne: when one point meets several waterbodies, the model
  lists their rows in layer order. The library lists them in the order of
  its spatial-index query. Every waterbody polygon is also assumed to have
  a name. A null `WATERBODYN` would give a matched row without a label,
  which the first clause of `Spatial.JoinOneLabels` rules out.
- The join's extra `index_right` column and its duplicated index are not
  modelled. The projection removes that column anyway.
- File writes are not modelled. The flat frame's rows stand for what the
  report card reads back. CSV quoting and type inference are not modelled,
  and neither is an empty waterbody name reading back as NaN.
- A `null` in an attribute field is not modelled. Every `Attributes` field
  is a plain value. In the script a `null` coordinate gives a NaN point,
  which the clip drops.
- A fetched list where no record has a `month` (or `day`) key at all is not
  modelled. There the column would be missing and the fill would raise.
- `pd.to_datetime` calendar parsing is the abstract `yearOf` parameter.
  Dates it rejects are dropped.
- Floating point is idealised as exact reals. This covers the acreage
  division and the threshold sums `mean ± std`. NaN and +infinity are
  explicit `Float` values; rounding is not modelled.
- Row and column order of the report-card table is not modelled. The
  library sorts both; the model's axes are sets.
- All plotting is left out: `plot_report_card` and the whole of
  `eda_plot_1.py`, `eda_plot_2.py` and `map_plot.py`. So are the
  mean/standard-deviation computations in `eda_plot_2.py`.
- Decimal.DateRoundTrip: holds only for a non-negative year and a month and
  day below 100. Other values are still formatted exactly, but the
  fixed-width parser does not read them back.
