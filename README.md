# Riverside park accessibility — a verified model of the pipeline logic

The Riverside park-accessibility project is a batch pipeline of Python
scripts. It measures how many residents of Riverside live within a
fifteen-minute walk of a park. It works in these steps:

1. Annotate the street network with walking times.
2. Grow a walking isochrone around each park with a cutoff Dijkstra search.
3. Score each census tract by how much of it the isochrones cover.
4. Roll the tract figures up to neighbourhoods and flag the underserved ones.
5. Serve a summary through a small web API.

The scripts around these steps prepare the tract and neighbourhood layers,
colour the maps, and (in the archived variant) build and score a 500-metre
population grid.

This project models the deterministic logic between the geometry and
library calls, in Dafny. The results of those calls enter the model as data
or as function parameters:

- areas and intersection areas;
- tract-to-neighbourhood join pairs;
- centroid-within tests;
- the nearest-node lookup;
- the convex hull;
- the clip.

One Dafny module models each script:

| module | script | form |
|---|---|---|
| `Common` | — | shared types: Option/Result, script errors with their Python exception classes, a JSON value, Python truthiness, round-half-even, ceiling, integer text |
| `Frames` | — | a positional table (columns and rows of cells) with the pandas operations the preparation scripts use |
| `StreetNetwork` | analysis/02_generate_isochrones.py, analysis/archive/02_isochrone_one_park.py | class `StreetGraph` over an edge array; the annotation loop is a method |
| `Reachability` | the same two scripts | the cutoff Dijkstra search as a method with a distance map and frontier, proved against a path-based specification |
| `IsochroneBatch` | analysis/02_generate_isochrones.py | the per-park skip/append loop as a method, proved against a recursive specification |
| `IsochroneOnePark` | analysis/archive/02_isochrone_one_park.py | the single-park driver |
| `TractAccessibility` | analysis/04_compute_tract_accessibility.py | the per-tract coverage loop as a method |
| `NeighborhoodRollup` | analysis/06_compute_neighborhood_accessibility.py | pure functions over joined rows |
| `FlagUnderserved` | analysis/07_flag_underserved.py | pure helpers; a class `FeatureCollection` whose method rewrites the feature array in place |
| `PrepareNeighborhoods` | analysis/05_prepare_neighborhoods.py | pure: the CRS decision table, name normalisation, column selection |
| `PrepareTracts` | analysis/03_prepare_tracts.py | pure: shapefile selection, validations, rename, cast |
| `ScoreColors` | analysis/08_visualize_results.py | pure colour ramp |
| `CellStyle` | analysis/archive/06_visualize_accessibility.py | pure clamp and RGB arithmetic |
| `PopulationGrid` | analysis/archive/04_build_population_grid.py | the nested grid loops as a method |
| `AccessibilityGrid` | analysis/archive/05_compute_accessibility_grid.py | the flag loop as a method plus the column expressions |
| `StatsApi` | api/index.py | the counting and percentage logic of `get_stats` |

Walking speed is modelled exactly: 5 km/h is 25/18 m/s. Lengths, areas and
ratios are Dafny `real`s. Populations in the flagging script are `int`s, as
its `to_int` produces.

## Model

| member | source | states |
|---|---|---|
| StreetNetwork.MetresPerSecond | analysis/02_generate_isochrones.py:43 | the speed in m/s is kmh·1000/3600, positive for a positive km/h speed |
| StreetNetwork.DefaultSpeed | analysis/02_generate_isochrones.py:13 | the configured 5 km/h is exactly 25/18 m/s |
| StreetNetwork.TravelTime | analysis/02_generate_isochrones.py:45-46 | the travel time is never negative; it is 0 exactly when the length is not positive; otherwise time × speed equals the length |
| StreetNetwork.Annotated | analysis/02_generate_isochrones.py:44-46 | an annotated edge keeps its endpoints, key and length, and its travel time is that of its length (a missing length counts as 0) |
| StreetNetwork.Annotate | analysis/02_generate_isochrones.py:44-46 | the edge list keeps its length and order, and each edge is annotated on its own |
| StreetNetwork.AnnotateProperties | analysis/archive/02_isochrone_one_park.py:58-63 | after annotation, every edge has a travel time that is ≥ 0. It is 0 iff the length is missing or not positive, and otherwise length/speed. Nothing else about the edge changes |
| StreetNetwork.StreetGraph.AddTravelTime | analysis/02_generate_isochrones.py:42-47 | the in-place loop over the edge array leaves exactly the annotated edge list |
| Reachability.AnnotatedWeightsNonNegative | analysis/02_generate_isochrones.py:46 | after annotation, every search weight is non-negative |
| Reachability.ReachableSetMembers | analysis/02_generate_isochrones.py:53-60 | a node is reachable iff it is the source, or some directed walk from the source reaches it with total travel time ≤ the budget |
| Reachability.SourceAlwaysReachable | analysis/02_generate_isochrones.py:54-60 | the source is always in the reachable set |
| Reachability.ReachableMonotoneInBudget | analysis/02_generate_isochrones.py:53-60 | a larger budget yields a superset of reachable nodes |
| Reachability.ClosedIsComplete | analysis/02_generate_isochrones.py:54-59 | when the distance map is closed under relaxation, every walk within the budget ends at a labelled node, with a label no larger than the walk's cost |
| Reachability.FinalLabels | analysis/02_generate_isochrones.py:54-59 | when the search stops, it has labelled exactly the nodes within the cutoff. Each label is the cost of a real walk, and no walk is cheaper |
| Reachability.DijkstraWithCutoff | analysis/02_generate_isochrones.py:54-59 | the returned map has a key exactly for the source and the nodes within the cutoff. The source is at 0. Every value is attained by a walk and is minimal. The settle order lists each key once, starts at the source, and has non-decreasing times |
| Reachability.ComputeReachableNodes | analysis/02_generate_isochrones.py:50-60 | the list holds exactly the nodes whose shortest travel time is ≤ minutes·60, without duplicates, with the source first |
| IsochroneBatch.ParkName | analysis/02_generate_isochrones.py:101 | the name is the park's `name` cell when the column exists, else "Unnamed park" |
| IsochroneBatch.Limit | analysis/02_generate_isochrones.py:93-94 | with no limit, all parks are processed; otherwise a prefix of min(limit, count) parks |
| IsochroneBatch.Features | analysis/02_generate_isochrones.py:97-135 | at most one feature per park; every feature has minutes = 15 and the row index of some park |
| IsochroneBatch.SkipReasons | analysis/02_generate_isochrones.py:104-126 | a park is skipped iff its geometry is null or empty, its node lookup fails, or its hull fails. The empty-reachable skip never fires, because the source is always reachable |
| IsochroneBatch.FeaturesInParkOrder | analysis/02_generate_isochrones.py:100-135 | features come in park order: the k-th feature is the outcome of the k-th emitting park, and emitting positions strictly increase |
| IsochroneBatch.EmittingComplete | analysis/02_generate_isochrones.py:100-135 | every park whose outcome is a feature is among the emitting positions |
| IsochroneBatch.FeatureFields | analysis/02_generate_isochrones.py:128-135 | each feature carries its park's row index as `park_id`, the park's name and `minutes` = 15 |
| IsochroneBatch.FeaturesConcat | analysis/02_generate_isochrones.py:100-126 | skipping a park never affects later parks: the features of a concatenation are the concatenation of the features |
| IsochroneBatch.BatchFailsOnlyWhenNothingBuilt | analysis/02_generate_isochrones.py:139-140 | the run fails iff every processed park is skipped, and then with a RuntimeError |
| IsochroneBatch.ProcessPark | analysis/02_generate_isochrones.py:101-135 | one iteration of the loop body produces the park's specified outcome (a feature or a skip) |
| IsochroneBatch.BuildFeatures | analysis/02_generate_isochrones.py:97-137 | the accumulation loop produces exactly the specified feature list |
| IsochroneBatch.GenerateIsochrones | analysis/02_generate_isochrones.py:86-140 | no parks is a RuntimeError, raised before the graph is touched. Otherwise the edges are annotated and the result is the batch result over the limited parks |
| IsochroneOnePark.OneParkOutcome | analysis/archive/02_isochrone_one_park.py:131-176 | an empty table is a RuntimeError. The run succeeds iff the first park has a usable geometry, its lookup succeeds and its hull exists; the result is then one feature with the first park's name and minutes = 15. The empty-reachable error never fires |
| IsochroneOnePark.FirstParkOnly | analysis/archive/02_isochrone_one_park.py:134-136 | rows after the first never change the result |
| IsochroneOnePark.GenerateOneIsochrone | analysis/archive/02_isochrone_one_park.py:117-176 | the driver returns the specified result. The edges are annotated iff the run gets past the node lookup, and are otherwise left as loaded |
| TractAccessibility.PopulationOf | analysis/04_compute_tract_accessibility.py:52 | a missing key or a Python `None` population counts as 0; any other value is itself |
| TractAccessibility.Clamp01 | analysis/04_compute_tract_accessibility.py:72 | the result lies in [0,1], is the value itself inside [0,1], and is the nearer end outside it |
| TractAccessibility.Coverage | analysis/04_compute_tract_accessibility.py:54-72 | every coverage fraction lies in [0,1] |
| TractAccessibility.CoverageCases | analysis/04_compute_tract_accessibility.py:54-72 | coverage is 0 for each of the following: a null or empty geometry, population ≤ 0, area ≤ 0, an empty intersection. Otherwise it is the clamped ratio of intersection area to tract area |
| TractAccessibility.PopWithinBounds | analysis/04_compute_tract_accessibility.py:74-75 | 0 ≤ `pop_within_15` ≤ population, and it is 0 exactly for skipped or uncovered tracts |
| TractAccessibility.CoverageColumns | analysis/04_compute_tract_accessibility.py:47-78 | the loop yields one coverage value and one `pop_within_15` value per tract, in tract order |
| TractAccessibility.AccessibilityScore | analysis/04_compute_tract_accessibility.py:82-84 | for a positive population, score × population = 100 × `pop_within_15`; otherwise the denominator is 1 |
| TractAccessibility.ScoreIsScaledCoverage | analysis/04_compute_tract_accessibility.py:74-84 | every tract's score lies in [0,100] and is 100 × coverage for a populated tract |
| TractAccessibility.Metrics | analysis/04_compute_tract_accessibility.py:77-84 | one row per tract, with coverage in [0,1] and `total_pop` copied from `population` |
| TractAccessibility.MetricsOf | analysis/04_compute_tract_accessibility.py:74-84 | one tract's columns: `total_pop` is the `population` cell and coverage lies in [0,1]. `pop_within_15` lies between 0 and the population, and is 0 exactly for a skipped or uncovered tract. The score lies in [0,100] and is 100 × coverage for a populated tract, 0 otherwise |
| TractAccessibility.ComputeTractAccessibility | analysis/04_compute_tract_accessibility.py:47-84 | a missing `population` column is a KeyError; otherwise the result is the per-tract metrics |
| NeighborhoodRollup.MissingColumnList | analysis/06_compute_neighborhood_accessibility.py:93 | the list holds exactly the required columns that are absent, in the required order; it is empty iff all are present |
| NeighborhoodRollup.AlignCrs | analysis/06_compute_neighborhood_accessibility.py:101-103 | the tract CRS wins. Reprojection fails (MissingCrs) iff the CRSs differ and one of them is missing |
| NeighborhoodRollup.Join | analysis/06_compute_neighborhood_accessibility.py:107-112 | one joined row per join pair, carrying that pair's tract and neighbourhood name |
| NeighborhoodRollup.GroupMembers | analysis/06_compute_neighborhood_accessibility.py:122-125 | a group holds only the tracts joined under its name |
| NeighborhoodRollup.GroupKeeps | analysis/06_compute_neighborhood_accessibility.py:122-125 | a property every joined tract has holds for every tract of a group |
| NeighborhoodRollup.WeightedMean | analysis/06_compute_neighborhood_accessibility.py:73-78 | the no-data result appears iff Σw ≤ 0; otherwise mean × Σw = Σ(v·w) |
| NeighborhoodRollup.WeightedMeanBetween | analysis/06_compute_neighborhood_accessibility.py:73-78 | with non-negative weights and a positive total, the mean lies between any lower and upper bound of the values |
| NeighborhoodRollup.GroupMetrics | analysis/06_compute_neighborhood_accessibility.py:122-135 | coverage is missing iff the total population is 0; otherwise coverage × total = total within 15 |
| NeighborhoodRollup.EachJoinedRowCountsFully | analysis/06_compute_neighborhood_accessibility.py:107-125 | each joined row adds its tract's full population to its own neighbourhood's total and nothing to any other, however many neighbourhoods the tract joins |
| NeighborhoodRollup.SumsOrdered | analysis/06_compute_neighborhood_accessibility.py:122-125 | if every row has 0 ≤ within ≤ population, the within-15 total lies between 0 and the population total |
| NeighborhoodRollup.CoverageInUnitInterval | analysis/06_compute_neighborhood_accessibility.py:122-129 | under the same row bounds and a positive total, neighbourhood coverage lies in [0,1] |
| NeighborhoodRollup.DotOfScores | analysis/06_compute_neighborhood_accessibility.py:131-135 | when every row's score is 100·within/population, Σ(score·population) = 100·Σ within |
| NeighborhoodRollup.ScoreIsScaledCoverage | analysis/06_compute_neighborhood_accessibility.py:127-135 | for scores produced by the tract script and a positive total, the neighbourhood score equals 100 × its coverage |
| NeighborhoodRollup.Merge | analysis/06_compute_neighborhood_accessibility.py:141 | the left merge keeps every neighbourhood row, in order. A neighbourhood has metrics iff some tract joined it, and then they are its group's metrics |
| NeighborhoodRollup.RollUp | analysis/06_compute_neighborhood_accessibility.py:93-141 | a missing column is a KeyError naming the missing columns. An empty join is a ValueError. A success is the left merge of the per-name metrics of the join onto the neighbourhood table, one row per neighbourhood |
| NeighborhoodRollup.RollUpErrorOrder | analysis/06_compute_neighborhood_accessibility.py:93-115 | success iff all columns are present, the CRSs align and the join is non-empty. The CRS error arises iff the columns are present and reprojection fails |
| FlagUnderserved.FirstKey | analysis/07_flag_underserved.py:18-22 | None iff no candidate is present; otherwise a present candidate, the earliest in list order |
| FlagUnderserved.ToInt | analysis/07_flag_underserved.py:25-31 | None or null gives the default; a number gives an integer within 0.5 of it; a bool gives 1 or 0; other values give the default |
| FlagUnderserved.Assess | analysis/07_flag_underserved.py:74-94 | the guardrails give 0 ≤ within ≤ total: a negative within-15 count becomes 0, one above the total becomes the total, and one in range is kept. The without-15 count is total − within. The percentage lies in [0,100], is 0 for no population and is otherwise 100·without/total. Strict flag iff total > 0 and within = 0. Threshold flag iff a threshold is set, total > 0 and percentage ≥ threshold |
| FlagUnderserved.StrictImpliesThreshold | analysis/07_flag_underserved.py:89-94 | with a threshold ≤ 100, a strictly underserved feature is also threshold-flagged; a feature with no population is never flagged |
| FlagUnderserved.Round2 | analysis/07_flag_underserved.py:98 | `round(x, 2)` is within 0.005 of x |
| FlagUnderserved.PropertiesOf | analysis/07_flag_underserved.py:45 | `properties` defaults to the empty object when absent |
| FlagUnderserved.DetectFields | analysis/07_flag_underserved.py:44-66 | detection fails with ValueError iff the first feature lacks every population candidate, or every within-15 candidate. Otherwise each detected key is present, and drawn from its candidate list |
| FlagUnderserved.FlaggedProps | analysis/07_flag_underserved.py:96-105 | only the five computed keys, plus `label` when absent, are written. All other properties are untouched. The written values are the assessment's, with `label` taken from the name key or null |
| FlagUnderserved.FlaggedFeature | analysis/07_flag_underserved.py:72-105 | a feature without `properties` is left as it is; otherwise its properties are the written ones |
| FlagUnderserved.CountFlagged | analysis/07_flag_underserved.py:107-108 | a flag count never exceeds the number of features |
| FlagUnderserved.StrictCountAtMostThresholdCount | analysis/07_flag_underserved.py:89-108 | with a threshold ≤ 100, the strict count never exceeds the threshold count |
| FlagUnderserved.FlagOne | analysis/07_flag_underserved.py:72-108 | one loop iteration produces the flagged feature and its two flags |
| FlagUnderserved.FeatureCollection.FlagAll | analysis/07_flag_underserved.py:68-108 | the in-place loop rewrites every feature to its flagged form. The two counters equal the numbers of features with each flag |
| FlagUnderserved.FlagFeatures | analysis/07_flag_underserved.py:68-108 | after the loop, each feature is in its flagged form and the two counters are the flag counts for the given keys |
| FlagUnderserved.Run | analysis/07_flag_underserved.py:41-108 | a missing, non-list or empty `features` is a ValueError, and so is an undetectable key. It succeeds exactly when `features` is a non-empty list whose first feature has detectable keys; then every feature is flagged and the counters are the flag counts |
| PrepareNeighborhoods.AlignCrs | analysis/05_prepare_neighborhoods.py:122-150 | the boundary is never changed. Without a boundary CRS, nothing changes. Tagging happens iff only the neighbourhoods lack a CRS. Reprojection happens iff both have different CRSs. With a boundary CRS, the neighbourhoods end with it |
| PrepareNeighborhoods.AlignIsIdempotent | analysis/05_prepare_neighborhoods.py:122-150 | aligning an aligned pair changes nothing |
| PrepareNeighborhoods.CheckClip | analysis/05_prepare_neighborhoods.py:162-168 | an empty clip result is a ValueError; otherwise the table passes unchanged |
| PrepareNeighborhoods.ToUpper | analysis/05_prepare_neighborhoods.py:204 | upper-casing keeps cased letters cased, makes them upper-case and leaves other characters alone |
| PrepareNeighborhoods.ToLower | analysis/05_prepare_neighborhoods.py:204 | lower-casing keeps cased letters cased, makes them lower-case and leaves other characters alone |
| PrepareNeighborhoods.CaseRoundTrips | analysis/05_prepare_neighborhoods.py:204 | case conversions are idempotent and each undoes the other up to case |
| PrepareNeighborhoods.StripLeading | analysis/05_prepare_neighborhoods.py:202 | the result is a suffix; everything dropped is whitespace; it does not start with whitespace |
| PrepareNeighborhoods.StripTrailing | analysis/05_prepare_neighborhoods.py:202 | the result is a prefix; everything dropped is whitespace; it does not end with whitespace |
| PrepareNeighborhoods.Strip | analysis/05_prepare_neighborhoods.py:202 | the result has no outer whitespace. Stripping a trimmed string changes nothing. The result is empty iff the string is all whitespace |
| PrepareNeighborhoods.Collapse | analysis/05_prepare_neighborhoods.py:203 | the result is empty iff the input is; it starts with the first character, or with a space for leading whitespace |
| PrepareNeighborhoods.CollapseIsSingleSpaced | analysis/05_prepare_neighborhoods.py:203 | after `\s+` → " ", no whitespace character other than single spaces remains |
| PrepareNeighborhoods.CollapseKeepsLast | analysis/05_prepare_neighborhoods.py:203 | a non-whitespace last character is kept |
| PrepareNeighborhoods.CollapseIdentity | analysis/05_prepare_neighborhoods.py:203 | collapsing a single-spaced string changes nothing |
| PrepareNeighborhoods.CollapseKeepsTrimmed | analysis/05_prepare_neighborhoods.py:202-203 | collapsing a trimmed string keeps it trimmed |
| PrepareNeighborhoods.TitleFrom | analysis/05_prepare_neighborhoods.py:204 | each character is upper-cased at a word start and lower-cased elsewhere; the length is kept |
| PrepareNeighborhoods.TitleCase | analysis/05_prepare_neighborhoods.py:204 | `str.title`: a letter ends upper-case iff it is first or follows a non-letter, and lower-case iff it follows a letter. Non-letters are kept, and each character keeps its lower-case form |
| PrepareNeighborhoods.TitleIdempotent | analysis/05_prepare_neighborhoods.py:204 | title-casing twice is title-casing once |
| PrepareNeighborhoods.TitleKeepsLayout | analysis/05_prepare_neighborhoods.py:204 | title-casing keeps a string trimmed and single-spaced |
| PrepareNeighborhoods.NormalizeIsCanonical | analysis/05_prepare_neighborhoods.py:198-205 | a normalised name is trimmed, single-spaced and title-cased. Normalisation is idempotent, and a name already in that form is unchanged |
| PrepareNeighborhoods.Key | analysis/05_prepare_neighborhoods.py:201-205 | the key of the name (its lower-cased non-space characters) is no longer than the name |
| PrepareNeighborhoods.KeyConcat | analysis/05_prepare_neighborhoods.py:201-205 | the key of a concatenation is the concatenation of the keys |
| PrepareNeighborhoods.StripKeepsKey | analysis/05_prepare_neighborhoods.py:202 | stripping keeps every non-space character, in order |
| PrepareNeighborhoods.CollapseKeepsKey | analysis/05_prepare_neighborhoods.py:203 | collapsing keeps every non-space character, in order |
| PrepareNeighborhoods.TitleKeepsKeyFrom | analysis/05_prepare_neighborhoods.py:204 | title-casing keeps every character up to case |
| PrepareNeighborhoods.NormalizeKeepsKey | analysis/05_prepare_neighborhoods.py:201-205 | normalisation changes only whitespace layout and letter case: the letters and digits of the name survive, in order |
| PrepareNeighborhoods.NormalizeEmpty | analysis/05_prepare_neighborhoods.py:209-210 | a name normalises to "" iff it is all whitespace |
| PrepareNeighborhoods.StandardName | analysis/05_prepare_neighborhoods.py:198-205 | the standard name of a cell keeps the key of its `astype(str)` text |
| PrepareNeighborhoods.StandardizeNames | analysis/05_prepare_neighborhoods.py:184-188 | a missing raw column is a KeyError, and is the only error |
| PrepareNeighborhoods.StandardizeKeepsOthers | analysis/05_prepare_neighborhoods.py:196-207 | the row count is kept. The standard column is added, or overwritten if it exists. Every other cell, the raw column included, is unchanged |
| PrepareNeighborhoods.StandardizedColumn | analysis/05_prepare_neighborhoods.py:198-207 | each standard cell is the normalised text of the row's raw cell, and is itself normalised |
| PrepareNeighborhoods.OutputColumns | analysis/05_prepare_neighborhoods.py:233-236 | the kept columns are exactly those of [standard name, "geometry"] that exist, in that order |
| PrepareNeighborhoods.SelectOutputColumns | analysis/05_prepare_neighborhoods.py:233-240 | the output has the kept columns, the same rows, and each cell copied from its column |
| PrepareNeighborhoods.PrepareNeighborhoods | analysis/05_prepare_neighborhoods.py:247-276 | `main` fails iff the aligned clip is empty (ValueError) or lacks the raw name column (KeyError). A success keeps the clip's rows and carries the aligned CRS, which is the boundary's whenever the boundary has one |
| PrepareNeighborhoods.PrepareOutcome | analysis/05_prepare_neighborhoods.py:247-276 | an empty clip fails before a missing name column. Success iff the clip is non-empty and has the raw column. On success: the rows are kept; the first column is the standard name; "geometry" follows iff it existed; every name is normalised; the CRS is the boundary's whenever the boundary has one |
| PrepareTracts.SelectShapefile | analysis/03_prepare_tracts.py:15-24 | no match is a FileNotFoundError and several are a RuntimeError; exactly one match is selected |
| PrepareTracts.PrepareTracts | analysis/03_prepare_tracts.py:15-78 | every failure is one of FileNotFoundError, RuntimeError, ValueError or KeyError. A success needs exactly one shapefile and both CRSs, keeps the clipped rows and has both `population` and `GEOID` columns |
| PrepareTracts.PrepareTractsErrors | analysis/03_prepare_tracts.py:15-78 | errors come in script order: shapefile, tract CRS (ValueError), `POPULATION` (KeyError), `GEOID` (KeyError). Success iff all checks pass |
| PrepareTracts.PrepareTractsResult | analysis/03_prepare_tracts.py:71-78 | rows and column count are kept. `POPULATION` is renamed to `population` with its cells kept. `GEOID` cells become strings, with missing ones kept missing. Every other column is unchanged |
| Frames.Rename | analysis/03_prepare_tracts.py:71 | only the renamed column changes name; the rows are untouched |
| Frames.AsStringDtype | analysis/03_prepare_tracts.py:78 | `astype("string")` leaves strings as they are, keeps missing values missing and turns everything else into a string |
| Frames.IsEmpty | analysis/05_prepare_neighborhoods.py:162 | `.empty`: a rectangular table is non-empty iff it has at least one cell |
| Frames.SetColumn | analysis/05_prepare_neighborhoods.py:207 | column assignment: every column of that name takes the new values, or one is appended; every other cell is unchanged |
| Frames.Project | analysis/05_prepare_neighborhoods.py:240 | `df[cols]`: exactly the named columns in the given order, each row's cells taken from the first column of that name |
| Frames.AsStr | analysis/05_prepare_neighborhoods.py:198 | `astype(str)` of a cell: a null is "None", a string is itself, an integer is its decimal text |
| Frames.CastColumn | analysis/03_prepare_tracts.py:78 | the cast changes only the cells of the named columns, each to its string-dtype value; columns and row count stay |
| ScoreColors.AsFloat | analysis/08_visualize_results.py:39-42 | a number converts to itself; null, lists and objects do not convert |
| ScoreColors.Bin | analysis/08_visualize_results.py:44-53 | bin 0 iff s < 20, bin 4 iff s ≥ 80, and otherwise 20k ≤ s < 20(k+1) |
| ScoreColors.ColorForScore | analysis/08_visualize_results.py:35-53 | the colour is grey or one of the five ramp colours. A missing or null score is grey, and a score that converts to a number gets the ramp colour of its bin |
| ScoreColors.ColorCases | analysis/08_visualize_results.py:35-53 | the function is total over six colours: grey iff the score is missing or non-numeric, otherwise the ramp colour that identifies its bin |
| ScoreColors.BinMonotone | analysis/08_visualize_results.py:44-53 | a higher score never gets an earlier ramp colour |
| ScoreColors.OutOfRangeScores | analysis/08_visualize_results.py:44-53 | negative scores take the first colour and scores above 100 the last |
| CellStyle.Clamp | analysis/archive/06_visualize_accessibility.py:59 | the clamped score lies in [0,100] and is the score itself inside that range |
| CellStyle.ScoreValue | analysis/archive/06_visualize_accessibility.py:57-59 | a missing score is 0 and a number is itself; a value that cannot be compared with numbers is a TypeError |
| CellStyle.StyleOf | analysis/archive/06_visualize_accessibility.py:56-70 | the style fails iff the score is not comparable. Otherwise r and g are Red and Green of the clamped score and the fill colour is `rgb(r,g,0)`: pure red at or below 0, pure green at or above 100. Weight 0, opacity 0.6 and blue 0 do not depend on the score |
| CellStyle.Red | analysis/archive/06_visualize_accessibility.py:62 | `int(255 * (100 - s) / 100)` for s in [0,100]: the truncation of the exact value, in [0,255], 255 at s = 0 and 0 at s = 100 |
| CellStyle.Green | analysis/archive/06_visualize_accessibility.py:63 | `int(255 * s / 100)` for s in [0,100]: the truncation of the exact value, in [0,255], 0 at s = 0 and 255 at s = 100 |
| CellStyle.ChannelBounds | analysis/archive/06_visualize_accessibility.py:59-64 | both channels lie in [0,255]; score ≤ 0 gives rgb(255,0,0) and score ≥ 100 gives rgb(0,255,0) |
| CellStyle.ChannelsMonotone | analysis/archive/06_visualize_accessibility.py:62-63 | red never increases and green never decreases as the score grows |
| CellStyle.ChannelsSum | analysis/archive/06_visualize_accessibility.py:62-63 | r + g is 254 or 255, and 255 exactly when 255·s/100 is whole |
| PopulationGrid.Ring | analysis/archive/04_build_population_grid.py:40-47 | each polygon is an axis-aligned square of side 500, listed from its lower-left corner |
| PopulationGrid.Steps | analysis/archive/04_build_population_grid.py:37-39 | the loop `v += 500 while v < hi` runs ⌈(hi−lo)/500⌉ times (0 for hi ≤ lo). Every visited value is below hi and the final one is not |
| PopulationGrid.Grid | analysis/archive/04_build_population_grid.py:36-50 | the grid has one cell per column step and row step: steps(minx, maxx) × steps(miny, maxy) cells |
| PopulationGrid.RowsIndex | analysis/archive/04_build_population_grid.py:36-50 | cell j·cols + i is the i-th cell of row j |
| PopulationGrid.GridCount | analysis/archive/04_build_population_grid.py:36-50 | the cell count is ⌈width/500⌉·⌈height/500⌉, or 0 for a box without width or height |
| PopulationGrid.GridCorners | analysis/archive/04_build_population_grid.py:36-50 | each lower-left corner is (minx + 500i, miny + 500j), with minx ≤ x < maxx and miny ≤ y < maxy |
| PopulationGrid.GridOrder | analysis/archive/04_build_population_grid.py:36-50 | cells come row by row: increasing y, then increasing x within a row |
| PopulationGrid.GridCoversBox | analysis/archive/04_build_population_grid.py:36-50 | every point of a non-degenerate bounding box lies in some cell |
| PopulationGrid.MakeGrid | analysis/archive/04_build_population_grid.py:34-50 | the nested while loops produce exactly the specified grid |
| AccessibilityGrid.WithinFlags | analysis/archive/05_compute_accessibility_grid.py:44-49 | one flag per cell, in cell order, each the centroid-in-union test |
| AccessibilityGrid.Access | analysis/archive/05_compute_accessibility_grid.py:52-61 | `total_pop` is the population; `pop_within_15` is the population when covered and 0 otherwise; the score is missing iff the population is 0 |
| AccessibilityGrid.ScoreIsAllOrNothing | analysis/archive/05_compute_accessibility_grid.py:57-61 | a populated cell scores exactly 100 when covered and 0 otherwise |
| AccessibilityGrid.ComputeAccessibilityGrid | analysis/archive/05_compute_accessibility_grid.py:44-61 | a grid without a `population` column is a KeyError, raised after the flag loop; otherwise one row per cell with exactly those columns |
| StatsApi.IsUnderserved | api/index.py:59 | a feature reads iff it is an object with an object `properties`, and then the value is whether `is_underserved` is truthy. Missing `properties` is a KeyError |
| StatsApi.UnderservedCount | api/index.py:59 | the count is at most the number of features |
| StatsApi.UnderservedCountIsCount | api/index.py:59 | the sum succeeds iff every feature reads, and then it is the number of flagged features. Otherwise it raises the first unreadable feature's error |
| StatsApi.Percentage | api/index.py:64 | no features gives 0 |
| StatsApi.PercentageBounds | api/index.py:64 | the percentage lies in [0,100] and is within 0.05 of 100·count/total |
| StatsApi.FeatureList | api/index.py:57 | a missing `features` key is []. A list is itself. Values that `len` and iteration reject are a TypeError |
| StatsApi.GetStats | api/index.py:57-65 | a non-list `features` is its TypeError. Otherwise the response exists iff every feature is readable, and then the total is the number of features, the count is the number of flagged ones and at most the total, and the percentage is `Percentage(count, total)`: 0 without features, otherwise in [0,100] and within 0.05 of 100·count/total |
| StatsApi.StatsOfReadableDocument | api/index.py:57-64 | for a readable document: the total is the number of features (0 without the key); the count is the number of flagged features and at most the total; the percentage is `Percentage(count, total)`, in [0,100] and within 0.05 of 100·count/total |

## Left out

- Geometry: convex hulls, unions, intersections, areas, centroids, UTM estimation and reprojection, `gpd.clip`, `gpd.overlay` and the `sjoin` intersects predicate are left to the geometry libraries. Their results are inputs: areas and intersection areas, join pairs, the `inside` test, the `hull` and `clip` functions, and the CRS labels.
- The nearest-node lookup is a KD-tree in a foreign library. It is a parameter that returns a node id or None (the exception).
- File and graph I/O are left out: reading and writing files, GraphML, JSON, directory creation, path-existence checks (FileNotFoundError for a missing input), the shapefile glob (its matches are an input) and the final `to_crs("EPSG:4326")`.
- Logging, printing and the warnings about missing CRSs or empty names are left out.
- The download and debug scripts, folium map construction, FastAPI routing and CORS, the other API handlers and the static server are not part of this model.
- The random synthetic population of the grid builder is random-number output and is not modelled. Neither is the clip of the grid to the boundary.
- Floating point is not modelled: every value is an exact real.
  - Python `round` is round-half-even on exact reals.
  - `pct_without_15` and the stats percentage are exact quotients before rounding.
  - The grid coordinates are exact multiples of 500, not float sums.
- NaN and infinities are not modelled. The pandas non-finite values are an explicit `None`: the weighted mean over Σw ≤ 0, the grid score 0/0, and the neighbourhood coverage at a zero total population. That last one is NaN for 0/0 and ±inf when the within-15 sum is not 0. A NaN score in the colour ramps is outside the model.
- NeighborhoodRollup.RollUp: the neighbourhood table arrives as its list of names, so the KeyError that `gdf_neigh[[NEIGH_NAME, "geometry"]]` raises for a layer without the name column is not modelled. The neighbourhood preparation always writes that column.
- FlagUnderserved.ToInt: a string is not parsed as a number. It yields the default, which is weaker than `float(str)`, which accepts numeric strings.
- ScoreColors.AsFloat: `float(str)` is the `parse` parameter, not a parser.
- PrepareNeighborhoods.TitleCase: only ASCII letters are cased. Python's `str.title` also cases other Unicode letters.
- `\s` in the collapse pattern and `str.strip` share one whitespace set: the characters Python's `str.isspace` accepts.
- Frames.AsStr: `astype(str)` of a float or a geometry cell is the `render` parameter. A null cell renders as "None"; NaN's "nan" is not modelled.
- Frames track cells by position. A table with duplicate column names sets every column of that name.
- StreetNetwork.TravelTime, StreetNetwork.Annotated, StreetNetwork.Annotate and StreetNetwork.StreetGraph.AddTravelTime require a positive speed. The scripts only pass 5 km/h; the ZeroDivisionError at 0 km/h (in `length / mps`) is not modelled.
- An edge `length` that is not a number is not modelled. Lengths are optional reals.
- FlagUnderserved.Run requires every feature to be an object whose `properties`, when present, is an object (ReadableDocument). The AttributeError a malformed feature raises in the script is not modelled there. The stats handler does model such features.
- AccessibilityGrid.ComputeAccessibilityGrid: every cell arrives with a centroid, so the AttributeError that `geom.centroid` raises on a null cell geometry (archive 05:46) is not modelled.
- IsochroneOnePark.GenerateOneIsochrone: a null or empty first geometry is one error, InvalidParkGeometry. In the script, a null geometry raises AttributeError on `.centroid`. An empty geometry gives a NaN centroid under shapely 2, and the failure comes from `nearest_nodes`. Both happen before the edges are annotated, so the modelled edge state agrees.
- TractAccessibility.PopulationOf: a null cell of a numeric `population` column arrives as NaN, which is truthy, so `float(nan or 0)` is NaN and `nan <= 0` is false. The script does not skip such a tract and writes NaN for `pop_within_15` and `accessibility_score`. The model's `None` stands only for a missing key or Python `None`, which give 0, 0 and 0.
- IsochroneBatch.ParkName: a park's `name` is a string, so a null `name` cell cannot be expressed. For such a cell, `park.get("name", "Unnamed park")` returns the null itself, not the default.
- PrepareTracts.PrepareTractsErrors: a boundary layer without a CRS is a ValueError, which is what `to_crs` raises on a layer without one. The output reprojection to EPSG:4326 is not modelled.
- The roll-up groups by neighbourhood name, as `groupby` does, so neighbourhoods with the same name share one group's metrics.
