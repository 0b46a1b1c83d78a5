# Heat-wave detection engine (HWI-tool), modelled in Dafny

HWI-tool flags heat waves in gridded daily maximum temperature (Tmax). Two entry
points run the same detection chain over a region mask:

- `previsao_onda_de_calor` (id_heatwaves_fcst.py) on a forecast. Its output keeps
  the whole forecast time axis.
- `onda_de_calor` (id_heatwaves_obs.py) on ERA5 reference data. Its output keeps
  only the days of the confirmed heat waves.

The chain is:

1. Both the climatology (mean Tmax `t2m`, `std`, `percentil75`) and the observed
   Tmax are masked to the region. Cells outside it become NaN.
2. `points_land` counts the non-NaN cells of the masked Tmax on day 0.
3. The exceedance field `crit` keeps a cell's Tmax when it is strictly above
   mean + std, and is NaN otherwise.
4. A day qualifies when its non-NaN exceedance cells divided by `points_land` is
   above 0.25. The qualifying day indices form `list_index`.
5. `split_list` cuts `list_index` into maximal runs of consecutive indices and
   keeps the runs of three days or more.
6. A run is confirmed when PI > P75. PI is the NaN-skipping mean of the
   exceedance over the run's days and cells. P75 is the mean of the masked
   percentile field over the same days.
7. Output assembly differs between the two entry points (see below).

`split_dates_by_sequence` (tools/tools_idhw_v2.py) groups dates into maximal
consecutive runs with no length filter. The reference plots use it.

## Layout

- `fields.dfy`, module `Fields`. A cell is `Missing` (NaN) or `Val(r)`. A field
  is a sequence of days, each a row of cells (the latitude × longitude grid
  flattened). A mask is a row of booleans. Also holds masking and counting.
- `runs.dfy`, module `Runs`. `split_list` as functions, following its steps
  (`np.diff` breaks, cuts, slices, length filter). `split_dates_by_sequence`
  as a method with the source's loop; `sorted` is an insertion sort.
- `detection.dfy`, module `Detection`. The stages both entry points share:
  exceedance, `points_land`, the extent test, the extent loop (a method),
  the NaN-skipping means and the PI > P75 decision.
- `forecast.dfy`, module `Forecast`. The forecast entry point: the event loop
  (a method), the merge, and the three output branches.
- `reference.dfy`, module `Reference`. The reference entry point: the run loop
  (a method, with its carried `dataset`) and the merge.

Each entry point is a method proved equal to a specification function
(`Forecast.ForecastOutput`, `Reference.ReferenceOutput`). The lemmas state
the source's promises about those functions.

Modelling choices:

- Errors the source raises are results of type `Detection.Error`:
  - `EmptyTimeAxis`: indexing day 0 of an empty time axis.
  - `NoLandPoints`: `count_valid / points_land` when `points_land` is 0
    (Python `ZeroDivisionError`).
  - `UnboundDataset`: the reference run loop rejects its first run.
- Dates are integer day numbers, so "previous date + 1 day" is `+ 1`.
- Means skip missing cells. A mean with no values is NaN, here `None`. A NaN
  on either side of PI > P75 makes the comparison false, so the run is rejected.
- `xr.merge` of the forecast datasets is a cell-by-cell overlay over the shared
  axis. The confirmed runs' days never overlap, so no two datasets put
  different values in one cell. `xr.merge` of the reference datasets is the
  union of their days, keyed by day index.
- P75 is the mean of the masked percentile field. `percentil75` is read from
  `nc` after `nc.where(mask, np.nan)` (id_heatwaves_fcst.py:97, 156;
  id_heatwaves_obs.py:80, 149).
- The comment on `points_land` calls it the total number of grid points over
  the continent (id_heatwaves_fcst.py:110). The code counts the cells of the
  masked Tmax that hold a value on day 0 (id_heatwaves_fcst.py:105, 110), and
  the model follows the code. The two counts agree exactly when day 0 has no
  missing value inside the region (`Detection.PointsLandBound`).
- Exceedance, `points_land`, the extent test and the intensity decision are
  the same code in both scripts (id_heatwaves_obs.py:80, 93, 97-124 and
  142-151). The table below cites the forecast script's lines for the shared
  members.

## Model

| member | source | states |
|---|---|---|
| Fields.MaskFieldCells | id_heatwaves_fcst.py:97-100 | masking keeps the field's shape and every in-region cell, and makes every out-of-region cell missing |
| Fields.MaskRow | id_heatwaves_fcst.py:97-100 | a masked day has the day's length, keeps every in-region cell and holds no value outside the region |
| Fields.MaskField | id_heatwaves_fcst.py:97-100 | a masked field keeps the days and the grid, every in-region cell, and holds no value outside the region |
| Fields.MaskIdempotent | id_heatwaves_fcst.py:97-100 | masking an already masked field changes nothing |
| Fields.MaskDependsOnlyOnRegion | id_heatwaves_obs.py:93 | two fields that agree inside the region mask to the same field |
| Fields.CountValid | id_heatwaves_fcst.py:110 | the count of non-NaN cells of a day never exceeds the day's cells |
| Fields.CountValidByMultiset | id_heatwaves_fcst.py:110 | the count of non-NaN cells is the row length minus the number of missing cells |
| Fields.CountValidPermutation | id_heatwaves_fcst.py:129 | the non-NaN count does not depend on the order of the cells |
| Fields.MaskedCountAtMostRegion | id_heatwaves_fcst.py:104-110 | a masked day holds at most as many values as the region has cells, and exactly that many iff no in-region cell is missing |
| Detection.ExceedCell | id_heatwaves_fcst.py:116-121 | a cell of `crit` holds a value iff Tmax, mean and std all hold values and Tmax > mean + std, and that value is Tmax |
| Detection.MaskClimatology | id_heatwaves_fcst.py:97 | masking the climatology keeps each variable's days and grid; the percentile field keeps its in-region values and holds none outside the region |
| Detection.Exceedance | id_heatwaves_fcst.py:121 | the exceedance field has the shape of the observed field |
| Detection.Crit | id_heatwaves_fcst.py:97-121 | the exceedance of the masked fields has one row per day and one cell per grid cell |
| Detection.CritCells | id_heatwaves_fcst.py:97-121 | an exceedance cell holds a value iff the cell is in the region, all three inputs hold values and Tmax > mean + std; the value is the observed Tmax |
| Detection.PointsLand | id_heatwaves_fcst.py:104-110 | `points_land`, the values of the masked Tmax on day 0, never exceeds the number of cells the mask puts in the region |
| Detection.PointsLandBound | id_heatwaves_obs.py:97-103 | `points_land` is at most the region's cell count, and equal to it iff day 0 has no in-region gap |
| Detection.Qualifies | id_heatwaves_fcst.py:129-130 | a day passes the extent test `count_valid / points_land > 0.25` iff `4 * count_valid > points_land` |
| Detection.QualifiesPermutation | id_heatwaves_fcst.py:129-130 | reordering a day's cells does not change whether the day qualifies |
| Detection.QualifyingPrefix | id_heatwaves_fcst.py:126-131 | after `n` days `list_index` has at most `n` entries, all below `n` |
| Detection.QualifyingDaysOf | id_heatwaves_fcst.py:126-131 | `list_index` has at most as many entries as the axis has days, each a day of the axis |
| Detection.QualifyingDays | id_heatwaves_fcst.py:126-131 | the extent loop returns the qualifying day indices of the whole axis, in order |
| Detection.QualifyingPrefixSpec | id_heatwaves_fcst.py:126-131 | after `n` days, `list_index` is strictly ascending, below `n`, and holds a day iff the day passes the extent test |
| Detection.QualifyingDaysSpec | id_heatwaves_obs.py:119-124 | a day index is in `list_index` iff it is on the axis and `4 * count_valid > points_land`, and the list is strictly ascending |
| Detection.SumOver | id_heatwaves_fcst.py:151 | the NaN-skipping sum over the given days is 0 when no cell holds a value |
| Detection.MeanOver | id_heatwaves_fcst.py:151 | the NaN-skipping mean over the given days is defined iff at least one cell holds a value |
| Detection.MeanAbove | id_heatwaves_fcst.py:151 | a defined mean of values that are all above a bound is above that bound |
| Detection.MeanAtMost | id_heatwaves_fcst.py:156 | a defined mean of values that are all at most a bound is at most that bound |
| Detection.Confirmed | id_heatwaves_fcst.py:151-158 | a run with no days is never confirmed: both its means are NaN |
| Detection.ConfirmedWhenAbovePercentiles | id_heatwaves_fcst.py:151-158 | a run on which both the exceedance and the percentile field hold a value, whose exceedance values all lie above a bound that every percentile value stays at or below, is confirmed |
| Detection.RejectedWhenBelowPercentiles | id_heatwaves_fcst.py:151-158 | a run whose exceedance values all stay at or below a bound that every percentile value exceeds is rejected |
| Detection.ConfirmedDays | id_heatwaves_fcst.py:147-158 | a day is confirmed iff it lies in some run with PI > P75 |
| Detection.CandidateRuns | id_heatwaves_fcst.py:134 | every candidate run holds only indices from `list_index` |
| Detection.CandidateRunsSpec | id_heatwaves_obs.py:127 | the candidate runs are exactly `split_list(list_index)`, each with at least three consecutive indices |
| Detection.QualifyingDaysRange | id_heatwaves_fcst.py:126-134 | the qualifying indices and the candidate runs hold only days of the axis |
| Forecast.BlankField | id_heatwaves_fcst.py:169 | the all-NaN series has the requested number of days and width |
| Forecast.KeepDays | id_heatwaves_fcst.py:161-166 | a run's dataset, padded with all-NaN days, keeps the whole time axis and grid |
| Forecast.Overlay | id_heatwaves_fcst.py:172 | merging two datasets over one axis keeps that axis |
| Forecast.MergeAll | id_heatwaves_fcst.py:172 | merging the event datasets keeps the full time axis and grid |
| Forecast.EventDays | id_heatwaves_fcst.py:158-169 | a run contributes either none of its days or all of them, and a non-empty run contributes its days iff PI > P75 |
| Forecast.EventDatasets | id_heatwaves_fcst.py:147-170 | the event loop builds one dataset per run: the exceedance on the days that run contributes, all-NaN elsewhere |
| Forecast.EventDatasetRows | id_heatwaves_fcst.py:158-169 | a confirmed run's dataset carries the exceedance on the run's days and is all NaN on every other day; a rejected run's dataset is all NaN |
| Forecast.OverlayKeepDays | id_heatwaves_fcst.py:172 | merging the datasets of two day sets gives the dataset of their union |
| Forecast.AllEventDays | id_heatwaves_fcst.py:147-172 | every day the runs contribute lies in one of the runs |
| Forecast.AllEventDaysConfirmed | id_heatwaves_fcst.py:147-170 | the days the event datasets carry are exactly the confirmed days |
| Forecast.MergeEventDatasets | id_heatwaves_fcst.py:144-173 | the merge is the exceedance on the union of the confirmed runs' days, all-NaN elsewhere |
| Forecast.MergedEvents | id_heatwaves_fcst.py:144-172 | the event loop and the merge give the exceedance on the confirmed runs' days, all-NaN elsewhere |
| Forecast.ForecastDays | id_heatwaves_fcst.py:144-194 | every day the output shows is a qualifying day of the axis |
| Forecast.ForecastOutput | id_heatwaves_fcst.py:97-194 | an empty axis fails with `EmptyTimeAxis`, a region without land points with `NoLandPoints`; a result keeps the input's time axis and grid |
| Forecast.AssembleForecast | id_heatwaves_fcst.py:126-194 | the extent loop, `split_list` and the three output branches give the exceedance on the shown days and all-NaN elsewhere |
| Forecast.ForecastHeatwave | id_heatwaves_fcst.py:97-194 | the entry point computes the forecast output, including its two failure cases |
| Forecast.ForecastShape | id_heatwaves_fcst.py:140-194 | the output fails iff the axis is empty or `points_land` is 0; otherwise each day is either its exceedance or all NaN |
| Forecast.ForecastDaysSpec | id_heatwaves_fcst.py:144-194 | with candidate runs a day is shown iff it lies in a confirmed run; without, iff it qualifies; every shown day qualifies |
| Forecast.ForecastConfirmedRuns | id_heatwaves_fcst.py:158-172 | with candidate runs, a day carries exceedance iff it lies in a run with PI > P75, and is all NaN otherwise |
| Forecast.ForecastNoQualifyingDays | id_heatwaves_fcst.py:175-180 | with no qualifying day the output is the full axis, every cell NaN |
| Forecast.ForecastShortRunsOnly | id_heatwaves_fcst.py:181-194 | with no run of three days, every qualifying day carries its exceedance and every other day is all NaN |
| Forecast.ForecastAllRejected | id_heatwaves_fcst.py:167-172 | when every candidate run is rejected the output is all NaN |
| Reference.Restrict | id_heatwaves_obs.py:142-143 | a run's dataset holds exactly the run's days on the axis |
| Reference.LatestConfirmed | id_heatwaves_obs.py:140-161 | the dataset `dataset` holds after `n` iterations comes from the latest confirmed run among the first `n`, and is unbound iff none was confirmed |
| Reference.CarriedDays | id_heatwaves_obs.py:151-161 | the days appended at iteration `k` are none or the days of a confirmed run among the first `k + 1` |
| Reference.CarriedDaysStep | id_heatwaves_obs.py:151-161 | a confirmed run appends its own days; a later rejected run appends again the previous iteration's dataset |
| Reference.ReferenceEvents | id_heatwaves_obs.py:139-161 | the run loop succeeds iff there is no run or the first run is confirmed, else fails with an unbound `dataset`; entry `k` is the dataset of the latest run confirmed by iteration `k` |
| Reference.MergeDatasets | id_heatwaves_obs.py:164 | the merge holds a day iff some dataset holds it |
| Reference.MergeRestrictions | id_heatwaves_obs.py:163-165 | merging run datasets gives the exceedance rows of the union of their days |
| Reference.CarriedDaysUnion | id_heatwaves_obs.py:140-165 | when the first run is confirmed, the re-appended datasets add no day: together the entries hold exactly the confirmed days |
| Reference.ReferenceOutput | id_heatwaves_obs.py:80-166 | an empty axis fails with `EmptyTimeAxis`, a region without land points with `NoLandPoints`; every written day is a day of the axis with a row of the grid's width |
| Reference.ReferenceDays | id_heatwaves_obs.py:119-165 | the only failure of the run loop is the unbound `dataset` |
| Reference.AssembleReference | id_heatwaves_obs.py:119-165 | the extent loop, `split_list`, the run loop and the merge give the reference outcome |
| Reference.ReferenceHeatwave | id_heatwaves_obs.py:80-166 | the entry point computes the reference output, including its three failure cases |
| Reference.ReferenceDaysOutcome | id_heatwaves_obs.py:137-165 | nothing is written iff there is no candidate run; the unbound-dataset error arises iff the first candidate run is rejected; a dataset is written iff the first candidate run is confirmed |
| Reference.ReferenceDaysSpec | id_heatwaves_obs.py:139-165 | a written output holds exactly the days of the confirmed candidate runs |
| Reference.ReferenceDaysRows | id_heatwaves_obs.py:119-165 | every written day carries its exceedance row and passes the extent test |
| Reference.ReferenceShape | id_heatwaves_obs.py:80-166 | `EmptyTimeAxis` iff the axis is empty; `NoLandPoints` iff day 0 has no land value; any other failure is the unbound `dataset`; a written day carries its exceedance |
| Reference.ReferenceMatchesForecast | id_heatwaves_obs.py:151-155 | when the reference output exists, its days are exactly the days the forecast output shows, with the same rows |
| Runs.Insert | tools/tools_idhw_v2.py:74 | inserting into a sorted list gives a sorted list with one more occurrence of the element |
| Runs.Sort | tools/tools_idhw_v2.py:74 | `sorted(dates)` is sorted and a permutation of the input |
| Runs.SplitDatesBySequence | tools/tools_idhw_v2.py:72-95 | the groups concatenate to the sorted dates, each is a non-empty run of consecutive days, and no group continues the one before it |
| Runs.GroupSequences | tools/tools_idhw_v2.py:77-93 | the loop cuts a non-empty sorted list into its maximal runs, a repeated date starting a new group |
| Runs.ExtendRun | tools/tools_idhw_v2.py:86-87 | appending the previous date plus one keeps the current group a run |
| Runs.PartitionAppend | tools/tools_idhw_v2.py:88-90 | closing the current group at a break keeps the result a cut into maximal runs |
| Runs.RunPartitionUnique | tools/tools_idhw_v2.py:80-93 | a list has only one cut into maximal runs |
| Runs.DateGroupsAreSplitListSlices | tools/tools_idhw_v2.py:72-111 | the date groups are the slices `split_list` builds on the sorted dates, and `split_list` keeps those of three or more |
| Runs.Breaks | tools/tools_idhw_v2.py:101-104 | every break position lies strictly inside the list |
| Runs.BreaksSpec | tools/tools_idhw_v2.py:101-104 | the breaks are ascending and are exactly the positions whose difference from the previous element is not 1 |
| Runs.Cuts | tools/tools_idhw_v2.py:104-105 | the slice bounds start at 0 and end at the length of the list |
| Runs.CutsValid | tools/tools_idhw_v2.py:104-105 | the slice bounds are ascending, strictly for a non-empty list, and an inner position is a bound iff it is a break |
| Runs.Slices | tools/tools_idhw_v2.py:105-107 | there is one slice per pair of neighbouring bounds |
| Runs.IntList | tools/tools_idhw_v2.py:101-107 | the slices concatenate back to the list |
| Runs.FlattenSlices | tools/tools_idhw_v2.py:105-107 | the slices concatenate to the list between the first and last bound |
| Runs.SliceAt | tools/tools_idhw_v2.py:107 | slice `k` is the list between bounds `k` and `k + 1` |
| Runs.KeepLong | tools/tools_idhw_v2.py:108-109 | the filter never adds a group |
| Runs.KeepLongMembership | tools/tools_idhw_v2.py:108-109 | the filter keeps exactly the slices longer than two |
| Runs.KeepLongSubset | tools/tools_idhw_v2.py:108-109 | every element kept by the filter was in the unfiltered slices |
| Runs.RunBetweenCuts | tools/tools_idhw_v2.py:101-107 | the part of the list between neighbouring bounds is a run that does not continue the part before it |
| Runs.IntListIsRunPartition | tools/tools_idhw_v2.py:101-107 | before filtering, the slices of a non-empty list concatenate to it in order, each is a run, and each starts at a break |
| Runs.SplitList | tools/tools_idhw_v2.py:99-111 | every returned group has at least three elements, all taken from the input |
| Runs.SplitListEmpty | tools/tools_idhw_v2.py:104-111 | `split_list([])` is `[]` |
| Runs.SplitListRuns | tools/tools_idhw_v2.py:101-109 | every returned run has at least three elements, each one more than the previous, all from the input |
| Runs.MaximalRunsAreKept | tools/tools_idhw_v2.py:99-111 | every maximal run of three or more elements is returned |
| Runs.MaximalRunBetweenCuts | tools/tools_idhw_v2.py:101-105 | the ends of a maximal run are neighbouring slice bounds |
| Runs.SliceIsMaximal | tools/tools_idhw_v2.py:101-107 | the part of the list between neighbouring bounds is a maximal run |
| Runs.KeptRunsAreMaximal | tools/tools_idhw_v2.py:99-111 | every returned run is a maximal run of three or more elements |
| Runs.SplitListAscending | tools/tools_idhw_v2.py:99-111 | for a strictly increasing input the returned runs, read in order, are strictly increasing, so none appears twice |
| Runs.CutsExample | tools/tools_idhw_v2.py:101-105 | the bounds for `[0,1,2,5,6,7,8,12]` are `[0,3,7,8]` |
| Runs.IntListExample | tools/tools_idhw_v2.py:107 | the slices of `[0,1,2,5,6,7,8,12]` are `[0,1,2]`, `[5,6,7,8]` and `[12]` |
| Runs.SplitListExample | tools/tools_idhw_v2.py:99-111 | `split_list([0,1,2,5,6,7,8,12])` is `[[0,1,2],[5,6,7,8]]` |

## Left out

- Reading and writing NetCDF, the CLI, printing and `check_dir`. The fields
  are parameters, and each entry point returns its output instead of writing
  a file.
- Downloading, bias correction, plotting and building the mask from a
  shapefile. These are not part of this model; the mask is a given boolean
  grid.
- Regridding (`interp(..., method='linear')`) and the date-based climatology
  selection. Every field is assumed to be on the mask's grid and the observed
  field's day axis already (`Detection.Aligned`).
- Floating point. Temperatures are exact reals, so rounding in sums, means and
  the 0.25 ratio is not modelled. NaN is the `Missing` cell.
- The bookkeeping of xarray variables and coordinates in `concat`, `merge`,
  `drop` and `rename_vars`. A dataset is modelled by its exceedance values
  alone. `sortby('time')` is modelled as keeping days in axis order, which
  assumes the time axis is ascending. For the reference data it is: the axis
  is built from `pd.date_range` (id_heatwaves_obs.py:51, 83-88). For the
  forecast the axis is the forecast file's own time coordinate
  (id_heatwaves_fcst.py:67, 100, 140), so an ascending axis is an assumption
  about that input file.
- `Runs.SplitDatesBySequence` requires a non-empty list. The source fails on
  `sorted_dates[0]` for an empty list; the model does not represent that
  failure.
- Writing nothing when there is no candidate run is modelled as the result
  `Ok(None)`. The source's other no-output case (an empty `list_datasets`
  after the loop) cannot happen: the loop appends once per run or fails.
