/**
 * The forecast entry point (`previsao_onda_de_calor` in id_heatwaves_fcst.py):
 * the detection stages of module Detection followed by an output that keeps the
 * whole forecast time axis, exceedance on the days shown and every other day
 * missing.
 */
module Forecast {
  import opened Fields
  import opened Runs
  import opened Detection

  /** A field of `days` all-missing days (`where(False, nan)`). */
  function BlankField(days: nat, width: nat): (f: Field)
    ensures Shaped(f, days, width)
  {
    seq(days, _ => BlankRow(width))
  }

  /** The exceedance field with the days outside `shown` made all-missing: the
      `concat([evento, days_empty]).sortby('time')` of one run, or the blank
      series when `shown` is empty. */
  function KeepDays(crit: Field, shown: set<nat>): (f: Field)
    ensures SameShape(f, crit)
  {
    seq(|crit|, d requires 0 <= d < |crit| => if d in shown then crit[d] else BlankRow(|crit[d]|))
  }

  /** Two datasets over the same axis merged cell by cell: a value in either one
      fills the cell (the two never hold different values for one cell here). */
  function Overlay(a: Field, b: Field): (f: Field)
    requires SameShape(a, b)
    ensures SameShape(f, a)
  {
    seq(|a|, d requires 0 <= d < |a| =>
      seq(|a[d]|, c requires 0 <= c < |a[d]| => if a[d][c].Val? then a[d][c] else b[d][c]))
  }

  /** `xr.merge(list_datasets)` over datasets that share the time axis and grid. */
  function MergeAll(datasets: seq<Field>, days: nat, width: nat): (f: Field)
    requires forall k :: 0 <= k < |datasets| ==> Shaped(datasets[k], days, width)
    ensures Shaped(f, days, width)
  {
    if datasets == [] then BlankField(days, width)
    else
      var rest := MergeAll(datasets[1..], days, width);
      assert Shaped(datasets[0], days, width);
      Overlay(datasets[0], rest)
  }

  /** The days a run contributes to the forecast output: its own days when it is
      confirmed, none when it is rejected. */
  function EventDays(crit: Field, p75: Field, run: seq<nat>): (days: set<nat>)
    requires InRange(run, |crit|) && InRange(run, |p75|)
    ensures days <= RunDays(run)
    ensures days != {} ==> days == RunDays(run)
    ensures run != [] ==> (days != {} <==> Confirmed(crit, p75, run))
  {
    if Confirmed(crit, p75, run) then assert run != [] ==> run[0] in RunDays(run); RunDays(run) else {}
  }

  /** The event loop: one full-axis dataset per candidate run, the run's days
      carrying exceedance when PI > P75 and the whole series missing otherwise. */
  method EventDatasets(crit: Field, p75: Field, runs: seq<seq<nat>>) returns (listDatasets: seq<Field>)
    requires RunsInRange(runs, |crit|) && RunsInRange(runs, |p75|)
    ensures |listDatasets| == |runs|
    ensures forall k :: 0 <= k < |runs| ==> listDatasets[k] == KeepDays(crit, EventDays(crit, p75, runs[k]))
  {
    listDatasets := [];
    for i := 0 to |runs|
      invariant |listDatasets| == i
      invariant forall k :: 0 <= k < i ==> listDatasets[k] == KeepDays(crit, EventDays(crit, p75, runs[k]))
    {
      var dataset;
      if Confirmed(crit, p75, runs[i]) {
        dataset := KeepDays(crit, RunDays(runs[i]));
      } else {
        dataset := KeepDays(crit, {});
      }
      listDatasets := listDatasets + [dataset];
    }
  }

  /** The dataset of a confirmed run carries the exceedance on the run's days
      and is missing on every other day; that of a rejected run is all missing. */
  lemma EventDatasetRows(crit: Field, p75: Field, run: seq<nat>)
    requires InRange(run, |crit|) && InRange(run, |p75|)
    ensures var ds := KeepDays(crit, EventDays(crit, p75, run));
      && (Confirmed(crit, p75, run) ==>
            forall d :: 0 <= d < |crit| ==> ds[d] == if d in run then crit[d] else BlankRow(|crit[d]|))
      && (!Confirmed(crit, p75, run) ==> forall d :: 0 <= d < |crit| ==> ds[d] == BlankRow(|crit[d]|))
  {
  }

  /** Merging two restrictions of one field gives the restriction to the union. */
  lemma OverlayKeepDays(crit: Field, s: set<nat>, t: set<nat>)
    ensures Overlay(KeepDays(crit, s), KeepDays(crit, t)) == KeepDays(crit, s + t)
  {
    var lhs, rhs := Overlay(KeepDays(crit, s), KeepDays(crit, t)), KeepDays(crit, s + t);
    forall d | 0 <= d < |crit|
      ensures lhs[d] == rhs[d]
    {
      assert |lhs[d]| == |rhs[d]|;
      forall c | 0 <= c < |crit[d]|
        ensures lhs[d][c] == rhs[d][c]
      {
      }
    }
  }

  /** The union of the days the runs contribute. */
  function AllEventDays(crit: Field, p75: Field, runs: seq<seq<nat>>): (days: set<nat>)
    requires RunsInRange(runs, |crit|) && RunsInRange(runs, |p75|)
    ensures forall d :: d in days ==> exists k :: 0 <= k < |runs| && d in runs[k]
  {
    if runs == [] then {}
    else
      assert forall k :: 0 < k < |runs| ==> runs[k] == runs[1..][k - 1];
      EventDays(crit, p75, runs[0]) + AllEventDays(crit, p75, runs[1..])
  }

  /** The days contributed by the runs are exactly the confirmed days. */
  lemma {:induction false} AllEventDaysConfirmed(crit: Field, p75: Field, runs: seq<seq<nat>>)
    requires RunsInRange(runs, |crit|) && RunsInRange(runs, |p75|)
    ensures AllEventDays(crit, p75, runs) == ConfirmedDays(crit, p75, runs)
  {
    if runs != [] {
      AllEventDaysConfirmed(crit, p75, runs[1..]);
      var rest := runs[1..];
      assert forall k :: 0 < k < |runs| ==> runs[k] == rest[k - 1];
      forall d
        ensures d in ConfirmedDays(crit, p75, runs) <==>
          d in EventDays(crit, p75, runs[0]) + ConfirmedDays(crit, p75, rest)
      {
        if d in ConfirmedDays(crit, p75, runs) && d !in EventDays(crit, p75, runs[0]) {
          var k :| 0 <= k < |runs| && d in runs[k] && Confirmed(crit, p75, runs[k]);
          assert k > 0;
          assert d in rest[k - 1];
        }
        if d in ConfirmedDays(crit, p75, rest) {
          var k :| 0 <= k < |rest| && d in rest[k] && Confirmed(crit, p75, rest[k]);
          assert runs[k + 1] == rest[k];
        }
      }
    }
  }

  /** Merging the event datasets gives the exceedance on the union of the
      confirmed runs' days and missing everywhere else. */
  lemma {:induction false} MergeEventDatasets(crit: Field, p75: Field, runs: seq<seq<nat>>, width: nat)
    requires Shaped(crit, |crit|, width)
    requires RunsInRange(runs, |crit|) && RunsInRange(runs, |p75|)
    requires forall k :: 0 <= k < |runs| ==> Shaped(KeepDays(crit, EventDays(crit, p75, runs[k])), |crit|, width)
    ensures MergeAll(seq(|runs|, k requires 0 <= k < |runs| => KeepDays(crit, EventDays(crit, p75, runs[k]))), |crit|, width)
      == KeepDays(crit, AllEventDays(crit, p75, runs))
  {
    var ds := seq(|runs|, k requires 0 <= k < |runs| => KeepDays(crit, EventDays(crit, p75, runs[k])));
    if runs == [] {
      assert KeepDays(crit, {}) == BlankField(|crit|, width);
    } else {
      var rest := runs[1..];
      assert RunsInRange(rest, |crit|) && RunsInRange(rest, |p75|);
      assert ds[1..] == seq(|rest|, k requires 0 <= k < |rest| => KeepDays(crit, EventDays(crit, p75, rest[k])));
      MergeEventDatasets(crit, p75, rest, width);
      OverlayKeepDays(crit, EventDays(crit, p75, runs[0]), AllEventDays(crit, p75, rest));
    }
  }

  /** The days the forecast output shows: the confirmed days when there are
      candidate runs, otherwise every qualifying day. */
  function ForecastDays(crit: Field, p75: Field, pointsLand: nat): (days: set<nat>)
    requires pointsLand > 0 && |p75| == |crit|
    ensures forall d :: d in days ==> d < |crit| && d in QualifyingDaysOf(crit, pointsLand)
  {
    var listIndex := QualifyingDaysOf(crit, pointsLand);
    QualifyingDaysRange(crit, pointsLand);
    var runs := CandidateRuns(listIndex);
    if runs != [] then ConfirmedDays(crit, p75, runs) else RunDays(listIndex)
  }

  /** The forecast output: the masked observed field run through the detection
      stages, or the error the source raises. */
  function ForecastOutput(tmax: Field, clim: Climatology, mask: Mask): (r: Result<Field>)
    requires Aligned(tmax, clim, mask)
    ensures |tmax| == 0 ==> r == Err(EmptyTimeAxis)
    ensures |tmax| > 0 && PointsLand(tmax, mask) == 0 ==> r == Err(NoLandPoints)
    ensures r.Ok? ==> Shaped(r.value, |tmax|, |mask|)
  {
    if |tmax| == 0 then Err(EmptyTimeAxis)
    else if PointsLand(tmax, mask) == 0 then Err(NoLandPoints)
    else
      MaskFieldCells(clim.p75, mask);
      var crit := Crit(tmax, clim, mask);
      Ok(KeepDays(crit, ForecastDays(crit, MaskField(clim.p75, mask), PointsLand(tmax, mask))))
  }

  /** The event loop followed by `xr.merge(list_datasets)`: the exceedance on
      the days of the confirmed runs, every other day missing. */
  method MergedEvents(crit: Field, p75: Field, runs: seq<seq<nat>>, width: nat) returns (f: Field)
    requires Shaped(crit, |crit|, width)
    requires RunsInRange(runs, |crit|) && RunsInRange(runs, |p75|)
    ensures f == KeepDays(crit, ConfirmedDays(crit, p75, runs))
  {
    var listDatasets := EventDatasets(crit, p75, runs);
    assert listDatasets == seq(|runs|, k requires 0 <= k < |runs| =>
      KeepDays(crit, EventDays(crit, p75, runs[k])));
    MergeEventDatasets(crit, p75, runs, width);
    AllEventDaysConfirmed(crit, p75, runs);
    f := MergeAll(listDatasets, |crit|, width);
  }

  /** From the extent loop on: `list_index`, `split_list`, and the output of the
      branch they select. */
  method AssembleForecast(crit: Field, p75: Field, pointsLand: nat, width: nat) returns (f: Field)
    requires pointsLand > 0 && |p75| == |crit| && Shaped(crit, |crit|, width)
    ensures f == KeepDays(crit, ForecastDays(crit, p75, pointsLand))
  {
    var listIndex := QualifyingDays(crit, pointsLand);
    QualifyingDaysRange(crit, pointsLand);
    var listFilter := CandidateRuns(listIndex);
    if |listFilter| != 0 {
      f := MergedEvents(crit, p75, listFilter, width);
    } else if |listIndex| == 0 {
      assert KeepDays(crit, {}) == BlankField(|crit|, width);
      f := BlankField(|crit|, width);
    } else {
      f := KeepDays(crit, RunDays(listIndex));
    }
  }

  /** `previsao_onda_de_calor` from the masking on: masking, `points_land`,
      exceedance, then the extent loop, `split_list`, the event loop and the
      output of each of the three branches. */
  method ForecastHeatwave(tmax: Field, clim: Climatology, mask: Mask) returns (out: Result<Field>)
    requires Aligned(tmax, clim, mask)
    ensures out == ForecastOutput(tmax, clim, mask)
  {
    if |tmax| == 0 {
      return Err(EmptyTimeAxis);
    }
    MaskFieldCells(tmax, mask);
    MaskFieldCells(clim.mean, mask);
    MaskFieldCells(clim.std, mask);
    MaskFieldCells(clim.p75, mask);
    var nc := MaskClimatology(clim, mask);
    var nc1 := MaskField(tmax, mask);
    var pointsLand := CountValid(nc1[0]);
    if pointsLand == 0 {
      return Err(NoLandPoints);
    }
    var crit := Exceedance(nc1, nc.mean, nc.std);
    assert crit == Crit(tmax, clim, mask);
    var f := AssembleForecast(crit, nc.p75, pointsLand, |mask|);
    out := Ok(f);
  }

  // ---------------------------------------------------------------------------
  // Properties of the forecast output
  // ---------------------------------------------------------------------------

  /** The output fails only on an empty time axis or a region without land
      points, and otherwise shows each day either as its exceedance or as all
      missing. */
  lemma ForecastShape(tmax: Field, clim: Climatology, mask: Mask)
    requires Aligned(tmax, clim, mask)
    ensures ForecastOutput(tmax, clim, mask).Err? <==> |tmax| == 0 || PointsLand(tmax, mask) == 0
    ensures ForecastOutput(tmax, clim, mask).Ok? ==>
      forall d :: 0 <= d < |tmax| ==>
        ForecastOutput(tmax, clim, mask).value[d] in {Crit(tmax, clim, mask)[d], BlankRow(|mask|)}
  {
  }

  /** Which days the output shows: with candidate runs, the days of the runs
      whose PI exceeds P75; without, every qualifying day. Either way only
      qualifying days are shown. */
  lemma ForecastDaysSpec(crit: Field, p75: Field, pointsLand: nat)
    requires pointsLand > 0 && |p75| == |crit|
    ensures RunsInRange(CandidateRuns(QualifyingDaysOf(crit, pointsLand)), |crit|)
    ensures var runs := CandidateRuns(QualifyingDaysOf(crit, pointsLand));
      forall d: nat :: d in ForecastDays(crit, p75, pointsLand) <==>
        if runs != [] then exists k :: 0 <= k < |runs| && d in runs[k] && Confirmed(crit, p75, runs[k])
        else d < |crit| && 4 * CountValid(crit[d]) > pointsLand
    ensures forall d: nat :: d in ForecastDays(crit, p75, pointsLand) ==>
      d < |crit| && 4 * CountValid(crit[d]) > pointsLand
  {
    var listIndex := QualifyingDaysOf(crit, pointsLand);
    QualifyingDaysRange(crit, pointsLand);
    QualifyingDaysSpec(crit, pointsLand);
    var runs := CandidateRuns(listIndex);
    forall d: nat | d in ForecastDays(crit, p75, pointsLand)
      ensures d in listIndex
    {
      if runs != [] {
        var k :| 0 <= k < |runs| && d in runs[k] && Confirmed(crit, p75, runs[k]);
      }
    }
  }

  /** With candidate runs, a day carries its exceedance exactly when it lies in a
      run whose PI exceeds its P75, and is all missing otherwise. */
  lemma ForecastConfirmedRuns(crit: Field, p75: Field, pointsLand: nat)
    requires pointsLand > 0 && |p75| == |crit|
    requires CandidateRuns(QualifyingDaysOf(crit, pointsLand)) != []
    ensures RunsInRange(CandidateRuns(QualifyingDaysOf(crit, pointsLand)), |crit|)
    ensures var runs := CandidateRuns(QualifyingDaysOf(crit, pointsLand));
      forall d :: 0 <= d < |crit| ==>
        KeepDays(crit, ForecastDays(crit, p75, pointsLand))[d] ==
          if exists k :: 0 <= k < |runs| && d in runs[k] && Confirmed(crit, p75, runs[k])
          then crit[d] else BlankRow(|crit[d]|)
  {
    ForecastDaysSpec(crit, p75, pointsLand);
  }

  /** With no qualifying day the output is the whole axis, every cell missing. */
  lemma ForecastNoQualifyingDays(crit: Field, p75: Field, pointsLand: nat, width: nat)
    requires pointsLand > 0 && |p75| == |crit| && Shaped(crit, |crit|, width)
    requires QualifyingDaysOf(crit, pointsLand) == []
    ensures KeepDays(crit, ForecastDays(crit, p75, pointsLand)) == BlankField(|crit|, width)
  {
    ForecastDaysSpec(crit, p75, pointsLand);
    SplitListEmpty();
    assert ForecastDays(crit, p75, pointsLand) == {};
  }

  /** With qualifying days but no run of three, every qualifying day carries its
      exceedance and every other day is all missing. */
  lemma ForecastShortRunsOnly(crit: Field, p75: Field, pointsLand: nat)
    requires pointsLand > 0 && |p75| == |crit|
    requires SplitList(QualifyingDaysOf(crit, pointsLand)) == []
    ensures forall d :: 0 <= d < |crit| ==>
      KeepDays(crit, ForecastDays(crit, p75, pointsLand))[d] ==
        if 4 * CountValid(crit[d]) > pointsLand then crit[d] else BlankRow(|crit[d]|)
  {
    CandidateRunsSpec(QualifyingDaysOf(crit, pointsLand));
    ForecastDaysSpec(crit, p75, pointsLand);
  }

  /** When every candidate run is rejected the output is all missing. */
  lemma ForecastAllRejected(crit: Field, p75: Field, pointsLand: nat, width: nat)
    requires pointsLand > 0 && |p75| == |crit| && Shaped(crit, |crit|, width)
    requires CandidateRuns(QualifyingDaysOf(crit, pointsLand)) != []
    requires RunsInRange(CandidateRuns(QualifyingDaysOf(crit, pointsLand)), |crit|)
    requires var runs := CandidateRuns(QualifyingDaysOf(crit, pointsLand));
      forall k :: 0 <= k < |runs| ==> !Confirmed(crit, p75, runs[k])
    ensures KeepDays(crit, ForecastDays(crit, p75, pointsLand)) == BlankField(|crit|, width)
  {
    ForecastDaysSpec(crit, p75, pointsLand);
    assert ForecastDays(crit, p75, pointsLand) == {};
  }
}
