/**
 * The reference entry point (`onda_de_calor` in id_heatwaves_obs.py): the same
 * detection stages as the forecast, but the output keeps only the days of the
 * confirmed runs. The run loop carries `dataset` from one iteration to the
 * next: a rejected run re-appends the dataset of the latest confirmed run, and
 * a rejected first run finds `dataset` unbound.
 */
module Reference {
  import opened Fields
  import opened Runs
  import opened Detection
  import Forecast

  /** A dataset that keeps only some days of the axis, keyed by day index. */
  type Dataset = map<nat, Row>

  /** The exceedance rows of the given days (`nc1.isel(time=idx)` with the
      exceedance as its variable). */
  function Restrict(crit: Field, days: set<nat>): (ds: Dataset)
    ensures forall d :: d in ds <==> d in days && d < |crit|
  {
    map d | d in days && d < |crit| :: crit[d]
  }

  /** The index of the latest confirmed run among the first `n` runs. */
  function LatestConfirmed(crit: Field, p75: Field, runs: seq<seq<nat>>, n: nat): (j: Option<nat>)
    requires RunsInRange(runs, |crit|) && RunsInRange(runs, |p75|) && n <= |runs|
    ensures j.Some? ==> (j.value < n && Confirmed(crit, p75, runs[j.value])
      && forall k :: j.value < k < n ==> !Confirmed(crit, p75, runs[k]))
    ensures j.None? ==> forall k :: 0 <= k < n ==> !Confirmed(crit, p75, runs[k])
  {
    if n == 0 then None
    else if Confirmed(crit, p75, runs[n - 1]) then Some(n - 1)
    else LatestConfirmed(crit, p75, runs, n - 1)
  }

  /** The days of the dataset appended at iteration `k`: those of the latest run
      confirmed so far. */
  function CarriedDays(crit: Field, p75: Field, runs: seq<seq<nat>>, k: nat): (days: set<nat>)
    requires RunsInRange(runs, |crit|) && RunsInRange(runs, |p75|) && k < |runs|
    ensures days == {} || exists j :: 0 <= j <= k && Confirmed(crit, p75, runs[j]) && days == RunDays(runs[j])
  {
    var j := LatestConfirmed(crit, p75, runs, k + 1);
    if j.Some? then RunDays(runs[j.value]) else {}
  }

  /** A confirmed run appends its own days; a rejected run after the first
      appends again what the previous iteration appended. */
  lemma CarriedDaysStep(crit: Field, p75: Field, runs: seq<seq<nat>>, k: nat)
    requires RunsInRange(runs, |crit|) && RunsInRange(runs, |p75|) && k < |runs|
    ensures Confirmed(crit, p75, runs[k]) ==> CarriedDays(crit, p75, runs, k) == RunDays(runs[k])
    ensures !Confirmed(crit, p75, runs[k]) && k > 0 ==>
      CarriedDays(crit, p75, runs, k) == CarriedDays(crit, p75, runs, k - 1)
  {
  }

  /** The run loop: each candidate run appends either its own dataset (PI > P75)
      or whatever `dataset` still holds; with no dataset yet, the loop fails. */
  method ReferenceEvents(crit: Field, p75: Field, runs: seq<seq<nat>>) returns (r: Result<seq<Dataset>>)
    requires RunsInRange(runs, |crit|) && RunsInRange(runs, |p75|)
    ensures r.Ok? <==> runs == [] || Confirmed(crit, p75, runs[0])
    ensures r.Err? ==> r.error == UnboundDataset
    ensures r.Ok? ==> (|r.value| == |runs|
      && forall k :: 0 <= k < |runs| ==> r.value[k] == Restrict(crit, CarriedDays(crit, p75, runs, k)))
  {
    var dataset: Option<Dataset> := None;
    var listDatasets: seq<Dataset> := [];
    for i := 0 to |runs|
      invariant |listDatasets| == i
      invariant dataset.None? <==> LatestConfirmed(crit, p75, runs, i).None?
      invariant dataset.Some? ==>
        dataset.value == Restrict(crit, RunDays(runs[LatestConfirmed(crit, p75, runs, i).value]))
      invariant i > 0 ==> Confirmed(crit, p75, runs[0])
      invariant forall k :: 0 <= k < i ==> listDatasets[k] == Restrict(crit, CarriedDays(crit, p75, runs, k))
    {
      if Confirmed(crit, p75, runs[i]) {
        dataset := Some(Restrict(crit, RunDays(runs[i])));
      } else if dataset.None? {
        return Err(UnboundDataset);
      }
      listDatasets := listDatasets + [dataset.value];
    }
    r := Ok(listDatasets);
  }

  /** `xr.merge(list_datasets)`: the union of the datasets' days. */
  function MergeDatasets(datasets: seq<Dataset>): (m: Dataset)
    ensures forall d :: d in m <==> exists k :: 0 <= k < |datasets| && d in datasets[k]
  {
    if datasets == [] then map[]
    else
      var rest := MergeDatasets(datasets[1..]);
      assert forall k :: 0 < k < |datasets| ==> datasets[k] == datasets[1..][k - 1];
      datasets[0] + rest
  }

  /** The union of a sequence of day sets. */
  function UnionOf(days: seq<set<nat>>): (u: set<nat>)
    ensures forall d :: d in u <==> exists k :: 0 <= k < |days| && d in days[k]
  {
    if days == [] then {}
    else
      assert forall k :: 0 < k < |days| ==> days[k] == days[1..][k - 1];
      days[0] + UnionOf(days[1..])
  }

  /** Merging restrictions of one field gives the restriction to the union of
      their days. */
  lemma {:induction false} MergeRestrictions(crit: Field, datasets: seq<Dataset>, days: seq<set<nat>>)
    requires |datasets| == |days|
    requires forall k :: 0 <= k < |datasets| ==> datasets[k] == Restrict(crit, days[k])
    ensures MergeDatasets(datasets) == Restrict(crit, UnionOf(days))
  {
    if datasets != [] {
      MergeRestrictions(crit, datasets[1..], days[1..]);
      var m, r := MergeDatasets(datasets), Restrict(crit, UnionOf(days));
      assert UnionOf(days) == days[0] + UnionOf(days[1..]);
      assert m.Keys == r.Keys;
      forall d | d in m
        ensures m[d] == r[d]
      {
        assert m[d] == crit[d];
      }
    }
  }

  /** When the first run is confirmed, the days carried through the loop are,
      together, exactly the days of the confirmed runs. */
  lemma CarriedDaysUnion(crit: Field, p75: Field, runs: seq<seq<nat>>, carried: seq<set<nat>>)
    requires RunsInRange(runs, |crit|) && RunsInRange(runs, |p75|)
    requires runs != [] && Confirmed(crit, p75, runs[0])
    requires |carried| == |runs| && forall k :: 0 <= k < |runs| ==> carried[k] == CarriedDays(crit, p75, runs, k)
    ensures UnionOf(carried) == ConfirmedDays(crit, p75, runs)
  {
    forall d | d in UnionOf(carried)
      ensures d in ConfirmedDays(crit, p75, runs)
    {
      var k :| 0 <= k < |runs| && d in carried[k];
      var j := LatestConfirmed(crit, p75, runs, k + 1);
      assert j.Some?;
      assert d in runs[j.value];
    }
    forall d | d in ConfirmedDays(crit, p75, runs)
      ensures d in UnionOf(carried)
    {
      var k :| 0 <= k < |runs| && d in runs[k] && Confirmed(crit, p75, runs[k]);
      CarriedDaysStep(crit, p75, runs, k);
      assert d in carried[k];
    }
  }

  /** The reference output: an error, nothing written (no candidate runs), or
      the exceedance rows of the confirmed runs' days. */
  function ReferenceOutput(tmax: Field, clim: Climatology, mask: Mask): (r: Result<Option<Dataset>>)
    requires Aligned(tmax, clim, mask)
    ensures |tmax| == 0 ==> r == Err(EmptyTimeAxis)
    ensures |tmax| > 0 && PointsLand(tmax, mask) == 0 ==> r == Err(NoLandPoints)
    ensures r.Ok? && r.value.Some? ==>
      forall d :: d in r.value.value ==> d < |tmax| && |r.value.value[d]| == |mask|
  {
    if |tmax| == 0 then Err(EmptyTimeAxis)
    else if PointsLand(tmax, mask) == 0 then Err(NoLandPoints)
    else
      MaskFieldCells(clim.p75, mask);
      var crit := Crit(tmax, clim, mask);
      ReferenceDays(crit, MaskField(clim.p75, mask), PointsLand(tmax, mask))
  }

  /** The outcome of the run loop for the given exceedance field. */
  function ReferenceDays(crit: Field, p75: Field, pointsLand: nat): (r: Result<Option<Dataset>>)
    requires pointsLand > 0 && |p75| == |crit|
    ensures r.Err? ==> r.error == UnboundDataset
  {
    QualifyingDaysRange(crit, pointsLand);
    var runs := CandidateRuns(QualifyingDaysOf(crit, pointsLand));
    if runs == [] then Ok(None)
    else if !Confirmed(crit, p75, runs[0]) then Err(UnboundDataset)
    else Ok(Some(Restrict(crit, ConfirmedDays(crit, p75, runs))))
  }

  /** From the extent loop on: `list_index`, `split_list`, the run loop and the merge. */
  method AssembleReference(crit: Field, p75: Field, pointsLand: nat) returns (r: Result<Option<Dataset>>)
    requires pointsLand > 0 && |p75| == |crit|
    ensures r == ReferenceDays(crit, p75, pointsLand)
  {
    var listIndex := QualifyingDays(crit, pointsLand);
    QualifyingDaysRange(crit, pointsLand);
    var listFilter := CandidateRuns(listIndex);
    if |listFilter| == 0 {
      return Ok(None);
    }
    var events := ReferenceEvents(crit, p75, listFilter);
    if events.Err? {
      return Err(events.error);
    }
    var listDatasets := events.value;
    var carried := seq(|listFilter|, k requires 0 <= k < |listFilter| => CarriedDays(crit, p75, listFilter, k));
    MergeRestrictions(crit, listDatasets, carried);
    CarriedDaysUnion(crit, p75, listFilter, carried);
    r := Ok(Some(MergeDatasets(listDatasets)));
  }

  /** `onda_de_calor` from the masking on. */
  method ReferenceHeatwave(tmax: Field, clim: Climatology, mask: Mask) returns (out: Result<Option<Dataset>>)
    requires Aligned(tmax, clim, mask)
    ensures out == ReferenceOutput(tmax, clim, mask)
  {
    if |tmax| == 0 {
      return Err(EmptyTimeAxis);
    }
    MaskFieldCells(tmax, mask);
    MaskFieldCells(clim.mean, mask);
    MaskFieldCells(clim.std, mask);
    MaskFieldCells(clim.p75, mask);
    var nc := MaskClimatology(clim, mask);
    var nc1 := MaskField(tmax, mask);
    var pointsLand := CountValid(nc1[0]);
    if pointsLand == 0 {
      return Err(NoLandPoints);
    }
    var crit := Exceedance(nc1, nc.mean, nc.std);
    assert crit == Crit(tmax, clim, mask);
    out := AssembleReference(crit, nc.p75, pointsLand);
  }

  // ---------------------------------------------------------------------------
  // Properties of the reference output
  // ---------------------------------------------------------------------------

  /** The outcome of the run loop: nothing is written exactly when there are no
      candidate runs, the unbound-dataset error arises exactly when the first
      candidate run is rejected, and a confirmed first run always writes a
      dataset. */
  lemma ReferenceDaysOutcome(crit: Field, p75: Field, pointsLand: nat)
    requires pointsLand > 0 && |p75| == |crit|
    ensures RunsInRange(CandidateRuns(QualifyingDaysOf(crit, pointsLand)), |crit|)
    ensures var runs := CandidateRuns(QualifyingDaysOf(crit, pointsLand));
      && (runs == [] <==> ReferenceDays(crit, p75, pointsLand) == Ok(None))
      && (runs != [] && !Confirmed(crit, p75, runs[0]) <==>
          ReferenceDays(crit, p75, pointsLand) == Err(UnboundDataset))
      && (runs != [] && Confirmed(crit, p75, runs[0]) <==>
          ReferenceDays(crit, p75, pointsLand).Ok? && ReferenceDays(crit, p75, pointsLand).value.Some?)
  {
    QualifyingDaysRange(crit, pointsLand);
  }

  /** The reference output's days are exactly the days of the confirmed
      candidate runs. */
  lemma ReferenceDaysSpec(crit: Field, p75: Field, pointsLand: nat)
    requires pointsLand > 0 && |p75| == |crit|
    ensures RunsInRange(CandidateRuns(QualifyingDaysOf(crit, pointsLand)), |crit|)
    ensures var r := ReferenceDays(crit, p75, pointsLand);
      var runs := CandidateRuns(QualifyingDaysOf(crit, pointsLand));
      r.Ok? && r.value.Some? ==>
        forall d: nat :: d in r.value.value <==>
          exists k :: 0 <= k < |runs| && d in runs[k] && Confirmed(crit, p75, runs[k])
  {
    QualifyingDaysRange(crit, pointsLand);
    var runs := CandidateRuns(QualifyingDaysOf(crit, pointsLand));
    var r := ReferenceDays(crit, p75, pointsLand);
    if r.Ok? && r.value.Some? {
      var days := ConfirmedDays(crit, p75, runs);
      var written := r.value.value;
      assert written == Restrict(crit, days);
      forall d: nat
        ensures d in written <==> exists k :: 0 <= k < |runs| && d in runs[k] && Confirmed(crit, p75, runs[k])
      {
        if d in days {
          var k :| 0 <= k < |runs| && d in runs[k] && Confirmed(crit, p75, runs[k]);
          assert InRange(runs[k], |crit|);
        }
      }
    }
  }

  /** Every day the reference output writes carries its exceedance row and
      passes the spatial-extent test. */
  lemma ReferenceDaysRows(crit: Field, p75: Field, pointsLand: nat)
    requires pointsLand > 0 && |p75| == |crit|
    ensures var r := ReferenceDays(crit, p75, pointsLand);
      r.Ok? && r.value.Some? ==>
        forall d :: d in r.value.value ==>
          d < |crit| && r.value.value[d] == crit[d] && 4 * CountValid(crit[d]) > pointsLand
  {
    QualifyingDaysRange(crit, pointsLand);
    QualifyingDaysSpec(crit, pointsLand);
    var listIndex := QualifyingDaysOf(crit, pointsLand);
    var runs := CandidateRuns(listIndex);
    var r := ReferenceDays(crit, p75, pointsLand);
    if r.Ok? && r.value.Some? {
      var days := ConfirmedDays(crit, p75, runs);
      assert r.value.value == Restrict(crit, days);
      forall d | d in days
        ensures d in listIndex
      {
        var k :| 0 <= k < |runs| && d in runs[k] && Confirmed(crit, p75, runs[k]);
      }
    }
  }

  /** The reference output fails with `EmptyTimeAxis` exactly on an empty time
      axis and with `NoLandPoints` exactly for a region without land points; any
      other failure is the unbound dataset of a rejected first run; a written
      day carries that day's exceedance. */
  lemma ReferenceShape(tmax: Field, clim: Climatology, mask: Mask)
    requires Aligned(tmax, clim, mask)
    ensures ReferenceOutput(tmax, clim, mask) == Err(EmptyTimeAxis) <==> |tmax| == 0
    ensures ReferenceOutput(tmax, clim, mask) == Err(NoLandPoints) <==>
      |tmax| > 0 && PointsLand(tmax, mask) == 0
    ensures var r := ReferenceOutput(tmax, clim, mask);
      r.Err? && |tmax| > 0 && PointsLand(tmax, mask) > 0 ==> r.error == UnboundDataset
    ensures var r := ReferenceOutput(tmax, clim, mask);
      r.Ok? && r.value.Some? ==>
        forall d :: d in r.value.value ==> r.value.value[d] == Crit(tmax, clim, mask)[d]
  {
  }

  /** When the first candidate run is confirmed, the reference output holds
      exactly the days the forecast output shows, with the same rows. */
  lemma ReferenceMatchesForecast(crit: Field, p75: Field, pointsLand: nat)
    requires pointsLand > 0 && |p75| == |crit|
    requires ReferenceDays(crit, p75, pointsLand).Ok? && ReferenceDays(crit, p75, pointsLand).value.Some?
    ensures var ref := ReferenceDays(crit, p75, pointsLand).value.value;
      var fc := Forecast.KeepDays(crit, Forecast.ForecastDays(crit, p75, pointsLand));
      forall d :: 0 <= d < |crit| ==>
        (d in ref <==> d in Forecast.ForecastDays(crit, p75, pointsLand)) && (d in ref ==> ref[d] == fc[d])
  {
    Forecast.ForecastDaysSpec(crit, p75, pointsLand);
  }
}
