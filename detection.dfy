/**
 * The detection stages that id_heatwaves_fcst.py and id_heatwaves_obs.py run
 * identically: masking the climatology and the observed Tmax, the land-point
 * count, the exceedance field, the spatial-extent test over days, and the
 * intensity decision (PI > P75) for a candidate run. The two scripts differ
 * only in how they assemble the output (modules Forecast and Reference).
 */
module Detection {
  import opened Fields
  import opened Runs

  datatype Error =
    | EmptyTimeAxis   // `Tmax[0, :, :]` on a field with no days
    | NoLandPoints    // `count_valid / points_land` with `points_land == 0`
    | UnboundDataset  // reference script: the first candidate run is rejected

  datatype Result<T> = Ok(value: T) | Err(error: Error)

  /** The climatology dataset: `t2m` (mean Tmax), `std` and `percentil75`,
      already aligned with the observed days and regridded to their grid. */
  datatype Climatology = Climatology(mean: Field, std: Field, p75: Field)

  /** All fields share one day axis and one grid, the grid of the mask. */
  predicate Aligned(tmax: Field, clim: Climatology, mask: Mask) {
    && Shaped(tmax, |tmax|, |mask|)
    && Shaped(clim.mean, |tmax|, |mask|)
    && Shaped(clim.std, |tmax|, |mask|)
    && Shaped(clim.p75, |tmax|, |mask|)
  }

  /** `nc.where(mask, nan)`: every climatology variable masked to the region. */
  function MaskClimatology(clim: Climatology, mask: Mask): (m: Climatology)
    requires forall d :: 0 <= d < |clim.mean| ==> |clim.mean[d]| == |mask|
    requires forall d :: 0 <= d < |clim.std| ==> |clim.std[d]| == |mask|
    requires forall d :: 0 <= d < |clim.p75| ==> |clim.p75[d]| == |mask|
    ensures Shaped(m.mean, |clim.mean|, |mask|) && Shaped(m.std, |clim.std|, |mask|)
    ensures Shaped(m.p75, |clim.p75|, |mask|)
    ensures forall d, c :: 0 <= d < |m.p75| && 0 <= c < |mask| ==>
      (m.p75[d][c].Val? ==> mask[c]) && (mask[c] ==> m.p75[d][c] == clim.p75[d][c])
  {
    Climatology(MaskField(clim.mean, mask), MaskField(clim.std, mask), MaskField(clim.p75, mask))
  }

  // ---------------------------------------------------------------------------
  // Exceedance
  // ---------------------------------------------------------------------------

  /** `where(Tmax > t2m + std, Tmax, nan)` on one cell: NaN compares false, so a
      missing operand gives a missing cell. */
  function ExceedCell(tmax: Cell, mean: Cell, std: Cell): (e: Cell)
    ensures e.Val? <==> tmax.Val? && mean.Val? && std.Val? && tmax.r > mean.r + std.r
    ensures e.Val? ==> e == tmax
  {
    match (tmax, mean, std)
    case (Val(t), Val(m), Val(s)) => if t > m + s then Val(t) else Missing
    case _ => Missing
  }

  /** The exceedance field `crit`, cell by cell. */
  function Exceedance(tmax: Field, mean: Field, std: Field): (crit: Field)
    requires SameShape(mean, tmax) && SameShape(std, tmax)
    ensures SameShape(crit, tmax)
  {
    seq(|tmax|, d requires 0 <= d < |tmax| =>
      seq(|tmax[d]|, c requires 0 <= c < |tmax[d]| => ExceedCell(tmax[d][c], mean[d][c], std[d][c])))
  }

  /** The exceedance field of the masked observed Tmax against the masked climatology. */
  function Crit(tmax: Field, clim: Climatology, mask: Mask): (crit: Field)
    requires Aligned(tmax, clim, mask)
    ensures Shaped(crit, |tmax|, |mask|)
  {
    MaskFieldCells(tmax, mask);
    MaskFieldCells(clim.mean, mask);
    MaskFieldCells(clim.std, mask);
    Exceedance(MaskField(tmax, mask), MaskField(clim.mean, mask), MaskField(clim.std, mask))
  }

  /** An exceedance cell holds a value exactly when the cell is in the region and
      its observed Tmax is strictly above climatological mean + std, and that
      value is the observed Tmax. */
  lemma CritCells(tmax: Field, clim: Climatology, mask: Mask, d: nat, c: nat)
    requires Aligned(tmax, clim, mask) && d < |tmax| && c < |mask|
    ensures Crit(tmax, clim, mask)[d][c].Val? <==>
      mask[c] && tmax[d][c].Val? && clim.mean[d][c].Val? && clim.std[d][c].Val?
      && tmax[d][c].r > clim.mean[d][c].r + clim.std[d][c].r
    ensures Crit(tmax, clim, mask)[d][c].Val? ==> Crit(tmax, clim, mask)[d][c] == tmax[d][c]
  {
    MaskFieldCells(tmax, mask);
    MaskFieldCells(clim.mean, mask);
    MaskFieldCells(clim.std, mask);
  }

  // ---------------------------------------------------------------------------
  // Land points and the spatial-extent test
  // ---------------------------------------------------------------------------

  /** `points_land`: the non-missing cells of the masked observed Tmax on day 0,
      the one denominator used for every day. */
  function PointsLand(tmax: Field, mask: Mask): (n: nat)
    requires |tmax| > 0 && |tmax[0]| == |mask|
    ensures n <= CountTrue(mask)
  {
    MaskedCountAtMostRegion(tmax[0], mask);
    CountValid(MaskRow(tmax[0], mask))
  }

  /** `points_land` never exceeds the region's cell count, and equals it exactly
      when day 0 has a value in every in-region cell. */
  lemma PointsLandBound(tmax: Field, mask: Mask)
    requires |tmax| > 0 && |tmax[0]| == |mask|
    ensures PointsLand(tmax, mask) <= CountTrue(mask)
    ensures (forall c :: 0 <= c < |mask| && mask[c] ==> tmax[0][c].Val?) <==>
      PointsLand(tmax, mask) == CountTrue(mask)
  {
    MaskedCountAtMostRegion(tmax[0], mask);
  }

  /** The sign of a product of a positive real and another real. */
  lemma ProductSign(x: real, y: real)
    requires y > 0.0
    ensures x > 0.0 <==> x * y > 0.0
    ensures x <= 0.0 <==> x * y <= 0.0
  {
  }

  /** A ratio of counts exceeds a quarter exactly when four times the numerator
      exceeds the denominator. */
  lemma QuarterTest(n: nat, p: nat)
    requires p > 0
    ensures (n as real) / (p as real) > 0.25 <==> 4 * n > p
  {
    var q := (n as real) / (p as real);
    assert q * (p as real) == n as real;
    ProductSign(q - 0.25, p as real);
    assert (q - 0.25) * (p as real) == (n as real) - 0.25 * (p as real);
  }

  /** The spatial-extent test of one day, `count_valid / points_land > 0.25`:
      more than a quarter of the land points exceed the threshold. */
  predicate Qualifies(row: Row, pointsLand: nat): (q: bool)
    requires pointsLand > 0
    ensures q <==> 4 * CountValid(row) > pointsLand
  {
    QuarterTest(CountValid(row), pointsLand);
    (CountValid(row) as real) / (pointsLand as real) > 0.25
  }

  /** Reordering the cells of a day does not change whether it qualifies. */
  lemma QualifiesPermutation(a: Row, b: Row, pointsLand: nat)
    requires pointsLand > 0 && multiset(a) == multiset(b)
    ensures Qualifies(a, pointsLand) <==> Qualifies(b, pointsLand)
  {
    CountValidPermutation(a, b);
  }

  /** `list_index` after the first `n` days: the qualifying day indices in order. */
  function QualifyingPrefix(crit: Field, pointsLand: nat, n: nat): (r: seq<nat>)
    requires pointsLand > 0 && n <= |crit|
    ensures |r| <= n && InRange(r, n)
  {
    if n == 0 then []
    else QualifyingPrefix(crit, pointsLand, n - 1) + (if Qualifies(crit[n - 1], pointsLand) then [n - 1] else [])
  }

  /** `list_index` over the whole time axis. */
  function QualifyingDaysOf(crit: Field, pointsLand: nat): (r: seq<nat>)
    requires pointsLand > 0
    ensures |r| <= |crit| && InRange(r, |crit|)
  {
    QualifyingPrefix(crit, pointsLand, |crit|)
  }

  /** The extent loop: appends each day index whose exceedance count passes the
      spatial-extent test. */
  method QualifyingDays(crit: Field, pointsLand: nat) returns (listIndex: seq<nat>)
    requires pointsLand > 0
    ensures listIndex == QualifyingDaysOf(crit, pointsLand)
  {
    listIndex := [];
    for idx := 0 to |crit|
      invariant listIndex == QualifyingPrefix(crit, pointsLand, idx)
    {
      var countValid := CountValid(crit[idx]);
      if (countValid as real) / (pointsLand as real) > 0.25 {
        listIndex := listIndex + [idx];
      }
    }
  }

  /** The qualifying indices are strictly ascending, lie on the time axis, and a
      day is among them exactly when it passes the spatial-extent test. */
  lemma {:induction false} QualifyingPrefixSpec(crit: Field, pointsLand: nat, n: nat)
    requires pointsLand > 0 && n <= |crit|
    ensures StrictlyIncreasing(QualifyingPrefix(crit, pointsLand, n))
    ensures forall i :: 0 <= i < n ==>
      (i in QualifyingPrefix(crit, pointsLand, n) <==> Qualifies(crit[i], pointsLand))
  {
    if n > 0 {
      QualifyingPrefixSpec(crit, pointsLand, n - 1);
    }
  }

  /** `list_index` over the whole axis, in the terms of the extent test. */
  lemma QualifyingDaysSpec(crit: Field, pointsLand: nat)
    requires pointsLand > 0
    ensures StrictlyIncreasing(QualifyingDaysOf(crit, pointsLand))
    ensures forall i: nat :: i in QualifyingDaysOf(crit, pointsLand) <==>
      i < |crit| && 4 * CountValid(crit[i]) > pointsLand
  {
    QualifyingPrefixSpec(crit, pointsLand, |crit|);
  }

  // ---------------------------------------------------------------------------
  // Intensity: PI and P75
  // ---------------------------------------------------------------------------

  /** Every index of `days` is a day of a field with `n` days. */
  predicate InRange(days: seq<nat>, n: nat) {
    forall k :: 0 <= k < |days| ==> days[k] < n
  }

  function SumValid(row: Row): real {
    if row == [] then 0.0 else (if row[0].Val? then row[0].r else 0.0) + SumValid(row[1..])
  }

  /** A day that holds no value sums to zero. */
  lemma {:induction false} SumValidNoValues(row: Row)
    ensures CountValid(row) == 0 ==> SumValid(row) == 0.0
  {
    if row != [] {
      SumValidNoValues(row[1..]);
    }
  }

  /** The sum of the values over the given days and all cells, missing cells skipped. */
  function SumOver(f: Field, days: seq<nat>): (s: real)
    requires InRange(days, |f|)
    ensures CountOver(f, days) == 0 ==> s == 0.0
  {
    if days == [] then 0.0
    else
      SumValidNoValues(f[days[0]]);
      SumValid(f[days[0]]) + SumOver(f, days[1..])
  }

  /** The number of values over the given days and all cells. */
  function CountOver(f: Field, days: seq<nat>): (n: nat)
    requires InRange(days, |f|)
  {
    if days == [] then 0 else CountValid(f[days[0]]) + CountOver(f, days[1..])
  }

  /** `f.isel(time=days).mean(dim=['time','latitude','longitude'])`: the mean of
      the values, missing cells skipped; NaN (here None) when there are none. */
  function MeanOver(f: Field, days: seq<nat>): (m: Option<real>)
    requires InRange(days, |f|)
    ensures m.Some? <==> CountOver(f, days) > 0
  {
    var n := CountOver(f, days);
    if n == 0 then None else Some(SumOver(f, days) / (n as real))
  }

  /** `PI > P75`: PI is the mean exceedance over the run, P75 the mean of the
      (masked) 75th-percentile field over the same days; a NaN on either side
      makes the comparison false. */
  predicate Confirmed(crit: Field, p75: Field, run: seq<nat>): (c: bool)
    requires InRange(run, |crit|) && InRange(run, |p75|)
    ensures c ==> run != []
  {
    var pi, p := MeanOver(crit, run), MeanOver(p75, run);
    pi.Some? && p.Some? && pi.value > p.value
  }

  /** Every value the field holds on the given days is above `b`. */
  predicate AllAbove(f: Field, days: seq<nat>, b: real)
    requires InRange(days, |f|)
  {
    forall k, c :: 0 <= k < |days| && 0 <= c < |f[days[k]]| && f[days[k]][c].Val? ==> f[days[k]][c].r > b
  }

  /** Every value the field holds on the given days is at most `b`. */
  predicate AllAtMost(f: Field, days: seq<nat>, b: real)
    requires InRange(days, |f|)
  {
    forall k, c :: 0 <= k < |days| && 0 <= c < |f[days[k]]| && f[days[k]][c].Val? ==> f[days[k]][c].r <= b
  }

  /** Every value of the row is above `b`. */
  predicate RowAbove(row: Row, b: real) {
    forall c :: 0 <= c < |row| && row[c].Val? ==> row[c].r > b
  }

  /** Every value of the row is at most `b`. */
  predicate RowAtMost(row: Row, b: real) {
    forall c :: 0 <= c < |row| && row[c].Val? ==> row[c].r <= b
  }

  /** `b` added once for every value of the row. */
  function BoundRow(row: Row, b: real): real {
    if row == [] then 0.0 else (if row[0].Val? then b else 0.0) + BoundRow(row[1..], b)
  }

  /** `b` added once for every value over the given days. */
  function BoundOver(f: Field, days: seq<nat>, b: real): real
    requires InRange(days, |f|)
  {
    if days == [] then 0.0 else BoundRow(f[days[0]], b) + BoundOver(f, days[1..], b)
  }

  /** `b` added to itself `n` times. */
  function Scale(n: nat, b: real): real {
    if n == 0 then 0.0 else b + Scale(n - 1, b)
  }

  lemma {:induction false} ScaleAdd(n0: nat, n1: nat, b: real)
    ensures Scale(n0 + n1, b) == Scale(n0, b) + Scale(n1, b)
  {
    if n0 > 0 {
      ScaleAdd(n0 - 1, n1, b);
    }
  }

  lemma {:induction false} ScaleIsProduct(n: nat, b: real)
    ensures Scale(n, b) == (n as real) * b
  {
    if n > 0 {
      ScaleIsProduct(n - 1, b);
      assert ((n - 1) as real) * b + b == (n as real) * b;
    }
  }

  lemma {:induction false} BoundRowIsScale(row: Row, b: real)
    ensures BoundRow(row, b) == Scale(CountValid(row), b)
  {
    if row != [] {
      BoundRowIsScale(row[1..], b);
      ScaleAdd(if row[0].Val? then 1 else 0, CountValid(row[1..]), b);
    }
  }

  lemma {:induction false} BoundOverIsScale(f: Field, days: seq<nat>, b: real)
    requires InRange(days, |f|)
    ensures BoundOver(f, days, b) == Scale(CountOver(f, days), b)
  {
    if days != [] {
      var rest := days[1..];
      assert InRange(rest, |f|);
      BoundOverIsScale(f, rest, b);
      BoundRowIsScale(f[days[0]], b);
      ScaleAdd(CountValid(f[days[0]]), CountOver(f, rest), b);
    }
  }

  lemma {:induction false} RowSumAbove(row: Row, b: real)
    requires RowAbove(row, b)
    ensures SumValid(row) >= BoundRow(row, b)
    ensures CountValid(row) > 0 ==> SumValid(row) > BoundRow(row, b)
  {
    if row != [] {
      assert RowAbove(row[1..], b) by {
        assert forall c :: 0 <= c < |row[1..]| ==> row[1..][c] == row[c + 1];
      }
      RowSumAbove(row[1..], b);
      if row[0].Val? {
        assert row[0].r > b;
      }
    }
  }

  lemma {:induction false} RowSumAtMost(row: Row, b: real)
    requires RowAtMost(row, b)
    ensures SumValid(row) <= BoundRow(row, b)
  {
    if row != [] {
      assert RowAtMost(row[1..], b) by {
        assert forall c :: 0 <= c < |row[1..]| ==> row[1..][c] == row[c + 1];
      }
      RowSumAtMost(row[1..], b);
      if row[0].Val? {
        assert row[0].r <= b;
      }
    }
  }

  lemma AllAboveTail(f: Field, days: seq<nat>, b: real)
    requires InRange(days, |f|) && days != [] && AllAbove(f, days, b)
    ensures InRange(days[1..], |f|) && AllAbove(f, days[1..], b) && RowAbove(f[days[0]], b)
  {
    var rest := days[1..];
    forall k, c | 0 <= k < |rest| && 0 <= c < |f[rest[k]]| && f[rest[k]][c].Val?
      ensures f[rest[k]][c].r > b
    {
      assert rest[k] == days[k + 1];
    }
  }

  lemma AllAtMostTail(f: Field, days: seq<nat>, b: real)
    requires InRange(days, |f|) && days != [] && AllAtMost(f, days, b)
    ensures InRange(days[1..], |f|) && AllAtMost(f, days[1..], b) && RowAtMost(f[days[0]], b)
  {
    var rest := days[1..];
    forall k, c | 0 <= k < |rest| && 0 <= c < |f[rest[k]]| && f[rest[k]][c].Val?
      ensures f[rest[k]][c].r <= b
    {
      assert rest[k] == days[k + 1];
    }
  }

  lemma {:induction false} SumOverAbove(f: Field, days: seq<nat>, b: real)
    requires InRange(days, |f|) && AllAbove(f, days, b)
    ensures SumOver(f, days) >= BoundOver(f, days, b)
    ensures CountOver(f, days) > 0 ==> SumOver(f, days) > BoundOver(f, days, b)
  {
    if days != [] {
      AllAboveTail(f, days, b);
      SumOverAbove(f, days[1..], b);
      RowSumAbove(f[days[0]], b);
    }
  }

  lemma {:induction false} SumOverAtMost(f: Field, days: seq<nat>, b: real)
    requires InRange(days, |f|) && AllAtMost(f, days, b)
    ensures SumOver(f, days) <= BoundOver(f, days, b)
  {
    if days != [] {
      AllAtMostTail(f, days, b);
      SumOverAtMost(f, days[1..], b);
      RowSumAtMost(f[days[0]], b);
    }
  }

  /** A total above `n` times `b`, shared among `n`, is above `b` each. */
  lemma RatioAbove(s: real, n: real, b: real)
    requires n > 0.0 && s > n * b
    ensures s / n > b
  {
    var m := s / n;
    assert m * n == s;
    ProductSign(m - b, n);
    assert (m - b) * n == s - n * b;
  }

  /** A total at most `n` times `b`, shared among `n`, is at most `b` each. */
  lemma RatioAtMost(s: real, n: real, b: real)
    requires n > 0.0 && s <= n * b
    ensures s / n <= b
  {
    var m := s / n;
    assert m * n == s;
    ProductSign(m - b, n);
    assert (m - b) * n == s - n * b;
  }

  /** A mean of values all above `b` is above `b`. */
  lemma MeanAbove(f: Field, days: seq<nat>, b: real)
    requires InRange(days, |f|) && AllAbove(f, days, b) && MeanOver(f, days).Some?
    ensures MeanOver(f, days).value > b
  {
    var s, n := SumOver(f, days), CountOver(f, days);
    SumOverAbove(f, days, b);
    BoundOverIsScale(f, days, b);
    ScaleIsProduct(n, b);
    RatioAbove(s, n as real, b);
    assert MeanOver(f, days) == Some(s / (n as real));
  }

  /** A mean of values all at most `b` is at most `b`. */
  lemma MeanAtMost(f: Field, days: seq<nat>, b: real)
    requires InRange(days, |f|) && AllAtMost(f, days, b) && MeanOver(f, days).Some?
    ensures MeanOver(f, days).value <= b
  {
    var s, n := SumOver(f, days), CountOver(f, days);
    SumOverAtMost(f, days, b);
    BoundOverIsScale(f, days, b);
    ScaleIsProduct(n, b);
    RatioAtMost(s, n as real, b);
    assert MeanOver(f, days) == Some(s / (n as real));
  }

  /** A run is confirmed when it has exceedance values and percentile values and
      every exceedance value is above a bound every percentile value is at most. */
  lemma ConfirmedWhenAbovePercentiles(crit: Field, p75: Field, run: seq<nat>, b: real)
    requires InRange(run, |crit|) && InRange(run, |p75|)
    requires CountOver(crit, run) > 0 && CountOver(p75, run) > 0
    requires AllAbove(crit, run, b) && AllAtMost(p75, run, b)
    ensures Confirmed(crit, p75, run)
  {
    MeanAbove(crit, run, b);
    MeanAtMost(p75, run, b);
  }

  /** A run is rejected when no exceedance value is above a bound every
      percentile value is above, or when either mean is NaN. */
  lemma RejectedWhenBelowPercentiles(crit: Field, p75: Field, run: seq<nat>, b: real)
    requires InRange(run, |crit|) && InRange(run, |p75|)
    requires AllAtMost(crit, run, b) && AllAbove(p75, run, b)
    ensures !Confirmed(crit, p75, run)
  {
    if MeanOver(crit, run).Some? && MeanOver(p75, run).Some? {
      MeanAtMost(crit, run, b);
      MeanAbove(p75, run, b);
    }
  }

  // ---------------------------------------------------------------------------
  // Candidate runs and confirmed days
  // ---------------------------------------------------------------------------

  /** The days of a run. */
  function RunDays(run: seq<nat>): set<nat> {
    set d | d in run
  }

  /** Every day index of every run lies on an axis of `n` days. */
  predicate RunsInRange(runs: seq<seq<nat>>, n: nat) {
    forall k :: 0 <= k < |runs| ==> InRange(runs[k], n)
  }

  /** The union of the days of the confirmed runs. */
  function ConfirmedDays(crit: Field, p75: Field, runs: seq<seq<nat>>): (days: set<nat>)
    requires RunsInRange(runs, |crit|) && RunsInRange(runs, |p75|)
    ensures forall d :: d in days <==>
      exists k :: 0 <= k < |runs| && d in runs[k] && Confirmed(crit, p75, runs[k])
  {
    if runs == [] then {}
    else
      var rest := ConfirmedDays(crit, p75, runs[1..]);
      assert forall k :: 0 < k < |runs| ==> runs[k] == runs[1..][k - 1];
      (if Confirmed(crit, p75, runs[0]) then RunDays(runs[0]) else {}) + rest
  }

  /** `split_list(list_index)`: the candidate runs, as day indices. */
  function CandidateRuns(listIndex: seq<nat>): (runs: seq<seq<nat>>)
    ensures forall k :: 0 <= k < |runs| ==> forall x :: x in runs[k] ==> x in listIndex
  {
    SplitListRuns(listIndex);
    var groups := SplitList(listIndex);
    seq(|groups|, k requires 0 <= k < |groups| => AsDays(groups[k], listIndex))
  }

  /** A run of elements of `listIndex`, as a sequence of day indices. */
  function AsDays(r: seq<int>, listIndex: seq<nat>): (days: seq<nat>)
    requires forall x :: x in r ==> x in listIndex
    ensures days == r
  {
    if r == [] then [] else assert r[0] in r; [r[0] as nat] + AsDays(r[1..], listIndex)
  }

  /** Each candidate run has at least three consecutive day indices, all of them
      qualifying days. */
  lemma CandidateRunsSpec(listIndex: seq<nat>)
    ensures |CandidateRuns(listIndex)| == |SplitList(listIndex)|
    ensures forall k :: 0 <= k < |CandidateRuns(listIndex)| ==>
      CandidateRuns(listIndex)[k] == SplitList(listIndex)[k]
      && |CandidateRuns(listIndex)[k]| >= 3 && Consecutive(CandidateRuns(listIndex)[k])
  {
    SplitListRuns(listIndex);
  }

  /** The candidate runs hold days of the axis. */
  lemma QualifyingDaysRange(crit: Field, pointsLand: nat)
    requires pointsLand > 0
    ensures InRange(QualifyingDaysOf(crit, pointsLand), |crit|)
    ensures RunsInRange(CandidateRuns(QualifyingDaysOf(crit, pointsLand)), |crit|)
  {
    var listIndex := QualifyingDaysOf(crit, pointsLand);
    QualifyingPrefixSpec(crit, pointsLand, |crit|);
    var runs := CandidateRuns(listIndex);
    forall k, j | 0 <= k < |runs| && 0 <= j < |runs[k]|
      ensures runs[k][j] < |crit|
    {
      assert runs[k][j] in runs[k];
      var i :| 0 <= i < |listIndex| && listIndex[i] == runs[k][j];
    }
  }
}
