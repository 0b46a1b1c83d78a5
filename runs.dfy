/**
 * The run groupers of tools/tools_idhw_v2.py: `split_list`, which cuts the
 * qualifying day indices into maximal consecutive runs and keeps those of at
 * least three days, and `split_dates_by_sequence`, which groups dates (day
 * numbers here) into maximal consecutive runs with no length filter.
 */
module Runs {

  predicate Sorted(s: seq<int>) {
    forall i, j :: 0 <= i < j < |s| ==> s[i] <= s[j]
  }

  predicate StrictlyIncreasing(s: seq<int>) {
    forall i, j :: 0 <= i < j < |s| ==> s[i] < s[j]
  }

  /** Every element is its predecessor plus one. */
  predicate Consecutive(r: seq<int>) {
    forall p :: 0 < p < |r| ==> r[p] == r[p - 1] + 1
  }

  /** A non-empty run of consecutive values. */
  predicate IsRun(r: seq<int>) {
    |r| > 0 && Consecutive(r)
  }

  /** `b` does not continue `a`: the first of `b` is not the last of `a` plus one. */
  predicate Separated(a: seq<int>, b: seq<int>) {
    a == [] || b == [] || a[|a| - 1] + 1 != b[0]
  }

  function Flatten(groups: seq<seq<int>>): seq<int> {
    if groups == [] then [] else groups[0] + Flatten(groups[1..])
  }

  /** `groups` cut `s` into its maximal runs: they concatenate to `s`, each is a
      run, and no group continues the one before it. */
  predicate IsRunPartition(groups: seq<seq<int>>, s: seq<int>) {
    && Flatten(groups) == s
    && (forall k :: 0 <= k < |groups| ==> IsRun(groups[k]))
    && (forall k :: 0 < k < |groups| ==> Separated(groups[k - 1], groups[k]))
  }

  /** `s[i..j]` is a maximal run of `s`: consecutive inside, and neither
      continued by the element after it nor continuing the element before it. */
  predicate IsMaximalRun(s: seq<int>, i: int, j: int) {
    && 0 <= i < j <= |s|
    && (forall p :: i < p < j ==> s[p] == s[p - 1] + 1)
    && (i == 0 || s[i] != s[i - 1] + 1)
    && (j == |s| || s[j] != s[j - 1] + 1)
  }

  // ---------------------------------------------------------------------------
  // Sorting (`sorted(dates)`)
  // ---------------------------------------------------------------------------

  function Insert(x: int, s: seq<int>): (r: seq<int>)
    requires Sorted(s)
    ensures Sorted(r) && multiset(r) == multiset(s) + multiset{x}
  {
    if s == [] || x <= s[0] then [x] + s
    else
      var t := Insert(x, s[1..]);
      assert s == [s[0]] + s[1..];
      InsertKeepsLowerBound(s[0], x, s[1..], t);
      assert multiset([s[0]] + t) == multiset{s[0]} + multiset(t);
      [s[0]] + t
  }

  /** A lower bound of `x` and of every element of `s` bounds every element of
      `t` when `t` holds the elements of `s` and `x`. */
  lemma InsertKeepsLowerBound(lo: int, x: int, s: seq<int>, t: seq<int>)
    requires Sorted([lo] + s) && lo <= x
    requires Sorted(t) && multiset(t) == multiset(s) + multiset{x}
    ensures Sorted([lo] + t)
  {
    forall y | y in t
      ensures lo <= y
    {
      assert y in multiset(t);
      assert ([lo] + s)[0] == lo;
      if y != x {
        assert y in multiset(s);
        var i :| 0 <= i < |s| && s[i] == y;
        assert ([lo] + s)[i + 1] == y;
      }
    }
    var lt := [lo] + t;
    forall i, j | 0 <= i < j < |lt|
      ensures lt[i] <= lt[j]
    {
      if i == 0 {
        assert lt[j] == t[j - 1] && t[j - 1] in t;
      } else {
        assert lt[i] == t[i - 1] && lt[j] == t[j - 1];
      }
    }
  }

  /** Python's `sorted` on day numbers: an ordered permutation of the input. */
  function Sort(s: seq<int>): (r: seq<int>)
    ensures Sorted(r) && multiset(r) == multiset(s)
  {
    if s == [] then []
    else
      assert s == [s[0]] + s[1..];
      Insert(s[0], Sort(s[1..]))
  }

  // ---------------------------------------------------------------------------
  // split_list
  // ---------------------------------------------------------------------------

  /** The break positions among the first `n` elements: `p` with `0 < p < n` where
      the difference `s[p] - s[p - 1]` (`np.diff`) is not 1. */
  function Breaks(s: seq<int>, n: nat): (b: seq<nat>)
    requires n <= |s|
    ensures forall k :: 0 <= k < |b| ==> 1 <= b[k] < n
  {
    if n <= 1 then [] else Breaks(s, n - 1) + (if s[n - 1] - s[n - 2] != 1 then [n - 1] else [])
  }

  /** `[0] + breaks + [len(mylist)]`: the bounds of the slices. */
  function Cuts(s: seq<int>): (cuts: seq<nat>)
    ensures |cuts| >= 2 && cuts[0] == 0 && cuts[|cuts| - 1] == |s|
  {
    [0] + Breaks(s, |s|) + [|s|]
  }

  /** Valid slice bounds for `s`: non-decreasing and within `s`. */
  predicate ValidCuts(cuts: seq<nat>, n: nat) {
    && (forall k :: 0 <= k < |cuts| ==> cuts[k] <= n)
    && (forall i, j :: 0 <= i <= j < |cuts| ==> cuts[i] <= cuts[j])
  }

  /** `[mylist[a:b] for a, b in zip(cuts[:-1], cuts[1:])]`. */
  function Slices(s: seq<int>, cuts: seq<nat>): (slices: seq<seq<int>>)
    requires ValidCuts(cuts, |s|)
    ensures |cuts| >= 1 ==> |slices| == |cuts| - 1
    decreases |cuts|
  {
    if |cuts| < 2 then [] else [s[cuts[0]..cuts[1]]] + Slices(s, cuts[1..])
  }

  /** `int_list`: `s` cut at every break. */
  function IntList(s: seq<int>): (groups: seq<seq<int>>)
    ensures Flatten(groups) == s
  {
    CutsValid(s);
    FlattenSlices(s, Cuts(s));
    assert s[0..|s|] == s;
    Slices(s, Cuts(s))
  }

  /** The list filter of `split_list`: keep the groups longer than two. */
  function KeepLong(groups: seq<seq<int>>): (kept: seq<seq<int>>)
    ensures |kept| <= |groups|
  {
    if groups == [] then []
    else (if |groups[0]| > 2 then [groups[0]] else []) + KeepLong(groups[1..])
  }

  /** `split_list(mylist)`: the groups of at least three elements, every
      element taken from the input. */
  function SplitList(s: seq<int>): (runs: seq<seq<int>>)
    ensures forall k :: 0 <= k < |runs| ==> |runs[k]| >= 3
    ensures forall x :: x in Flatten(runs) ==> x in s
  {
    var groups := IntList(s);
    KeepLongMembership(groups);
    assert forall x :: x in Flatten(KeepLong(groups)) ==> x in s by {
      forall x | x in Flatten(KeepLong(groups))
        ensures x in s
      {
        KeepLongSubset(groups, x);
      }
    }
    KeepLong(groups)
  }

  // ---------------------------------------------------------------------------
  // split_dates_by_sequence
  // ---------------------------------------------------------------------------

  /** `split_dates_by_sequence(dates)`, dates as day numbers: sorts, then
      groups the sorted dates into maximal runs. */
  method SplitDatesBySequence(dates: seq<int>) returns (result: seq<seq<int>>)
    requires |dates| > 0
    ensures IsRunPartition(result, Sort(dates))
  {
    var sortedDates := Sort(dates);
    assert |sortedDates| == |multiset(sortedDates)| == |multiset(dates)| == |dates|;
    result := GroupSequences(sortedDates);
  }

  /** The loop of `split_dates_by_sequence`: a date that is the previous date
      plus one day extends the current group, any other date (a gap or a
      repeated date) closes it and starts a new one; the last group is closed
      after the loop. */
  method GroupSequences(sortedDates: seq<int>) returns (result: seq<seq<int>>)
    requires |sortedDates| > 0
    ensures IsRunPartition(result, sortedDates)
  {
    result := [];
    var currentSequence := [sortedDates[0]];
    for i := 1 to |sortedDates|
      invariant IsRun(currentSequence)
      invariant currentSequence[|currentSequence| - 1] == sortedDates[i - 1]
      invariant Flatten(result) + currentSequence == sortedDates[..i]
      invariant IsRunPartition(result, Flatten(result))
      invariant result != [] ==> Separated(result[|result| - 1], currentSequence)
    {
      var currentDate := sortedDates[i];
      var previousDate := sortedDates[i - 1];
      assert sortedDates[..i + 1] == sortedDates[..i] + [currentDate];
      if currentDate == previousDate + 1 {
        ExtendRun(currentSequence, currentDate);
        assert Flatten(result) + (currentSequence + [currentDate])
            == (Flatten(result) + currentSequence) + [currentDate];
        currentSequence := currentSequence + [currentDate];
      } else {
        PartitionAppend(result, currentSequence);
        result := result + [currentSequence];
        currentSequence := [currentDate];
      }
    }
    PartitionAppend(result, currentSequence);
    result := result + [currentSequence];
    assert sortedDates[..|sortedDates|] == sortedDates;
  }

  /** Appending the successor of its last element keeps a run a run. */
  lemma ExtendRun(r: seq<int>, x: int)
    requires IsRun(r) && r[|r| - 1] + 1 == x
    ensures IsRun(r + [x]) && (r + [x])[0] == r[0] && (r + [x])[|r|] == x
  {
  }

  /** Closing a run that does not continue the last group extends a partition. */
  lemma PartitionAppend(groups: seq<seq<int>>, g: seq<int>)
    requires IsRunPartition(groups, Flatten(groups)) && IsRun(g)
    requires groups != [] ==> Separated(groups[|groups| - 1], g)
    ensures IsRunPartition(groups + [g], Flatten(groups) + g)
  {
    FlattenAppend(groups, g);
    var gs := groups + [g];
    forall k | 0 <= k < |gs|
      ensures IsRun(gs[k])
    {
      if k < |groups| {
        assert gs[k] == groups[k];
      }
    }
    forall k | 0 < k < |gs|
      ensures Separated(gs[k - 1], gs[k])
    {
      if k < |groups| {
        assert gs[k - 1] == groups[k - 1] && gs[k] == groups[k];
      }
    }
  }

  // ---------------------------------------------------------------------------
  // Lemmas: Flatten
  // ---------------------------------------------------------------------------

  lemma {:induction false} FlattenAppend(groups: seq<seq<int>>, g: seq<int>)
    ensures Flatten(groups + [g]) == Flatten(groups) + g
  {
    if groups == [] {
      assert groups + [g] == [g];
    } else {
      assert (groups + [g])[1..] == groups[1..] + [g];
      FlattenAppend(groups[1..], g);
    }
  }

  /** Every element of a group is an element of the concatenation. */
  lemma {:induction false} FlattenContains(groups: seq<seq<int>>, k: nat, x: int)
    requires k < |groups| && x in groups[k]
    ensures x in Flatten(groups)
  {
    if k > 0 {
      FlattenContains(groups[1..], k - 1, x);
    }
  }

  /** Every element kept by the length filter was in the unfiltered groups. */
  lemma {:induction false} KeepLongSubset(groups: seq<seq<int>>, x: int)
    requires x in Flatten(KeepLong(groups))
    ensures x in Flatten(groups)
  {
    if groups != [] {
      var head := if |groups[0]| > 2 then [groups[0]] else [];
      assert KeepLong(groups) == head + KeepLong(groups[1..]);
      if head == [] {
        assert KeepLong(groups) == KeepLong(groups[1..]);
        KeepLongSubset(groups[1..], x);
      } else {
        assert KeepLong(groups)[1..] == KeepLong(groups[1..]);
        assert Flatten(KeepLong(groups)) == groups[0] + Flatten(KeepLong(groups[1..]));
        if x !in groups[0] {
          KeepLongSubset(groups[1..], x);
        }
      }
    }
  }

  // ---------------------------------------------------------------------------
  // Lemmas: breaks and cuts
  // ---------------------------------------------------------------------------

  /** The breaks are the positions where the difference is not 1, in ascending order. */
  lemma {:induction false} BreaksSpec(s: seq<int>, n: nat)
    requires n <= |s|
    ensures StrictlyIncreasing(Breaks(s, n))
    ensures forall p :: 1 <= p < n ==> (p in Breaks(s, n) <==> s[p] != s[p - 1] + 1)
  {
    if n > 1 {
      BreaksSpec(s, n - 1);
    }
  }

  /** Ordering half of `CutsValid`: the cuts are valid slice bounds, strictly
      increasing for a non-empty list. */
  lemma CutsOrdered(s: seq<int>)
    ensures ValidCuts(Cuts(s), |s|)
    ensures |s| > 0 ==> StrictlyIncreasing(Cuts(s))
  {
    BreaksSpec(s, |s|);
    var b := Breaks(s, |s|);
    var cuts := Cuts(s);
    assert cuts == [0] + b + [|s|];
    forall i, j | 0 <= i < j < |cuts|
      ensures cuts[i] <= cuts[j] && (|s| > 0 ==> cuts[i] < cuts[j])
    {
      if i > 0 && j < |cuts| - 1 {
        assert cuts[i] == b[i - 1] && cuts[j] == b[j - 1];
      } else if i > 0 {
        assert cuts[i] == b[i - 1];
      } else if j < |cuts| - 1 {
        assert cuts[j] == b[j - 1];
      }
    }
  }

  /** Membership half of `CutsValid`: an inner position is a cut exactly when
      it is a break. */
  lemma CutsAreBreaks(s: seq<int>)
    ensures forall p :: 0 < p < |s| ==> (p in Cuts(s) <==> s[p] != s[p - 1] + 1)
  {
    BreaksSpec(s, |s|);
    var b := Breaks(s, |s|);
    var cuts := Cuts(s);
    assert cuts == [0] + b + [|s|];
    forall p | 0 < p < |s|
      ensures p in cuts <==> p in b
    {
      if p in cuts {
        var k :| 0 <= k < |cuts| && cuts[k] == p;
        assert 0 < k < |cuts| - 1;
        assert b[k - 1] == p;
      }
      if p in b {
        var k :| 0 <= k < |b| && b[k] == p;
        assert cuts[k + 1] == p;
      }
    }
  }

  /** The cuts are valid slice bounds, are strictly increasing for a non-empty
      list, and an inner position is a cut exactly when it is a break. */
  lemma CutsValid(s: seq<int>)
    ensures ValidCuts(Cuts(s), |s|)
    ensures |s| > 0 ==> StrictlyIncreasing(Cuts(s))
    ensures forall p :: 0 < p < |s| ==> (p in Cuts(s) <==> s[p] != s[p - 1] + 1)
  {
    CutsOrdered(s);
    CutsAreBreaks(s);
  }

  lemma {:induction false} SliceAt(s: seq<int>, cuts: seq<nat>, k: nat)
    requires ValidCuts(cuts, |s|) && k + 1 < |cuts|
    ensures |Slices(s, cuts)| == |cuts| - 1
    ensures Slices(s, cuts)[k] == s[cuts[k]..cuts[k + 1]]
  {
    if k > 0 {
      SliceAt(s, cuts[1..], k - 1);
    }
  }

  /** The slices concatenate to the part of `s` between the first and the last cut. */
  lemma {:induction false} FlattenSlices(s: seq<int>, cuts: seq<nat>)
    requires ValidCuts(cuts, |s|) && |cuts| >= 1
    ensures Flatten(Slices(s, cuts)) == s[cuts[0]..cuts[|cuts| - 1]]
  {
    if |cuts| >= 2 {
      FlattenSlices(s, cuts[1..]);
      assert Slices(s, cuts)[1..] == Slices(s, cuts[1..]);
      assert s[cuts[0]..cuts[1]] + s[cuts[1]..cuts[|cuts| - 1]] == s[cuts[0]..cuts[|cuts| - 1]];
    }
  }

  // ---------------------------------------------------------------------------
  // Lemmas: split_list
  // ---------------------------------------------------------------------------

  /** The length filter keeps exactly the groups of more than two elements. */
  lemma {:induction false} KeepLongMembership(groups: seq<seq<int>>)
    ensures forall r :: r in KeepLong(groups) <==> r in groups && |r| > 2
  {
    if groups != [] {
      KeepLongMembership(groups[1..]);
      assert groups == [groups[0]] + groups[1..];
    }
  }

  /** No cut lies strictly between two neighbouring cuts. */
  lemma NoCutBetween(cuts: seq<nat>, k: nat, p: int)
    requires StrictlyIncreasing(cuts) && k + 1 < |cuts|
    requires cuts[k] < p < cuts[k + 1]
    ensures p !in cuts
  {
    forall m | 0 <= m < |cuts|
      ensures cuts[m] != p
    {
      if m <= k {
        assert cuts[m] <= cuts[k];
      } else {
        assert cuts[k + 1] <= cuts[m];
      }
    }
  }

  /** A value that is a cut sits at some index of the cuts. */
  lemma CutIndex(cuts: seq<nat>, p: nat) returns (k: nat)
    requires p in cuts
    ensures k < |cuts| && cuts[k] == p
  {
    k :| 0 <= k < |cuts| && cuts[k] == p;
  }

  /** The part of a non-empty list between two neighbouring cuts is a run, and
      does not continue the part before it. */
  lemma RunBetweenCuts(s: seq<int>, cuts: seq<nat>, k: nat)
    requires |s| > 0 && cuts == Cuts(s) && k + 1 < |cuts|
    ensures 0 <= cuts[k] < cuts[k + 1] <= |s|
    ensures IsRun(s[cuts[k]..cuts[k + 1]])
    ensures k > 0 ==> cuts[k - 1] < cuts[k] && Separated(s[cuts[k - 1]..cuts[k]], s[cuts[k]..cuts[k + 1]])
  {
    CutsOrdered(s);
    SliceIsMaximal(s, k);
    var i, j := cuts[k], cuts[k + 1];
    assert i < j;
    var r := s[i..j];
    forall q | 0 < q < |r|
      ensures r[q] == r[q - 1] + 1
    {
      assert r[q] == s[i + q] && r[q - 1] == s[i + q - 1];
    }
    if k > 0 {
      assert cuts[k - 1] < i;
    }
  }

  /** Before filtering, the slices of a non-empty list are exactly its maximal
      runs: they concatenate back to the list in order, each is a non-empty
      consecutive run, and each slice starts where the previous one breaks. */
  lemma IntListIsRunPartition(s: seq<int>)
    requires |s| > 0
    ensures IsRunPartition(IntList(s), s)
  {
    CutsOrdered(s);
    var cuts := Cuts(s);
    var g := IntList(s);
    forall k | 0 <= k < |g|
      ensures IsRun(g[k]) && (k > 0 ==> Separated(g[k - 1], g[k]))
    {
      RunBetweenCuts(s, cuts, k);
      SliceAt(s, cuts, k);
      if k > 0 {
        SliceAt(s, cuts, k - 1);
      }
    }
  }

  /** `split_list([])` is `[]`: the one empty slice is filtered out. */
  lemma SplitListEmpty()
    ensures SplitList([]) == []
  {
    assert Cuts([]) == [0, 0];
    assert IntList([]) == [[]];
  }

  /** Every run `split_list` returns has at least three elements, each one more
      than the previous, all taken from the input. */
  lemma SplitListRuns(s: seq<int>)
    ensures forall r :: r in SplitList(s) ==> |r| >= 3 && Consecutive(r)
    ensures forall r, x :: r in SplitList(s) && x in r ==> x in s
  {
    if s == [] {
      SplitListEmpty();
    } else {
      IntListIsRunPartition(s);
      var g := IntList(s);
      KeepLongMembership(g);
      forall r, x | r in SplitList(s) && x in r
        ensures x in s
      {
        var k :| 0 <= k < |g| && g[k] == r;
        FlattenContains(g, k, x);
      }
    }
  }

  /** Every maximal run of at least three elements is returned by `split_list`. */
  lemma MaximalRunsAreKept(s: seq<int>, i: int, j: int)
    requires IsMaximalRun(s, i, j) && j - i >= 3
    ensures s[i..j] in SplitList(s)
  {
    var k := MaximalRunBetweenCuts(s, i, j);
    CutsOrdered(s);
    SliceAt(s, Cuts(s), k);
    assert IntList(s)[k] == s[i..j];
    KeepLongMembership(IntList(s));
  }

  /** The bounds of a maximal run are neighbouring cuts. */
  lemma MaximalRunBetweenCuts(s: seq<int>, i: int, j: int) returns (k: nat)
    requires IsMaximalRun(s, i, j)
    ensures k + 1 < |Cuts(s)| && Cuts(s)[k] == i && Cuts(s)[k + 1] == j
  {
    CutsValid(s);
    var cuts := Cuts(s);
    assert i in cuts by {
      if i == 0 { assert cuts[0] == i; }
    }
    assert j in cuts by {
      assert cuts[|cuts| - 1] == |s|;
    }
    k := CutIndex(cuts, i);
    var m := CutIndex(cuts, j);
    assert k < m;
    var c := cuts[k + 1];
    assert c <= j by {
      assert k + 1 <= m;
    }
    assert c < |s| ==> s[c] != s[c - 1] + 1 by {
      if c < |s| { assert c in cuts; }
    }
  }

  /** The slice between two neighbouring cuts is a maximal run. */
  lemma SliceIsMaximal(s: seq<int>, k: nat)
    requires k + 1 < |Cuts(s)| && |s| > 0
    ensures IsMaximalRun(s, Cuts(s)[k], Cuts(s)[k + 1])
  {
    CutsValid(s);
    var cuts := Cuts(s);
    var i, j := cuts[k], cuts[k + 1];
    forall p | i < p < j
      ensures s[p] == s[p - 1] + 1
    {
      NoCutBetween(cuts, k, p);
    }
    assert i == 0 || s[i] != s[i - 1] + 1 by {
      if i != 0 { assert i in cuts; }
    }
    assert j == |s| || s[j] != s[j - 1] + 1 by {
      if j != |s| { assert j in cuts; }
    }
  }

  /** Every run returned by `split_list` is a maximal run of the input. */
  lemma KeptRunsAreMaximal(s: seq<int>, r: seq<int>)
    requires r in SplitList(s)
    ensures exists i, j :: IsMaximalRun(s, i, j) && j - i >= 3 && r == s[i..j]
  {
    CutsValid(s);
    var cuts := Cuts(s);
    KeepLongMembership(IntList(s));
    var k :| 0 <= k < |IntList(s)| && IntList(s)[k] == r;
    SliceAt(s, cuts, k);
    assert |s| > 0 by {
      assert |r| > 2;
    }
    SliceIsMaximal(s, k);
    assert IsMaximalRun(s, cuts[k], cuts[k + 1]) && r == s[cuts[k]..cuts[k + 1]];
  }

  lemma StrictlyIncreasingConcat(a: seq<int>, b: seq<int>)
    requires StrictlyIncreasing(a) && StrictlyIncreasing(b)
    requires forall x, y :: x in a && y in b ==> x < y
    ensures StrictlyIncreasing(a + b)
  {
    var ab := a + b;
    forall i, j | 0 <= i < j < |ab|
      ensures ab[i] < ab[j]
    {
      if i < |a| && j >= |a| {
        assert ab[i] in a && ab[j] in b;
      }
    }
  }

  /** Filtering groups whose concatenation is strictly increasing keeps it so. */
  lemma {:induction false} KeepLongIncreasing(groups: seq<seq<int>>)
    requires StrictlyIncreasing(Flatten(groups))
    ensures StrictlyIncreasing(Flatten(KeepLong(groups)))
  {
    if groups != [] {
      var rest := groups[1..];
      var fl := Flatten(groups);
      assert fl == groups[0] + Flatten(rest);
      assert StrictlyIncreasing(Flatten(rest)) by {
        forall i, j | 0 <= i < j < |Flatten(rest)|
          ensures Flatten(rest)[i] < Flatten(rest)[j]
        {
          assert Flatten(rest)[i] == fl[|groups[0]| + i];
          assert Flatten(rest)[j] == fl[|groups[0]| + j];
        }
      }
      KeepLongIncreasing(rest);
      if |groups[0]| > 2 {
        assert KeepLong(groups) == [groups[0]] + KeepLong(rest);
        assert KeepLong(groups)[1..] == KeepLong(rest);
        assert Flatten(KeepLong(groups)) == groups[0] + Flatten(KeepLong(rest));
        assert StrictlyIncreasing(groups[0]) by {
          forall i, j | 0 <= i < j < |groups[0]|
            ensures groups[0][i] < groups[0][j]
          {
            assert groups[0][i] == fl[i] && groups[0][j] == fl[j];
          }
        }
        forall x, y | x in groups[0] && y in Flatten(KeepLong(rest))
          ensures x < y
        {
          KeepLongSubset(rest, y);
          var i :| 0 <= i < |groups[0]| && groups[0][i] == x;
          var j :| 0 <= j < |Flatten(rest)| && Flatten(rest)[j] == y;
          assert fl[i] == x && fl[|groups[0]| + j] == y;
        }
        StrictlyIncreasingConcat(groups[0], Flatten(KeepLong(rest)));
      } else {
        assert KeepLong(groups) == KeepLong(rest);
      }
    }
  }

  /** For a strictly increasing input the returned runs, read one after another,
      are strictly increasing: they come in ascending order and no run (and no
      index) appears twice. */
  lemma SplitListAscending(s: seq<int>)
    requires StrictlyIncreasing(s)
    ensures StrictlyIncreasing(Flatten(SplitList(s)))
  {
    if s == [] {
      SplitListEmpty();
    } else {
      IntListIsRunPartition(s);
      KeepLongIncreasing(IntList(s));
    }
  }

  /** The cuts of the worked example: breaks before 5 and before 12. */
  lemma CutsExample()
    ensures Cuts([0, 1, 2, 5, 6, 7, 8, 12]) == [0, 3, 7, 8]
  {
    var s := [0, 1, 2, 5, 6, 7, 8, 12];
    assert Breaks(s, 1) == [];
    assert Breaks(s, 2) == [];
    assert Breaks(s, 3) == [];
    assert Breaks(s, 4) == [3];
    assert Breaks(s, 5) == [3];
    assert Breaks(s, 6) == [3];
    assert Breaks(s, 7) == [3];
    assert Breaks(s, 8) == [3, 7];
  }

  /** The slices of the worked example. */
  lemma IntListExample()
    ensures IntList([0, 1, 2, 5, 6, 7, 8, 12]) == [[0, 1, 2], [5, 6, 7, 8], [12]]
  {
    var s := [0, 1, 2, 5, 6, 7, 8, 12];
    CutsExample();
    assert s[7..8] == [12] && s[3..7] == [5, 6, 7, 8] && s[0..3] == [0, 1, 2];
    assert Slices(s, [8]) == [];
    assert Slices(s, [7, 8]) == [[12]];
    assert Slices(s, [3, 7, 8]) == [[5, 6, 7, 8], [12]];
    assert [0, 3, 7, 8][1..] == [3, 7, 8];
  }

  /** The worked example: `[0,1,2,5,6,7,8,12]` gives `[[0,1,2],[5,6,7,8]]`;
      the run `[12]` is dropped. */
  lemma SplitListExample()
    ensures SplitList([0, 1, 2, 5, 6, 7, 8, 12]) == [[0, 1, 2], [5, 6, 7, 8]]
  {
    IntListExample();
    var g: seq<seq<int>> := [[0, 1, 2], [5, 6, 7, 8], [12]];
    assert g[1..] == [[5, 6, 7, 8], [12]] && g[1..][1..] == [[12]];
    assert KeepLong([[12]]) == [];
    assert KeepLong([[5, 6, 7, 8], [12]]) == [[5, 6, 7, 8]];
    assert KeepLong(g) == [[0, 1, 2], [5, 6, 7, 8]];
  }

  // ---------------------------------------------------------------------------
  // Lemmas: the two groupers agree
  // ---------------------------------------------------------------------------

  /** A cut into runs is empty exactly when the list is. */
  lemma PartitionEmpty(g: seq<seq<int>>, s: seq<int>)
    requires IsRunPartition(g, s)
    ensures g == [] <==> s == []
  {
    if g != [] {
      assert s == g[0] + Flatten(g[1..]);
      assert |s| >= |g[0]| > 0;
    }
  }

  /** The first group of a cut into maximal runs is consecutive in `s`, and
      when it does not reach the end of `s` the next element breaks the run. */
  lemma FirstGroupBounds(g: seq<seq<int>>, s: seq<int>)
    requires IsRunPartition(g, s) && g != []
    ensures |g[0]| <= |s|
    ensures forall q :: 0 < q < |g[0]| ==> s[q] == s[q - 1] + 1
    ensures |g[0]| < |s| ==> s[|g[0]|] != s[|g[0]| - 1] + 1
  {
    var a := g[0];
    assert s == a + Flatten(g[1..]);
    forall q | 0 < q < |a|
      ensures s[q] == s[q - 1] + 1
    {
      assert s[q] == a[q] && s[q - 1] == a[q - 1];
    }
    if |a| < |s| {
      var rest := g[1..];
      PartitionEmpty(g, s);
      assert Flatten(rest) != [];
      assert rest != [];
      assert Flatten(rest) == rest[0] + Flatten(rest[1..]);
      assert rest[0] == g[1] && |g[1]| > 0;
      assert s[|a|] == g[1][0];
      assert s[|a| - 1] == a[|a| - 1];
      assert Separated(g[0], g[1]);
    }
  }

  /** A list has only one cut into maximal runs. */
  lemma {:induction false} RunPartitionUnique(g1: seq<seq<int>>, g2: seq<seq<int>>, s: seq<int>)
    requires IsRunPartition(g1, s) && IsRunPartition(g2, s)
    ensures g1 == g2
    decreases |s|
  {
    PartitionEmpty(g1, s);
    PartitionEmpty(g2, s);
    if s != [] {
      var a, b := g1[0], g2[0];
      FirstGroupBounds(g1, s);
      FirstGroupBounds(g2, s);
      assert |a| == |b|;
      assert s == a + Flatten(g1[1..]) && s == b + Flatten(g2[1..]);
      assert a == s[..|a|] == b;
      var t := s[|a|..];
      assert Flatten(g1[1..]) == t && Flatten(g2[1..]) == t;
      assert IsRunPartition(g1[1..], t);
      assert IsRunPartition(g2[1..], t);
      RunPartitionUnique(g1[1..], g2[1..], t);
      assert g1 == [a] + g1[1..] && g2 == [b] + g2[1..];
    }
  }

  /** `split_dates_by_sequence` and the slicing step of `split_list` agree: on
      the sorted dates, its groups are exactly `split_list`'s slices before the
      length filter, so `split_list` keeps the groups of three days or more. */
  lemma DateGroupsAreSplitListSlices(dates: seq<int>, groups: seq<seq<int>>)
    requires |dates| > 0
    requires IsRunPartition(groups, Sort(dates))
    ensures groups == IntList(Sort(dates))
    ensures SplitList(Sort(dates)) == KeepLong(groups)
  {
    var s := Sort(dates);
    assert |s| == |multiset(s)| == |multiset(dates)| == |dates|;
    IntListIsRunPartition(s);
    RunPartitionUnique(groups, IntList(s), s);
  }
}
