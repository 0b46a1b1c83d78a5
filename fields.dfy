/**
 * Gridded daily fields as the heat-wave detector sees them: one row of cells
 * per day, the latitude x longitude grid flattened into the row. A missing
 * cell stands for the NaN the source uses for "no value".
 */
module Fields {

  /** One grid cell on one day: a temperature, or missing (NaN). */
  datatype Cell = Missing | Val(r: real)

  datatype Option<T> = None | Some(value: T)

  /** The cells of one day, the grid flattened. */
  type Row = seq<Cell>

  /** A daily field: one row per day of the time axis. */
  type Field = seq<Row>

  /** A region mask over the flattened grid: true where the cell lies in the region. */
  type Mask = seq<bool>

  /** `f` has `days` rows of `width` cells each. */
  predicate Shaped(f: Field, days: nat, width: nat) {
    |f| == days && forall d :: 0 <= d < |f| ==> |f[d]| == width
  }

  /** Two fields with the same number of days and the same width on every day. */
  predicate SameShape(a: Field, b: Field) {
    |a| == |b| && forall d :: 0 <= d < |a| ==> |a[d]| == |b[d]|
  }

  /** A day on which every cell is missing (`where(False, nan)` in the source). */
  function BlankRow(width: nat): Row {
    seq(width, _ => Missing)
  }

  /** `where(mask, nan)` on one day: cells outside the region become missing. */
  function MaskRow(row: Row, mask: Mask): (m: Row)
    requires |row| == |mask|
    ensures |m| == |row|
    ensures forall c :: 0 <= c < |m| ==> (m[c].Val? ==> mask[c]) && (mask[c] ==> m[c] == row[c])
  {
    seq(|row|, c requires 0 <= c < |row| => if mask[c] then row[c] else Missing)
  }

  /** `where(mask, nan)` on a whole field, the same mask on every day. */
  function MaskField(f: Field, mask: Mask): (g: Field)
    requires forall d :: 0 <= d < |f| ==> |f[d]| == |mask|
    ensures Shaped(g, |f|, |mask|)
    ensures forall d, c :: 0 <= d < |g| && 0 <= c < |mask| ==>
      (g[d][c].Val? ==> mask[c]) && (mask[c] ==> g[d][c] == f[d][c])
  {
    seq(|f|, d requires 0 <= d < |f| => MaskRow(f[d], mask))
  }

  /** `count_nonzero(~isnan(row))`: the number of cells of a day that hold a value. */
  function CountValid(row: Row): (n: nat)
    ensures n <= |row|
  {
    if row == [] then 0 else (if row[0].Val? then 1 else 0) + CountValid(row[1..])
  }

  /** The number of cells the mask puts inside the region. */
  function CountTrue(mask: Mask): (n: nat)
    ensures n <= |mask|
  {
    if mask == [] then 0 else (if mask[0] then 1 else 0) + CountTrue(mask[1..])
  }

  /** A masked field has the shape of the field, keeps every in-region cell and
      has every out-of-region cell missing. */
  lemma MaskFieldCells(f: Field, mask: Mask)
    requires forall d :: 0 <= d < |f| ==> |f[d]| == |mask|
    ensures Shaped(MaskField(f, mask), |f|, |mask|)
    ensures forall d, c :: 0 <= d < |f| && 0 <= c < |mask| ==>
      MaskField(f, mask)[d][c] == (if mask[c] then f[d][c] else Missing)
  {
  }

  /** Masking twice is masking once. */
  lemma MaskIdempotent(f: Field, mask: Mask)
    requires forall d :: 0 <= d < |f| ==> |f[d]| == |mask|
    ensures MaskField(MaskField(f, mask), mask) == MaskField(f, mask)
  {
    var g := MaskField(f, mask);
    forall d | 0 <= d < |f|
      ensures MaskRow(g[d], mask) == g[d]
    {
    }
  }

  /** A masked field depends only on the in-region cells: two fields that agree
      inside the region mask to the same field. */
  lemma MaskDependsOnlyOnRegion(f: Field, g: Field, mask: Mask)
    requires |f| == |g|
    requires forall d :: 0 <= d < |f| ==> |f[d]| == |mask| && |g[d]| == |mask|
    requires forall d, c :: 0 <= d < |f| && 0 <= c < |mask| && mask[c] ==> f[d][c] == g[d][c]
    ensures MaskField(f, mask) == MaskField(g, mask)
  {
    forall d | 0 <= d < |f|
      ensures MaskRow(f[d], mask) == MaskRow(g[d], mask)
    {
    }
  }

  /** The valid-cell count is the row length less the number of missing cells. */
  lemma {:induction false} CountValidByMultiset(row: Row)
    ensures CountValid(row) == |row| - multiset(row)[Missing]
  {
    if row != [] {
      CountValidByMultiset(row[1..]);
      assert row == [row[0]] + row[1..];
      assert multiset(row) == multiset{row[0]} + multiset(row[1..]);
    }
  }

  /** The count does not depend on the order in which cells are visited. */
  lemma CountValidPermutation(a: Row, b: Row)
    requires multiset(a) == multiset(b)
    ensures CountValid(a) == CountValid(b)
  {
    CountValidByMultiset(a);
    CountValidByMultiset(b);
    assert |a| == |multiset(a)| == |multiset(b)| == |b|;
  }

  /** A masked day holds at most as many values as the region has cells, and
      exactly that many precisely when no in-region cell is missing. */
  lemma {:induction false} MaskedCountAtMostRegion(row: Row, mask: Mask)
    requires |row| == |mask|
    ensures CountValid(MaskRow(row, mask)) <= CountTrue(mask)
    ensures (forall c :: 0 <= c < |row| && mask[c] ==> row[c].Val?) <==>
      CountValid(MaskRow(row, mask)) == CountTrue(mask)
  {
    if row != [] {
      var rest, restMask := row[1..], mask[1..];
      assert MaskRow(row, mask)[1..] == MaskRow(rest, restMask);
      MaskedCountAtMostRegion(rest, restMask);
      var whole := forall c :: 0 <= c < |row| && mask[c] ==> row[c].Val?;
      var tail := forall c :: 0 <= c < |rest| && restMask[c] ==> rest[c].Val?;
      assert whole <==> (mask[0] ==> row[0].Val?) && tail by {
        if (mask[0] ==> row[0].Val?) && tail {
          forall c | 0 <= c < |row| && mask[c]
            ensures row[c].Val?
          {
            if c > 0 {
              assert rest[c - 1] == row[c] && restMask[c - 1] == mask[c];
            }
          }
        }
        if whole {
          forall c | 0 <= c < |rest| && restMask[c]
            ensures rest[c].Val?
          {
            assert rest[c] == row[c + 1] && restMask[c] == mask[c + 1];
          }
        }
      }
    }
  }
}
