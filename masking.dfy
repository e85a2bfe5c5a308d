/**
 * Which spatial units (rows of the functional data) are correlated with the
 * seed. Values are exact reals: "standard deviation > 0" is "not every entry
 * equal" and "mean != 0" is "sum != 0", except that numpy's mean of an empty
 * row is NaN, which compares unequal to 0.
 */
module Masking {
  import opened Optional
  import opened IndexSets

  /** Sum of a series. */
  function Sum(xs: seq<real>): real {
    if xs == [] then 0.0 else Sum(xs[..|xs| - 1]) + xs[|xs| - 1]
  }

  /** Every entry equals the first one: zero standard deviation (or NaN, for an empty row). */
  predicate Constant(row: seq<real>) {
    forall k :: 0 <= k < |row| ==> row[k] == row[0]
  }

  /** `std_array > 0`, one flag per row: over exact values, some two entries of the row differ. */
  function StdPositive(funcData: seq<seq<real>>): (flags: seq<bool>)
    ensures |flags| == |funcData|
    ensures forall j :: 0 <= j < |funcData| ==>
      (flags[j] <==> exists a, b :: 0 <= a < |funcData[j]| && 0 <= b < |funcData[j]| && funcData[j][a] != funcData[j][b])
  {
    seq(|funcData|, j requires 0 <= j < |funcData| => !Constant(funcData[j]))
  }

  /** `np.mean` of a row; `None` stands for the NaN numpy returns for an empty row. */
  function Mean(row: seq<real>): Option<real> {
    if |row| == 0 then None else Some(Sum(row) / (|row| as real))
  }

  /** `m_array != 0`, one flag per row; NaN compares unequal to 0, so an empty row's flag is true. */
  function MeanNonzero(funcData: seq<seq<real>>): (flags: seq<bool>)
    ensures |flags| == |funcData|
    ensures forall j :: 0 <= j < |funcData| ==>
      (flags[j] <==> |funcData[j]| == 0 || Sum(funcData[j]) != 0.0)
  {
    seq(|funcData|, j requires 0 <= j < |funcData| =>
      match Mean(funcData[j])
      case None => true
      case Some(m) => m != 0.0)
  }

  /** Row `j` of the mask has some entry above zero. */
  predicate MaskAdmits(maskData: seq<seq<real>>, j: int) {
    0 <= j < |maskData| && exists c :: 0 <= c < |maskData[j]| && maskData[j][c] > 0.0
  }

  /** Number of entries of `row` above zero. */
  function CountPositive(row: seq<real>): (n: nat)
    ensures n > 0 <==> exists c :: 0 <= c < |row| && row[c] > 0.0
  {
    if row == [] then 0
    else
      var m := |row| - 1;
      assert forall c :: 0 <= c < m ==> row[..m][c] == row[c];
      CountPositive(row[..m]) + (if row[m] > 0.0 then 1 else 0)
  }

  /**
   * `np.where(mask_data > 0)[0]` on the 2-D mask: the indices of the rows
   * holding an entry above zero. Only membership is stated, since
   * `intersect1d` ignores order and repeats (`Intersect1dOfSameValues`).
   */
  function PositiveEntryRows(maskData: seq<seq<real>>): (r: seq<int>)
    ensures forall j :: j in r <==> MaskAdmits(maskData, j)
  {
    if maskData == [] then []
    else
      var n := |maskData| - 1;
      var prefix := PositiveEntryRows(maskData[..n]);
      var last := seq(CountPositive(maskData[n]), _ => n);
      assert forall j :: 0 <= j < n ==> maskData[..n][j] == maskData[j];
      assert forall j :: j in last <==> j == n && |last| > 0 by {
        if |last| > 0 { assert last[0] == n; }
      }
      assert forall j :: j in prefix + last <==> j in prefix || j in last;
      prefix + last
  }

  /** `idx_mask` before the mask: rows that are non-constant and have a nonzero mean. */
  function UnmaskedUnits(funcData: seq<seq<real>>): (idx: seq<int>)
    ensures StrictlyIncreasing(idx)
    ensures forall j :: j in idx <==> 0 <= j < |funcData| && !Constant(funcData[j]) && Sum(funcData[j]) != 0.0
  {
    var stdNonzero := Where(StdPositive(funcData));
    var meanNonzero := Where(MeanNonzero(funcData));
    assert forall j :: 0 <= j < |funcData| && !Constant(funcData[j]) ==> |funcData[j]| > 0;
    Intersect1d(stdNonzero, meanNonzero)
  }

  /**
   * `idx_mask`: the rows whose series is non-constant and has a nonzero
   * mean, intersected with the rows the mask admits when a mask is given.
   */
  function EligibleUnits(funcData: seq<seq<real>>, maskData: Option<seq<seq<real>>>): (idx: seq<int>)
    ensures StrictlyIncreasing(idx)
    ensures forall i :: 0 <= i < |idx| ==> 0 <= idx[i] < |funcData|
    ensures forall j :: j in idx <==>
      && 0 <= j < |funcData|
      && !Constant(funcData[j])
      && Sum(funcData[j]) != 0.0
      && (maskData.Some? ==> MaskAdmits(maskData.value, j))
  {
    var unmasked := UnmaskedUnits(funcData);
    var idx := match maskData
      case None => unmasked
      case Some(m) => Intersect1d(unmasked, PositiveEntryRows(m));
    assert forall i :: 0 <= i < |idx| ==> idx[i] in idx;
    idx
  }

  /** Applying a mask only removes units: the masked list is a subset of the unmasked one. */
  lemma MaskOnlyRemoves(funcData: seq<seq<real>>, maskData: seq<seq<real>>)
    ensures forall j :: j in EligibleUnits(funcData, Some(maskData)) ==> j in EligibleUnits(funcData, None)
  {
  }

  /** A unit whose series is all zeros is never eligible, mask or no mask. */
  lemma ZeroSeriesNeverEligible(funcData: seq<seq<real>>, maskData: Option<seq<seq<real>>>, j: int)
    requires 0 <= j < |funcData|
    requires forall k :: 0 <= k < |funcData[j]| ==> funcData[j][k] == 0.0
    ensures j !in EligibleUnits(funcData, maskData)
  {
  }

  /** A unit the mask does not admit is never eligible. */
  lemma MaskedOutNeverEligible(funcData: seq<seq<real>>, maskData: seq<seq<real>>, j: int)
    requires !MaskAdmits(maskData, j)
    ensures j !in EligibleUnits(funcData, Some(maskData))
  {
  }
}
