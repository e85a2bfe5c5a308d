/**
 * Which time points (TRs) enter the correlation: every one of the `T`
 * acquired volumes, or the caller's list of 1-based TR numbers shifted
 * down to 0-based indices.
 */
module TimePoints {
  import opened Optional

  /** `np.arange(n)`: the indices 0, 1, ..., n-1 in increasing order. */
  function Arange(n: nat): (r: seq<int>)
    ensures |r| == n
    ensures forall k :: 0 <= k < n ==> r[k] == k
  {
    if n == 0 then [] else Arange(n - 1) + [n - 1]
  }

  /** The vectorised `TR_file - 1`: each 1-based entry shifted down by one. */
  function ShiftToZeroBased(trFile: seq<int>): (trs: seq<int>)
    ensures |trs| == |trFile|
    ensures forall k :: 0 <= k < |trs| ==> trs[k] + 1 == trFile[k]
  {
    if trFile == [] then [] else [trFile[0] - 1] + ShiftToZeroBased(trFile[1..])
  }

  /**
   * The TR selection: with no TR file, all `t` time points in order; with a
   * file, its entries shifted to 0-based, keeping their order and repeats.
   * No range check is made here, as in the program.
   */
  function SelectTRs(t: nat, trFile: Option<seq<int>>): (trs: seq<int>)
    ensures trFile.None? ==> |trs| == t && forall k :: 0 <= k < t ==> trs[k] == k
    ensures trFile.Some? ==>
      |trs| == |trFile.value| && forall k :: 0 <= k < |trs| ==> trs[k] + 1 == trFile.value[k]
  {
    match trFile
    case None => Arange(t)
    case Some(f) => ShiftToZeroBased(f)
  }

  /** Every selected index addresses one of the `t` time points. */
  predicate InRange(trs: seq<int>, t: nat) {
    forall k :: 0 <= k < |trs| ==> 0 <= trs[k] < t
  }

  /** A TR file whose every entry is a TR number between 1 and `t`. */
  predicate ValidTRFile(trFile: Option<seq<int>>, t: nat) {
    trFile.Some? ==> forall k :: 0 <= k < |trFile.value| ==> 1 <= trFile.value[k] <= t
  }

  /**
   * The selection addresses only existing time points exactly when the TR
   * file (if any) lists only TR numbers 1..t.
   */
  lemma SelectionInRange(t: nat, trFile: Option<seq<int>>)
    ensures InRange(SelectTRs(t, trFile), t) <==> ValidTRFile(trFile, t)
  {
    var trs := SelectTRs(t, trFile);
    if trFile.Some? && InRange(trs, t) {
      forall k | 0 <= k < |trFile.value| ensures 1 <= trFile.value[k] <= t {
        assert 0 <= trs[k] < t;
      }
    }
  }

  /** `xs[trs]`: the series read at the selected time points, in selection order. */
  function Restrict(xs: seq<real>, trs: seq<int>): (r: seq<real>)
    requires InRange(trs, |xs|)
    ensures |r| == |trs|
    ensures forall k :: 0 <= k < |trs| ==> r[k] == xs[trs[k]]
  {
    if trs == [] then [] else [xs[trs[0]]] + Restrict(xs, trs[1..])
  }

  /** Restricting a series to the default selection leaves it unchanged. */
  lemma DefaultSelectionKeepsSeries(xs: seq<real>)
    ensures InRange(SelectTRs(|xs|, None), |xs|)
    ensures Restrict(xs, SelectTRs(|xs|, None)) == xs
  {
  }
}
