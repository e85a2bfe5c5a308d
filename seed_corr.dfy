/**
 * The correlation map of `ciftify_seed_corr`: a zero-filled output with one
 * slot per spatial unit, where every eligible unit's slot receives the
 * correlation between the seed series and that unit's series, both read at
 * the selected time points; the flat map is then reshaped to the volume.
 *
 * The correlation coefficient (`np.corrcoef`) is a parameter `corr`: the
 * model says which series it is applied to and where its value lands, not
 * how it is computed.
 */
module SeedCorr {
  import opened Optional
  import opened TimePoints
  import opened Masking
  import opened Reshape

  /** `np.corrcoef(a, b)[0][1]`, left abstract. */
  type Correlation = (seq<real>, seq<real>) -> real

  /** The functional rows and the seed are all readable at the selected time points. */
  predicate Readable(funcData: seq<seq<real>>, seed: seq<real>, trs: seq<int>) {
    && InRange(trs, |seed|)
    && forall j :: 0 <= j < |funcData| ==> InRange(trs, |funcData[j]|)
  }

  /** The value the loop stores for unit `j`: `corrcoef(seed_ts[TRs], func_data[j, TRs])`. */
  function UnitCorrelation(funcData: seq<seq<real>>, seed: seq<real>, trs: seq<int>, corr: Correlation, j: int): (r: real)
    requires Readable(funcData, seed, trs)
    requires 0 <= j < |funcData|
    ensures r == corr(seq(|trs|, k requires 0 <= k < |trs| => seed[trs[k]]),
                      seq(|trs|, k requires 0 <= k < |trs| => funcData[j][trs[k]]))
  {
    assert Restrict(seed, trs) == seq(|trs|, k requires 0 <= k < |trs| => seed[trs[k]]);
    assert Restrict(funcData[j], trs) == seq(|trs|, k requires 0 <= k < |trs| => funcData[j][trs[k]]);
    corr(Restrict(seed, trs), Restrict(funcData[j], trs))
  }

  /** All units' correlations, one per row (the candidates the loop picks from). */
  function Correlations(funcData: seq<seq<real>>, seed: seq<real>, trs: seq<int>, corr: Correlation): (r: seq<real>)
    requires Readable(funcData, seed, trs)
    ensures |r| == |funcData|
  {
    seq(|funcData|, j requires 0 <= j < |funcData| => UnitCorrelation(funcData, seed, trs, corr, j))
  }

  /** Every index of `idx` addresses a slot of an output of length `n`. */
  predicate IndicesBelow(idx: seq<int>, n: int) {
    forall i :: 0 <= i < |idx| ==> 0 <= idx[i] < n
  }

  /**
   * The loop read as a sequence of writes: starting from `base`, the
   * iterations in order each set slot `idx[i]` to `values[idx[i]]`.
   */
  function Scatter(base: seq<real>, idx: seq<int>, values: seq<real>): (out: seq<real>)
    requires |values| == |base|
    requires IndicesBelow(idx, |base|)
    ensures |out| == |base|
    ensures forall j :: 0 <= j < |base| && j !in idx ==> out[j] == base[j]
  {
    if idx == [] then base
    else
      var n := |idx| - 1;
      Scatter(base, idx[..n], values)[idx[n] := values[idx[n]]]
  }

  /** After the writes, a slot holds its value if some iteration visited it and is untouched otherwise. */
  lemma {:induction false} ScatterAt(base: seq<real>, idx: seq<int>, values: seq<real>, j: int)
    requires |values| == |base|
    requires IndicesBelow(idx, |base|)
    requires 0 <= j < |base|
    ensures Scatter(base, idx, values)[j] == if j in idx then values[j] else base[j]
  {
    if idx != [] {
      var n := |idx| - 1;
      ScatterAt(base, idx[..n], values, j);
      assert idx == idx[..n] + [idx[n]];
    }
  }

  /**
   * The visiting order and repeats do not matter: the output depends only on
   * which slots are visited.
   */
  lemma ScatterOrderIndependent(base: seq<real>, idx1: seq<int>, idx2: seq<int>, values: seq<real>)
    requires |values| == |base|
    requires IndicesBelow(idx1, |base|) && IndicesBelow(idx2, |base|)
    requires forall j :: j in idx1 <==> j in idx2
    ensures Scatter(base, idx1, values) == Scatter(base, idx2, values)
  {
    forall j | 0 <= j < |base|
      ensures Scatter(base, idx1, values)[j] == Scatter(base, idx2, values)[j]
    {
      ScatterAt(base, idx1, values, j);
      ScatterAt(base, idx2, values, j);
    }
  }

  /** `np.zeros(n)`: the output before the loop. */
  function Zeros(n: nat): (z: seq<real>)
    ensures |z| == n
    ensures forall i :: 0 <= i < n ==> z[i] == 0.0
  {
    seq(n, _ => 0.0)
  }

  /**
   * The correlation map: `n` zero slots, then one write per entry of `idx`
   * with that unit's correlation.
   */
  function CorrelationMap(funcData: seq<seq<real>>, seed: seq<real>, trs: seq<int>, idx: seq<int>, corr: Correlation): (m: seq<real>)
    requires Readable(funcData, seed, trs)
    requires IndicesBelow(idx, |funcData|)
    ensures |m| == |funcData|
    ensures forall j :: 0 <= j < |funcData| && j !in idx ==> m[j] == 0.0
  {
    Scatter(Zeros(|funcData|), idx, Correlations(funcData, seed, trs, corr))
  }

  /** Exactly the units listed in `idx` hold their correlation; every other slot is 0. */
  lemma CorrelationMapAt(funcData: seq<seq<real>>, seed: seq<real>, trs: seq<int>, idx: seq<int>, corr: Correlation, j: int)
    requires Readable(funcData, seed, trs)
    requires IndicesBelow(idx, |funcData|)
    requires 0 <= j < |funcData|
    ensures |CorrelationMap(funcData, seed, trs, idx, corr)| == |funcData|
    ensures CorrelationMap(funcData, seed, trs, idx, corr)[j] ==
      if j in idx then UnitCorrelation(funcData, seed, trs, corr, j) else 0.0
  {
    ScatterAt(Zeros(|funcData|), idx, Correlations(funcData, seed, trs, corr), j);
  }

  /**
   * When the coefficient of every listed unit lies in [-1, 1], as Pearson's
   * does wherever it is defined, so does every slot of the map.
   */
  lemma MapBounded(funcData: seq<seq<real>>, seed: seq<real>, trs: seq<int>, idx: seq<int>, corr: Correlation)
    requires Readable(funcData, seed, trs)
    requires IndicesBelow(idx, |funcData|)
    requires forall j :: j in idx ==> -1.0 <= UnitCorrelation(funcData, seed, trs, corr, j) <= 1.0
    ensures forall j :: 0 <= j < |funcData| ==>
      -1.0 <= CorrelationMap(funcData, seed, trs, idx, corr)[j] <= 1.0
  {
    forall j | 0 <= j < |funcData|
      ensures -1.0 <= CorrelationMap(funcData, seed, trs, idx, corr)[j] <= 1.0
    {
      CorrelationMapAt(funcData, seed, trs, idx, corr, j);
    }
  }

  /**
   * The scatter loop: `out` is allocated zero-filled with `n` slots, and
   * iteration `i` writes slot `idx[i]` with that unit's correlation.
   */
  method ScatterCorrelations(funcData: seq<seq<real>>, seed: seq<real>, trs: seq<int>,
                             idx: seq<int>, corr: Correlation, n: nat)
    returns (flat: seq<real>)
    requires n == |funcData|
    requires Readable(funcData, seed, trs)
    requires IndicesBelow(idx, n)
    ensures flat == CorrelationMap(funcData, seed, trs, idx, corr)
    ensures |flat| == n
    ensures forall j :: j in idx ==> flat[j] == UnitCorrelation(funcData, seed, trs, corr, j)
    ensures forall j :: 0 <= j < n && j !in idx ==> flat[j] == 0.0
  {
    ghost var values := Correlations(funcData, seed, trs, corr);
    var out := new real[n](_ => 0.0);
    assert out[..] == Zeros(n);
    for i := 0 to |idx|
      invariant out[..] == Scatter(Zeros(n), idx[..i], values)
      invariant forall k :: 0 <= k < i ==> out[idx[k]] == values[idx[k]]
      invariant forall j :: 0 <= j < n && j !in idx[..i] ==> out[j] == 0.0
    {
      assert idx[..i + 1][..i] == idx[..i];
      out[idx[i]] := UnitCorrelation(funcData, seed, trs, corr, idx[i]);
      assert idx[..i + 1] == idx[..i] + [idx[i]];
    }
    assert idx[..|idx|] == idx;
    flat := out[..];
  }

  /** The spatial dimensions and number of volumes, `dims` of the functional image. */
  datatype Dims = Dims(nx: nat, ny: nat, nz: nat, nt: nat)

  /**
   * What the loader provides: one row per voxel, each row one value per
   * volume, and a seed series of the same length.
   */
  predicate WellShaped(funcData: seq<seq<real>>, seed: seq<real>, dims: Dims) {
    && |funcData| == dims.nx * dims.ny * dims.nz
    && |seed| == dims.nt
    && forall j :: 0 <= j < |funcData| ==> |funcData[j]| == dims.nt
  }

  /** A valid TR file makes every row and the seed readable at the selected TRs. */
  lemma SelectionReadable(funcData: seq<seq<real>>, seed: seq<real>, dims: Dims, trFile: Option<seq<int>>)
    requires WellShaped(funcData, seed, dims)
    requires ValidTRFile(trFile, dims.nt)
    ensures Readable(funcData, seed, SelectTRs(dims.nt, trFile))
  {
    SelectionInRange(dims.nt, trFile);
  }

  /**
   * Voxel `(x, y, z)` of the reshaped map holds the correlation of unit
   * `(x*ny + y)*nz + z` if that unit is listed, and 0 otherwise.
   */
  lemma VoxelOfMap(funcData: seq<seq<real>>, seed: seq<real>, trs: seq<int>, idx: seq<int>, corr: Correlation,
                   dims: Dims, x: nat, y: nat, z: nat)
    requires |funcData| == dims.nx * dims.ny * dims.nz
    requires Readable(funcData, seed, trs)
    requires IndicesBelow(idx, |funcData|)
    requires x < dims.nx && y < dims.ny && z < dims.nz
    ensures RowMajorIndex(dims.ny, dims.nz, x, y, z) < |funcData|
    ensures |CorrelationMap(funcData, seed, trs, idx, corr)| == |funcData|
    ensures
      var j := RowMajorIndex(dims.ny, dims.nz, x, y, z);
      ToVolume(CorrelationMap(funcData, seed, trs, idx, corr), dims.nx, dims.ny, dims.nz)[x][y][z] ==
        if j in idx then [UnitCorrelation(funcData, seed, trs, corr, j)] else [0.0]
  {
    var flat := CorrelationMap(funcData, seed, trs, idx, corr);
    CorrelationMapAt(funcData, seed, trs, idx, corr, 0);
    ToVolumeIsRowMajor(flat, dims.nx, dims.ny, dims.nz, x, y, z);
    CorrelationMapAt(funcData, seed, trs, idx, corr, RowMajorIndex(dims.ny, dims.nz, x, y, z));
  }

  /**
   * The correlation-map section of the program: select the TRs, mask the
   * units, fill the zero-filled output, and reshape it to `nx x ny x nz x 1`.
   */
  method SeedCorrelationMap(funcData: seq<seq<real>>, seed: seq<real>, dims: Dims,
                            maskData: Option<seq<seq<real>>>, trFile: Option<seq<int>>,
                            corr: Correlation)
    returns (volume: Volume)
    requires WellShaped(funcData, seed, dims)
    requires ValidTRFile(trFile, dims.nt)
    ensures Readable(funcData, seed, SelectTRs(dims.nt, trFile))
    ensures HasShape(volume, dims.nx, dims.ny, dims.nz)
    ensures Flatten(volume) ==
      CorrelationMap(funcData, seed, SelectTRs(dims.nt, trFile), EligibleUnits(funcData, maskData), corr)
    ensures forall x, y, z :: 0 <= x < dims.nx && 0 <= y < dims.ny && 0 <= z < dims.nz ==>
      var j := RowMajorIndex(dims.ny, dims.nz, x, y, z);
      && 0 <= j < |funcData|
      && volume[x][y][z] ==
         if j in EligibleUnits(funcData, maskData)
         then [UnitCorrelation(funcData, seed, SelectTRs(dims.nt, trFile), corr, j)]
         else [0.0]
  {
    var trs := SelectTRs(dims.nt, trFile);
    SelectionReadable(funcData, seed, dims, trFile);
    var idxMask := EligibleUnits(funcData, maskData);
    var n := dims.nx * dims.ny * dims.nz;
    var flat := ScatterCorrelations(funcData, seed, trs, idxMask, corr, n);
    volume := ToVolume(flat, dims.nx, dims.ny, dims.nz);
    FlattenToVolume(flat, dims.nx, dims.ny, dims.nz);
    forall x, y, z | 0 <= x < dims.nx && 0 <= y < dims.ny && 0 <= z < dims.nz
      ensures var j := RowMajorIndex(dims.ny, dims.nz, x, y, z);
        && 0 <= j < |funcData|
        && volume[x][y][z] == if j in idxMask then [UnitCorrelation(funcData, seed, trs, corr, j)] else [0.0]
    {
      VoxelOfMap(funcData, seed, trs, idxMask, corr, dims, x, y, z);
    }
  }
}
