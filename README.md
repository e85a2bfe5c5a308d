# Seed-based correlation map (ciftify_seed_corr), modelled in Dafny

`ciftify_seed_corr` builds a functional-connectivity map. It takes a 4-D
functional image, loaded as a 2-D array `func_data` with one row per voxel
and one column per volume (TR). It also takes the seed's mean time series
`seed_ts`, an optional brain mask and an optional file of 1-based TR numbers.
For each eligible voxel it computes the correlation between the voxel's
series and the seed series, both read at the selected TRs. The results go
into a zero-filled map, which is then reshaped to `dims[0] x dims[1] x dims[2] x 1`.

The model covers that computation (`main()`, lines 143-169 of
`ciftify/bin/ciftify_seed_corr.py`):

- `time_points.dfy` (module `TimePoints`): the TR selection. With no file it
  is `np.arange(T)`. With a file it is the vectorised `TR_file - 1`.
- `index_sets.dfy` (module `IndexSets`): `np.where(...)[0]`, `np.unique` and
  `np.intersect1d` on index lists.
- `masking.dfy` (module `Masking`): `idx_mask`. It keeps rows with
  `std > 0` and `mean != 0`, then intersects them with the rows where
  `mask_data > 0`.
- `seed_corr.dfy` (module `SeedCorr`): the scatter loop. It is a method over
  a local `array<real>` allocated zero-filled, and a loop whose invariants say
  which slots are already written. A pure reading of the loop (`Scatter`)
  specifies it. The method `SeedCorrelationMap` chains selection, masking,
  the loop and the reshape.
- `reshape.dfy` (module `Reshape`): numpy's C-order reshape to
  `nx x ny x nz x 1` and the matching flatten.
- `optional.dfy` (module `Optional`): the `Option` type for the command-line
  inputs that may be absent (`--mask`, `--use-TRs`).

Numbers are exact `real`s. `std > 0` becomes "the row is not constant".
`mean != 0` becomes "the sum is not 0", except for an empty row: numpy's
mean of an empty row is NaN, and NaN compares unequal to 0. The correlation
coefficient `np.corrcoef(a, b)[0][1]` is a parameter `corr` of type
`(seq<real>, seq<real>) -> real`. The model pins down which two series it
gets and where its value lands.

## Model

| member | source | states |
|---|---|---|
| `TimePoints.Arange` | ciftify/bin/ciftify_seed_corr.py:148 | `np.arange(n)` has length n and holds k at position k |
| `TimePoints.ShiftToZeroBased` | ciftify/bin/ciftify_seed_corr.py:146 | the vectorised `TR_file - 1`: same length as the file, and adding one to entry k gives back file entry k |
| `TimePoints.SelectTRs` | ciftify/bin/ciftify_seed_corr.py:143-148 | no TR file: exactly `0..T-1` in order; a TR file: same length as the file, `trs[k] + 1 == file[k]`, so order and repeats are kept |
| `TimePoints.SelectionInRange` | ciftify/bin/ciftify_seed_corr.py:144-148 | the selection addresses only time points `0..T-1` if and only if every file entry lies in `1..T`; the default selection always does |
| `TimePoints.DefaultSelectionKeepsSeries` | ciftify/bin/ciftify_seed_corr.py:147-148 | without a TR file, reading a series at the selected TRs gives back the whole series |
| `TimePoints.Restrict` | ciftify/bin/ciftify_seed_corr.py:166 | the fancy indexing `seed_ts[TRs]` and `func_data[j, TRs]`: one value per selected index, entry k being the series at `trs[k]`, in selection order and with repeats |
| `IndexSets.Where` | ciftify/bin/ciftify_seed_corr.py:154-155 | `np.where(flags)[0]` is strictly increasing and holds j exactly when `flags[j]` is true |
| `IndexSets.Insert` | ciftify/bin/ciftify_seed_corr.py:156 | inserting into a sorted, duplicate-free list keeps it so and adds exactly that value |
| `IndexSets.Unique` | ciftify/bin/ciftify_seed_corr.py:156 | `np.unique` is strictly increasing and has exactly the input's values |
| `IndexSets.Common` | ciftify/bin/ciftify_seed_corr.py:156 | keeps exactly the values of the first list that occur in the second |
| `IndexSets.Intersect1d` | ciftify/bin/ciftify_seed_corr.py:156 | `np.intersect1d` is strictly increasing and holds exactly the values common to both inputs, whatever their order or repeats |
| `IndexSets.StrictlyIncreasingUnique` | ciftify/bin/ciftify_seed_corr.py:156 | two strictly increasing lists with the same values are equal |
| `IndexSets.Intersect1dCommutes` | ciftify/bin/ciftify_seed_corr.py:156 | swapping the arguments of `intersect1d` does not change the result |
| `IndexSets.Intersect1dOfSameValues` | ciftify/bin/ciftify_seed_corr.py:156-159 | `intersect1d` depends only on the sets of values of its inputs |
| `Masking.StdPositive` | ciftify/bin/ciftify_seed_corr.py:152-154 | `std_array > 0` over exact values: one flag per row, and flag j is true iff two entries of row j differ (an empty row has NaN deviation and gets false) |
| `Masking.MeanNonzero` | ciftify/bin/ciftify_seed_corr.py:153-155 | `m_array != 0`: one flag per row, and flag j is true iff row j is empty (numpy's mean is NaN, which is unequal to 0) or its sum is not 0 |
| `Masking.CountPositive` | ciftify/bin/ciftify_seed_corr.py:158 | a row has a positive count exactly when some entry is above zero |
| `Masking.PositiveEntryRows` | ciftify/bin/ciftify_seed_corr.py:158 | `np.where(mask_data > 0)[0]` holds j exactly when row j of the mask has an entry above zero |
| `Masking.UnmaskedUnits` | ciftify/bin/ciftify_seed_corr.py:152-156 | `idx_mask` before masking is strictly increasing and holds j exactly when row j is non-constant with a nonzero sum |
| `Masking.EligibleUnits` | ciftify/bin/ciftify_seed_corr.py:152-159 | `idx_mask` is strictly increasing and lists only rows of `func_data`. It holds j iff row j is non-constant with a nonzero sum and, when a mask is given, the mask admits row j |
| `Masking.MaskOnlyRemoves` | ciftify/bin/ciftify_seed_corr.py:157-159 | the masked `idx_mask` is a subset of the unmasked one |
| `Masking.ZeroSeriesNeverEligible` | ciftify/bin/ciftify_seed_corr.py:152-156 | an all-zero series is never eligible |
| `Masking.MaskedOutNeverEligible` | ciftify/bin/ciftify_seed_corr.py:157-159 | a row the mask does not admit is never eligible |
| `SeedCorr.ScatterAt` | ciftify/bin/ciftify_seed_corr.py:165-166 | after the writes, a slot holds its value if some iteration visited it and its old value otherwise |
| `SeedCorr.ScatterOrderIndependent` | ciftify/bin/ciftify_seed_corr.py:165-166 | visiting order and repeats do not change the output, only the set of visited slots does |
| `SeedCorr.UnitCorrelation` | ciftify/bin/ciftify_seed_corr.py:166 | the value stored for unit j is `corr` of the seed and row j, each read at the selected TRs, paired position by position in selection order |
| `SeedCorr.Scatter` | ciftify/bin/ciftify_seed_corr.py:162-166 | the loop read as successive writes: keeps the output's length and leaves every slot no iteration visits at its old value (contents of visited slots: `ScatterAt`) |
| `SeedCorr.Zeros` | ciftify/bin/ciftify_seed_corr.py:162 | `np.zeros`: n slots, each 0 |
| `SeedCorr.CorrelationMap` | ciftify/bin/ciftify_seed_corr.py:162-166 | the map after the loop: one slot per row of `func_data`, every unlisted slot 0 (listed slots: `CorrelationMapAt`) |
| `SeedCorr.CorrelationMapAt` | ciftify/bin/ciftify_seed_corr.py:162-166 | the map has one slot per row; a listed unit holds `corr(seed[TRs], row[TRs])` and every other slot holds 0, so an empty list gives an all-zero map |
| `SeedCorr.MapBounded` | ciftify/bin/ciftify_seed_corr.py:162-166 | if the coefficient of every listed unit lies in [-1, 1], every slot of the map does |
| `SeedCorr.ScatterCorrelations` | ciftify/bin/ciftify_seed_corr.py:161-166 | the in-place loop yields exactly the specified map: each listed slot holds its unit's correlation and every other slot stays 0 |
| `SeedCorr.SelectionReadable` | ciftify/bin/ciftify_seed_corr.py:144-148 | with a TR file whose entries lie in `1..T`, the seed and every row can be read at the selected TRs |
| `Reshape.Split` | ciftify/bin/ciftify_seed_corr.py:169 | splitting into `m` chunks gives `m` chunks of the requested length |
| `Reshape.ToPlane` | ciftify/bin/ciftify_seed_corr.py:169 | one x-plane has shape `ny x nz x 1` |
| `Reshape.ToVolume` | ciftify/bin/ciftify_seed_corr.py:169 | `out.reshape([nx, ny, nz, 1])` has shape `nx x ny x nz x 1` |
| `Reshape.ConcatSplit` | ciftify/bin/ciftify_seed_corr.py:169 | concatenating the chunks of a split gives back the sequence |
| `Reshape.SplitConcat` | ciftify/bin/ciftify_seed_corr.py:169 | splitting a concatenation of equal-length chunks gives back the chunks |
| `Reshape.SplitAt` | ciftify/bin/ciftify_seed_corr.py:169 | chunk i of a split is the slice `[i*len, i*len + len)` |
| `Reshape.RowMajorIndexInRange` | ciftify/bin/ciftify_seed_corr.py:169 | the C-order index `(x*ny + y)*nz + z` lies below `nx*ny*nz` |
| `Reshape.ToPlaneAt` | ciftify/bin/ciftify_seed_corr.py:169 | plane element `(y, z)` is chunk element `y*nz + z` |
| `Reshape.ToVolumeIsRowMajor` | ciftify/bin/ciftify_seed_corr.py:169 | volume element `(x, y, z, 0)` equals `out[(x*ny + y)*nz + z]` |
| `Reshape.FlattenToPlane` | ciftify/bin/ciftify_seed_corr.py:169 | flattening a reshaped plane gives back its values |
| `Reshape.FlattenToVolume` | ciftify/bin/ciftify_seed_corr.py:169 | reshaping and flattening back reproduces the flat map exactly |
| `Reshape.ToPlaneFlatten` | ciftify/bin/ciftify_seed_corr.py:169 | reshaping a flattened well-shaped plane gives back the plane |
| `Reshape.ToVolumeFlatten` | ciftify/bin/ciftify_seed_corr.py:169 | flattening a well-shaped volume and reshaping it back reproduces the volume |
| `SeedCorr.VoxelOfMap` | ciftify/bin/ciftify_seed_corr.py:162-169 | voxel `(x, y, z)` of the reshaped map holds the correlation of unit `(x*ny + y)*nz + z` if that unit is listed, and 0 otherwise |
| `SeedCorr.SeedCorrelationMap` | ciftify/bin/ciftify_seed_corr.py:143-169 | the whole section: the volume has shape `nx x ny x nz x 1` and flattens to the specified map. Each voxel holds `corr(seed[TRs], row[TRs])` for its C-order row when that row is eligible, and 0 otherwise |

## Left out

- Command-line parsing (`docopt`), logging configuration and the debug switch (lines 63-88): process setup.
- File-type detection, output-name construction, the temporary directory and its removal, and the `--output-ts` copy (lines 90-110, 191-196): file-system glue.
- The calls to `ciftify_meants` and `wb_command`, `np.loadtxt` and `ciftify.io.load_nifti` (lines 112-141, 145): external tools and I/O. The seed series, `func_data`, `mask_data`, `dims` and the TR-file entries are inputs. `ciftify.io.load_nifti` is not part of this model. Its output is taken as given: a 2-D array with one row per voxel, and `mask_data` in the same 2-D form. Its flattening order is unknown, so no load/save round trip is claimed beyond the reshape.
- The TR file is taken as a flat list of integers. `np.loadtxt` loads a file with several numbers on each of several lines as a 2-D array, and then `seed_ts[TRs]` and `func_data[j, TRs]` are arrays shaped like the file. `np.corrcoef` treats each line of them as a separate variable, so `[0][1]` is the correlation between the seed read at the file's first line of TRs and the seed read at its second line, and every eligible voxel gets that same value. A file holding a single number loads as a 0-d array, so each selection is one scalar. Neither shape is modelled.
- Building and writing the NIfTI image and the CIFTI conversion back (lines 170-189): library wrappers.
- The floating-point Pearson computation (`np.corrcoef`), float `std` and `mean`: `corr` is a parameter. The program has no fallback for a series that is constant at the selected TRs (numpy yields NaN), and none is modelled.
- SeedCorrelationMap: requires every TR-file entry to lie in `1..T`. The program makes no such check. An entry of 0 becomes index -1, which numpy wraps to the last time point, and a larger entry raises an IndexError. Neither behaviour is modelled. The code has no invalid-time-index error of its own, so none is modelled.
- SeedCorrelationMap: requires `func_data` to have `dims[0]*dims[1]*dims[2]` rows of `dims[3]` values each and `seed_ts` to have `dims[3]` values, which the loader and `ciftify_meants` provide. The program does not check these shapes.
