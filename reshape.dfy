/**
 * numpy's C-order (row-major) reshape of the flat correlation map into an
 * `nx x ny x nz x 1` volume, built as repeated splitting into equal
 * consecutive chunks, and its inverse, concatenation.
 */
module Reshape {

  /** A 4-D volume: x, then y, then z, then the trailing singleton axis. */
  type Volume = seq<seq<seq<seq<real>>>>

  lemma MulSucc(a: nat, c: nat)
    ensures (a + 1) * c == a * c + c
  {
  }

  lemma {:induction false} MulMono(a: nat, b: nat, c: nat)
    requires a <= b
    ensures a * c <= b * c
    decreases b - a
  {
    if a < b {
      MulMono(a + 1, b, c);
      MulSucc(a, c);
    }
  }

  lemma Distribute(a: nat, b: nat, c: nat)
    ensures (a + b) * c == a * c + b * c
  {
  }

  lemma Associate(a: nat, b: nat, c: nat)
    ensures a * b * c == a * (b * c)
  {
  }

  /** Concatenation of consecutive chunks (`ravel` of one axis). */
  function Concat<T>(chunks: seq<seq<T>>): seq<T> {
    if chunks == [] then [] else chunks[0] + Concat(chunks[1..])
  }

  /** Splits `s` into `m` consecutive chunks of length `len` each. */
  function Split<T>(s: seq<T>, m: nat, len: nat): (r: seq<seq<T>>)
    requires |s| == m * len
    ensures |r| == m
    ensures forall i :: 0 <= i < m ==> |r[i]| == len
    decreases m
  {
    if m == 0 then []
    else
      assert m * len == (m - 1) * len + len;
      [s[..len]] + Split(s[len..], m - 1, len)
  }

  /** `v` has shape `nx x ny x nz x 1`. */
  predicate HasShape(v: Volume, nx: nat, ny: nat, nz: nat) {
    && |v| == nx
    && (forall x :: 0 <= x < nx ==> |v[x]| == ny)
    && (forall x, y :: 0 <= x < nx && 0 <= y < ny ==> |v[x][y]| == nz)
    && (forall x, y, z :: 0 <= x < nx && 0 <= y < ny && 0 <= z < nz ==> |v[x][y][z]| == 1)
  }

  /** One x-plane, `ny x nz x 1`, cut from `ny * nz` consecutive values. */
  function ToPlane(chunk: seq<real>, ny: nat, nz: nat): (p: seq<seq<seq<real>>>)
    requires |chunk| == ny * nz
    ensures |p| == ny
    ensures forall y :: 0 <= y < ny ==> |p[y]| == nz
    ensures forall y, z :: 0 <= y < ny && 0 <= z < nz ==> |p[y][z]| == 1
  {
    var rows := Split(chunk, ny, nz);
    seq(ny, y requires 0 <= y < ny => Split(rows[y], nz, 1))
  }

  /** `out.reshape([nx, ny, nz, 1])` in C order. */
  function ToVolume(flat: seq<real>, nx: nat, ny: nat, nz: nat): (v: Volume)
    requires |flat| == nx * ny * nz
    ensures HasShape(v, nx, ny, nz)
  {
    assert nx * ny * nz == nx * (ny * nz);
    var planes := Split(flat, nx, ny * nz);
    seq(nx, x requires 0 <= x < nx => ToPlane(planes[x], ny, nz))
  }

  /** Flattening one x-plane in C order. */
  function FlattenPlane(p: seq<seq<seq<real>>>): seq<real> {
    Concat(seq(|p|, y requires 0 <= y < |p| => Concat(p[y])))
  }

  /** Flattening a volume back in C order. */
  function Flatten(v: Volume): seq<real> {
    Concat(seq(|v|, x requires 0 <= x < |v| => FlattenPlane(v[x])))
  }

  lemma {:induction false} ConcatSplit<T>(s: seq<T>, m: nat, len: nat)
    requires |s| == m * len
    ensures Concat(Split(s, m, len)) == s
    decreases m
  {
    if m > 0 {
      assert m * len == (m - 1) * len + len;
      var r := Split(s, m, len);
      assert r[0] == s[..len] && r[1..] == Split(s[len..], m - 1, len);
      ConcatSplit(s[len..], m - 1, len);
      assert s == s[..len] + s[len..];
    }
  }

  lemma {:induction false} SplitConcat<T>(chunks: seq<seq<T>>, len: nat)
    requires forall i :: 0 <= i < |chunks| ==> |chunks[i]| == len
    ensures |Concat(chunks)| == |chunks| * len
    ensures Split(Concat(chunks), |chunks|, len) == chunks
  {
    if chunks != [] {
      SplitConcat(chunks[1..], len);
      var s := Concat(chunks);
      assert s == chunks[0] + Concat(chunks[1..]);
      assert |chunks| * len == (|chunks| - 1) * len + len;
      assert s[..len] == chunks[0] && s[len..] == Concat(chunks[1..]);
      assert chunks == [chunks[0]] + chunks[1..];
    }
  }

  lemma SliceOfSlice<T>(s: seq<T>, a: nat, b: nat, c: nat)
    requires a <= |s| && b <= c <= |s| - a
    ensures s[a..][b..c] == s[a + b .. a + c]
  {
  }

  /** Chunk `i` of a split is the slice `[i * len, i * len + len)`. */
  lemma {:induction false} SplitAt<T>(s: seq<T>, m: nat, len: nat, i: nat)
    requires |s| == m * len && i < m
    ensures i * len + len <= |s|
    ensures Split(s, m, len)[i] == s[i * len .. i * len + len]
    decreases i
  {
    MulSucc(m - 1, len);
    MulSucc(i, len);
    MulMono(i + 1, m, len);
    var r := Split(s, m, len);
    if i > 0 {
      MulSucc(i - 1, len);
      var start := (i - 1) * len;
      assert len + start == i * len;
      assert r[i] == Split(s[len..], m - 1, len)[i - 1];
      SplitAt(s[len..], m - 1, len, i - 1);
      assert i * len + len <= |s|;
      SliceOfSlice(s, len, start, start + len);
    } else {
      assert i * len == 0;
    }
  }

  /** Index arithmetic of C order: `(x*ny + y)*nz + z` addresses a distinct in-range slot. */
  lemma RowMajorIndexInRange(nx: nat, ny: nat, nz: nat, x: nat, y: nat, z: nat)
    requires x < nx && y < ny && z < nz
    ensures (x * ny + y) * nz + z == x * (ny * nz) + y * nz + z
    ensures (x * ny + y) * nz + z < nx * ny * nz
  {
    MulSucc(x, ny);
    MulMono(x + 1, nx, ny);
    MulSucc(x * ny + y, nz);
    MulMono(x * ny + y + 1, nx * ny, nz);
    Distribute(x * ny, y, nz);
    Associate(x, ny, nz);
    Associate(nx, ny, nz);
  }

  /** The flat (C-order) position of voxel `(x, y, z)`. */
  function RowMajorIndex(ny: nat, nz: nat, x: nat, y: nat, z: nat): nat {
    (x * ny + y) * nz + z
  }

  /** Element `k` of chunk `i` of a split is element `i*len + k` of the sequence. */
  lemma SplitElement<T>(s: seq<T>, m: nat, len: nat, i: nat, k: nat)
    requires |s| == m * len && i < m && k < len
    ensures i * len + k < |s|
    ensures Split(s, m, len)[i][k] == s[i * len + k]
  {
    SplitAt(s, m, len, i);
  }

  lemma ToPlaneAt(chunk: seq<real>, ny: nat, nz: nat, y: nat, z: nat)
    requires |chunk| == ny * nz
    requires y < ny && z < nz
    ensures y * nz + z < |chunk|
    ensures ToPlane(chunk, ny, nz)[y][z] == [chunk[y * nz + z]]
  {
    var rows := Split(chunk, ny, nz);
    SplitElement(chunk, ny, nz, y, z);
    var cell := Split(rows[y], nz, 1)[z];
    SplitElement(rows[y], nz, 1, z, 0);
    assert |cell| == 1 && cell[0] == rows[y][z];
    assert ToPlane(chunk, ny, nz)[y] == Split(rows[y], nz, 1);
  }

  /** Volume element `(x, y, z, 0)` is flat element `(x*ny + y)*nz + z`. */
  lemma ToVolumeIsRowMajor(flat: seq<real>, nx: nat, ny: nat, nz: nat, x: nat, y: nat, z: nat)
    requires |flat| == nx * ny * nz
    requires x < nx && y < ny && z < nz
    ensures RowMajorIndex(ny, nz, x, y, z) < |flat|
    ensures ToVolume(flat, nx, ny, nz)[x][y][z] == [flat[RowMajorIndex(ny, nz, x, y, z)]]
  {
    RowMajorIndexInRange(nx, ny, nz, x, y, z);
    Associate(nx, ny, nz);
    var plane := ny * nz;
    var planes := Split(flat, nx, plane);
    ToPlaneAt(planes[x], ny, nz, y, z);
    var offset := y * nz + z;
    SplitElement(flat, nx, plane, x, offset);
    assert x * plane + offset == RowMajorIndex(ny, nz, x, y, z);
    assert ToVolume(flat, nx, ny, nz)[x] == ToPlane(planes[x], ny, nz);
  }

  lemma FlattenToPlane(chunk: seq<real>, ny: nat, nz: nat)
    requires |chunk| == ny * nz
    ensures FlattenPlane(ToPlane(chunk, ny, nz)) == chunk
  {
    var p := ToPlane(chunk, ny, nz);
    var rows := Split(chunk, ny, nz);
    var flatRows := seq(|p|, y requires 0 <= y < |p| => Concat(p[y]));
    forall y | 0 <= y < ny ensures flatRows[y] == rows[y] {
      ConcatSplit(rows[y], nz, 1);
    }
    assert flatRows == rows;
    ConcatSplit(chunk, ny, nz);
  }

  /** Reshaping and flattening back reproduces the flat array. */
  lemma FlattenToVolume(flat: seq<real>, nx: nat, ny: nat, nz: nat)
    requires |flat| == nx * ny * nz
    ensures Flatten(ToVolume(flat, nx, ny, nz)) == flat
  {
    Associate(nx, ny, nz);
    var v := ToVolume(flat, nx, ny, nz);
    var planes := Split(flat, nx, ny * nz);
    var flatPlanes := seq(|v|, x requires 0 <= x < |v| => FlattenPlane(v[x]));
    forall x | 0 <= x < nx ensures flatPlanes[x] == planes[x] {
      FlattenToPlane(planes[x], ny, nz);
    }
    assert flatPlanes == planes;
    ConcatSplit(flat, nx, ny * nz);
  }

  lemma ToPlaneFlatten(p: seq<seq<seq<real>>>, ny: nat, nz: nat)
    requires |p| == ny
    requires forall y :: 0 <= y < ny ==> |p[y]| == nz
    requires forall y, z :: 0 <= y < ny && 0 <= z < nz ==> |p[y][z]| == 1
    ensures |FlattenPlane(p)| == ny * nz
    ensures ToPlane(FlattenPlane(p), ny, nz) == p
  {
    var flatRows := seq(|p|, y requires 0 <= y < |p| => Concat(p[y]));
    forall y | 0 <= y < ny ensures |flatRows[y]| == nz && Split(flatRows[y], nz, 1) == p[y] {
      SplitConcat(p[y], 1);
    }
    SplitConcat(flatRows, nz);
  }

  /** Flattening a well-shaped volume and reshaping it back reproduces the volume. */
  lemma ToVolumeFlatten(v: Volume, nx: nat, ny: nat, nz: nat)
    requires HasShape(v, nx, ny, nz)
    ensures |Flatten(v)| == nx * ny * nz
    ensures ToVolume(Flatten(v), nx, ny, nz) == v
  {
    var flatPlanes := seq(|v|, x requires 0 <= x < |v| => FlattenPlane(v[x]));
    forall x | 0 <= x < nx
      ensures |flatPlanes[x]| == ny * nz && ToPlane(flatPlanes[x], ny, nz) == v[x]
    {
      ToPlaneFlatten(v[x], ny, nz);
    }
    SplitConcat(flatPlanes, ny * nz);
    Associate(nx, ny, nz);
  }
}
