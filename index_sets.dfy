/**
 * Index lists as numpy produces them: `np.where(flags)[0]`, `np.unique` and
 * `np.intersect1d`. An index list is a `seq<int>`; the ones numpy calls
 * "unique" are strictly increasing.
 */
module IndexSets {

  /** Sorted and duplicate-free, the form `np.unique` and `np.intersect1d` return. */
  predicate StrictlyIncreasing(s: seq<int>) {
    forall i, j :: 0 <= i < j < |s| ==> s[i] < s[j]
  }

  /** `np.where(flags)[0]`: the positions of the true entries, in increasing order. */
  function Where(flags: seq<bool>): (r: seq<int>)
    ensures StrictlyIncreasing(r)
    ensures forall j :: j in r <==> 0 <= j < |flags| && flags[j]
  {
    if flags == [] then []
    else
      var n := |flags| - 1;
      var prefix := Where(flags[..n]);
      assert forall j :: 0 <= j < n ==> flags[..n][j] == flags[j];
      assert forall k :: 0 <= k < |prefix| ==> prefix[k] in prefix;
      prefix + (if flags[n] then [n] else [])
  }

  /** Inserts `x` into a strictly increasing list, keeping it strictly increasing. */
  function Insert(x: int, s: seq<int>): (r: seq<int>)
    requires StrictlyIncreasing(s)
    ensures StrictlyIncreasing(r)
    ensures forall y :: y in r <==> y == x || y in s
  {
    if s == [] then [x]
    else if x < s[0] then
      assert forall y :: y in s ==> s[0] <= y;
      [x] + s
    else if x == s[0] then s
    else
      var rest := Insert(x, s[1..]);
      forall k | 0 <= k < |rest| ensures s[0] < rest[k] {
        assert rest[k] in rest;
        if rest[k] != x {
          var i :| 0 <= i < |s[1..]| && s[1..][i] == rest[k];
          assert s[i + 1] == rest[k];
        }
      }
      [s[0]] + rest
  }

  /** `np.unique`: the distinct elements of `s`, sorted. */
  function Unique(s: seq<int>): (r: seq<int>)
    ensures StrictlyIncreasing(r)
    ensures forall y :: y in r <==> y in s
  {
    if s == [] then []
    else
      var n := |s| - 1;
      assert s == s[..n] + [s[n]];
      Insert(s[n], Unique(s[..n]))
  }

  /**
   * The elements of `a` that also occur in `b`. Only membership is stated:
   * `Intersect1d` depends on nothing else (`Intersect1dOfSameValues`).
   */
  function Common(a: seq<int>, b: seq<int>): (r: seq<int>)
    ensures forall y :: y in r <==> y in a && y in b
  {
    if a == [] then []
    else
      assert a == [a[0]] + a[1..];
      (if a[0] in b then [a[0]] else []) + Common(a[1..], b)
  }

  /**
   * `np.intersect1d`: the sorted, duplicate-free list of the values common
   * to both inputs, whatever order or repetition the inputs have.
   */
  function Intersect1d(a: seq<int>, b: seq<int>): (r: seq<int>)
    ensures StrictlyIncreasing(r)
    ensures forall y :: y in r <==> y in a && y in b
  {
    Unique(Common(a, b))
  }

  /** The head of a strictly increasing list is below every later element, and the tail stays strictly increasing. */
  lemma HeadAndTail(a: seq<int>)
    requires StrictlyIncreasing(a) && a != []
    ensures StrictlyIncreasing(a[1..])
    ensures forall y :: y in a <==> y == a[0] || y in a[1..]
    ensures forall y :: y in a[1..] ==> a[0] < y
  {
    assert a == [a[0]] + a[1..];
  }

  /** A strictly increasing list is determined by the set of its elements. */
  lemma {:induction false} StrictlyIncreasingUnique(a: seq<int>, b: seq<int>)
    requires StrictlyIncreasing(a) && StrictlyIncreasing(b)
    requires forall y :: y in a <==> y in b
    ensures a == b
  {
    assert a != [] ==> a[0] in a && a[0] in b;
    assert b != [] ==> b[0] in b && b[0] in a;
    if a != [] {
      HeadAndTail(a);
      HeadAndTail(b);
      assert a[0] == b[0];
      assert forall y :: y in a[1..] <==> y in b[1..];
      StrictlyIncreasingUnique(a[1..], b[1..]);
      assert a == [a[0]] + a[1..] && b == [b[0]] + b[1..];
    }
  }

  /** `np.intersect1d` is symmetric: the order of its arguments does not matter. */
  lemma Intersect1dCommutes(a: seq<int>, b: seq<int>)
    ensures Intersect1d(a, b) == Intersect1d(b, a)
  {
    StrictlyIncreasingUnique(Intersect1d(a, b), Intersect1d(b, a));
  }

  /** `np.intersect1d` depends only on the sets of values of its inputs. */
  lemma Intersect1dOfSameValues(a: seq<int>, b: seq<int>, a': seq<int>, b': seq<int>)
    requires forall y :: y in a <==> y in a'
    requires forall y :: y in b <==> y in b'
    ensures Intersect1d(a, b) == Intersect1d(a', b')
  {
    StrictlyIncreasingUnique(Intersect1d(a, b), Intersect1d(a', b'));
  }
}
