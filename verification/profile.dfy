/** The density profiler: per-row and per-column mean ink weight, and the
    adaptive content threshold derived from them. */
module Profile {
  import opened Raster
  import opened Sequences

  /** Ink weight of one pixel: `(255 - lum) / 255`, doubled for dark pixels. */
  function Weight(l: int): (wt: real)
    requires 0 <= l <= MaxLuma
    ensures 0.0 <= wt <= 2.0
    ensures l == MaxLuma <==> wt == 0.0
  {
    var ink := (MaxLuma - l) as real / MaxLuma as real;
    if IsDark(l) then ink * 2.0 else ink
  }

  /** Darker pixels never weigh less, and a dark pixel always outweighs a
      light one. */
  lemma WeightAntitone(a: int, b: int)
    requires 0 <= a <= b <= MaxLuma
    ensures Weight(a) >= Weight(b)
    ensures IsDark(a) && !IsDark(b) ==> Weight(a) > Weight(b)
  {
    if IsDark(a) && !IsDark(b) {
      assert Weight(a) > 2.0 * 127000.0 / 255000.0;
      assert Weight(b) <= 127000.0 / 255000.0;
    }
  }

  /** Sum of weights of the first `n` pixels of row `y`. */
  function RowSum(r: Raster, y: int, n: int): (s: real)
    requires r.Valid() && 0 <= y < r.height && 0 <= n <= r.width
    ensures 0.0 <= s <= 2.0 * n as real
  {
    if n == 0 then 0.0 else RowSum(r, y, n - 1) + Weight(r.Lum(n - 1, y))
  }

  /** Sum of weights of the first `n` pixels of column `x`. */
  function ColSum(r: Raster, x: int, n: int): (s: real)
    requires r.Valid() && 0 <= x < r.width && 0 <= n <= r.height
    ensures 0.0 <= s <= 2.0 * n as real
  {
    if n == 0 then 0.0 else ColSum(r, x, n - 1) + Weight(r.Lum(x, n - 1))
  }

  /** The mean weight of `n` pixels whose weights add up to `sum`. */
  function MeanWeight(sum: real, n: int): (d: real)
    requires n > 0 && 0.0 <= sum <= 2.0 * n as real
    ensures 0.0 <= d <= 2.0
    ensures d * n as real == sum
  {
    var d := sum / n as real;
    assert d * n as real == sum;
    d
  }

  function RowDensities(r: Raster): (ds: seq<real>)
    requires r.Valid()
    ensures |ds| == r.height
    ensures forall y :: 0 <= y < r.height ==> 0.0 <= ds[y] <= 2.0
  {
    seq(r.height, y requires 0 <= y < r.height => MeanWeight(RowSum(r, y, r.width), r.width))
  }

  function ColDensities(r: Raster): (ds: seq<real>)
    requires r.Valid()
    ensures |ds| == r.width
    ensures forall x :: 0 <= x < r.width ==> 0.0 <= ds[x] <= 2.0
  {
    seq(r.width, x requires 0 <= x < r.width => MeanWeight(ColSum(r, x, r.height), r.height))
  }

  /** The first `n` pixels of a row weigh nothing exactly when all are white. */
  lemma {:induction false} RowSumZero(r: Raster, y: int, n: int)
    requires r.Valid() && 0 <= y < r.height && 0 <= n <= r.width
    ensures RowSum(r, y, n) == 0.0 <==> forall x :: 0 <= x < n ==> r.Lum(x, y) == MaxLuma
  {
    if n > 0 {
      RowSumZero(r, y, n - 1);
    }
  }

  /** The first `n` pixels of a column weigh nothing exactly when all are white. */
  lemma {:induction false} ColSumZero(r: Raster, x: int, n: int)
    requires r.Valid() && 0 <= x < r.width && 0 <= n <= r.height
    ensures ColSum(r, x, n) == 0.0 <==> forall y :: 0 <= y < n ==> r.Lum(x, y) == MaxLuma
  {
    if n > 0 {
      ColSumZero(r, x, n - 1);
    }
  }

  /** A row has zero density exactly when every pixel of it is white. */
  lemma {:induction false} RowDensityZero(r: Raster, y: int)
    requires r.Valid() && 0 <= y < r.height
    ensures RowDensities(r)[y] == 0.0 <==> forall x :: 0 <= x < r.width ==> r.Lum(x, y) == MaxLuma
  {
    RowSumZero(r, y, r.width);
  }

  /** A column has zero density exactly when every pixel of it is white. */
  lemma {:induction false} ColDensityZero(r: Raster, x: int)
    requires r.Valid() && 0 <= x < r.width
    ensures ColDensities(r)[x] == 0.0 <==> forall y :: 0 <= y < r.height ==> r.Lum(x, y) == MaxLuma
  {
    ColSumZero(r, x, r.height);
  }

  // ---------------------------------------------------------------------
  // Threshold

  /** The rank used by the source: `floor(n * 0.05)`. */
  function Rank(n: nat): nat {
    n / 20
  }

  /** Twice the value at rank `floor(0.05 n)` of the ascending densities. */
  function Threshold(ds: seq<real>): (t: real)
    requires |ds| > 0
    ensures t / 2.0 in ds
  {
    var sorted := Sort(ds);
    assert sorted[Rank(|ds|)] in multiset(ds);
    2.0 * sorted[Rank(|ds|)]
  }

  /** `x < v` when `strict`, `x <= v` otherwise. */
  predicate Below(x: real, v: real, strict: bool) {
    if strict then x < v else x <= v
  }

  /** How many entries of `s` lie below `v`. */
  function Count(s: seq<real>, v: real, strict: bool): (n: nat)
    ensures n <= |s|
  {
    if |s| == 0 then 0 else Count(s[..|s| - 1], v, strict) + (if Below(s[|s| - 1], v, strict) then 1 else 0)
  }

  lemma {:induction false} CountAppend(a: seq<real>, b: seq<real>, v: real, strict: bool)
    ensures Count(a + b, v, strict) == Count(a, v, strict) + Count(b, v, strict)
    decreases |b|
  {
    if |b| == 0 {
      assert a + b == a;
    } else {
      assert (a + b)[..|a + b| - 1] == a + b[..|b| - 1];
      CountAppend(a, b[..|b| - 1], v, strict);
    }
  }

  /** Removing the entry at `j` lowers the count by that entry's share. */
  lemma {:induction false} CountRemove(b: seq<real>, j: int, v: real, strict: bool)
    requires 0 <= j < |b|
    ensures Count(b, v, strict) == Count(b[..j] + b[j + 1..], v, strict) + (if Below(b[j], v, strict) then 1 else 0)
  {
    assert b == (b[..j] + [b[j]]) + b[j + 1..];
    CountAppend(b[..j] + [b[j]], b[j + 1..], v, strict);
    CountAppend(b[..j], [b[j]], v, strict);
    CountAppend(b[..j], b[j + 1..], v, strict);
    assert Count([b[j]], v, strict) == (if Below(b[j], v, strict) then 1 else 0) by {
      assert [b[j]][..0] == [];
    }
  }

  lemma MultisetRemove(b: seq<real>, j: int)
    requires 0 <= j < |b|
    ensures multiset(b[..j] + b[j + 1..]) == multiset(b) - multiset{b[j]}
  {
    assert b == b[..j] + [b[j]] + b[j + 1..];
  }

  /** Counting depends only on the multiset of values. */
  lemma {:induction false} CountPermutation(a: seq<real>, b: seq<real>, v: real, strict: bool)
    requires multiset(a) == multiset(b)
    ensures Count(a, v, strict) == Count(b, v, strict)
    decreases |a|
  {
    if |a| > 0 {
      var front, last := a[..|a| - 1], a[|a| - 1];
      assert a == front + [last];
      assert multiset(a) == multiset(front) + multiset{last};
      assert last in multiset(b);
      var j :| 0 <= j < |b| && b[j] == last;
      var b' := b[..j] + b[j + 1..];
      MultisetRemove(b, j);
      assert multiset(front) == multiset(b');
      CountPermutation(front, b', v, strict);
      CountRemove(b, j, v, strict);
    }
  }

  lemma {:induction false} AllBelow(s: seq<real>, v: real, strict: bool)
    requires forall i :: 0 <= i < |s| ==> Below(s[i], v, strict)
    ensures Count(s, v, strict) == |s|
  {
    if |s| > 0 {
      AllBelow(s[..|s| - 1], v, strict);
    }
  }

  lemma {:induction false} NoneBelow(s: seq<real>, v: real, strict: bool)
    requires forall i :: 0 <= i < |s| ==> !Below(s[i], v, strict)
    ensures Count(s, v, strict) == 0
  {
    if |s| > 0 {
      NoneBelow(s[..|s| - 1], v, strict);
    }
  }

  /** In a sorted sequence, at most `k` values lie strictly below `s[k]` and
      at least `k + 1` lie at or below it. */
  lemma {:induction false} SortedRank(s: seq<real>, k: nat)
    requires Sorted(s) && k < |s|
    ensures Count(s, s[k], true) <= k
    ensures Count(s, s[k], false) >= k + 1
  {
    var v := s[k];
    var lo, hi := s[..k + 1], s[k + 1..];
    assert s == lo + hi;
    forall i | 0 <= i < |lo|
      ensures Below(lo[i], v, false)
    {
      assert lo[i] == s[i];
    }
    forall i | 0 <= i < |hi|
      ensures !Below(hi[i], v, true)
    {
      assert hi[i] == s[k + 1 + i];
    }
    AllBelow(lo, v, false);
    NoneBelow(hi, v, true);
    CountAppend(lo, hi, v, true);
    CountAppend(lo, hi, v, false);
    assert Below(lo[k], v, true) == false;
    assert Count(lo, v, true) <= k by {
      assert lo[..k] == lo[..|lo| - 1];
    }
  }

  /** The threshold is twice an order statistic of the densities: at most
      `floor(n / 20)` densities lie below half of it and more than that many
      lie at or below it, whatever the order of the input. */
  lemma {:induction false} ThresholdIsRankStatistic(ds: seq<real>)
    requires |ds| > 0
    ensures Count(ds, Threshold(ds) / 2.0, true) <= Rank(|ds|)
    ensures Count(ds, Threshold(ds) / 2.0, false) > Rank(|ds|)
  {
    var sorted := Sort(ds);
    var v := sorted[Rank(|ds|)];
    assert Threshold(ds) == 2.0 * v;
    assert Threshold(ds) / 2.0 == v;
    SortedRank(sorted, Rank(|ds|));
    CountPermutation(sorted, ds, v, true);
    CountPermutation(sorted, ds, v, false);
  }
}
