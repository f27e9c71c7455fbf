/**
 The order statistics `_detect_outliers` relies on: pandas `Series.median()`
 and `Series.quantile(q)` with linear interpolation, both defined over the
 sorted values.
 */
module Stats {

  ghost predicate Sorted(s: seq<real>) {
    forall i, j :: 0 <= i < j < |s| ==> s[i] <= s[j]
  }

  lemma SplitFirst(s: seq<real>)
    requires |s| > 0
    ensures multiset(s) == multiset{s[0]} + multiset(s[1..])
  {
    assert s == [s[0]] + s[1..];
  }

  /** `x` placed into sorted `s` before the first larger-or-equal element. */
  function Insert(x: real, s: seq<real>): (r: seq<real>)
    requires Sorted(s)
    ensures |r| == |s| + 1
    ensures multiset(r) == multiset(s) + multiset{x}
    ensures Sorted(r)
  {
    if |s| == 0 then [x]
    else if x <= s[0] then [x] + s
    else
      var rest := Insert(x, s[1..]);
      SplitFirst(s);
      InsertHeadBound(s[0], x, s[1..], rest);
      [s[0]] + rest
  }

  lemma InsertHeadBound(h: real, x: real, tail: seq<real>, rest: seq<real>)
    requires h < x
    requires forall j :: 0 <= j < |tail| ==> h <= tail[j]
    requires Sorted(rest) && multiset(rest) == multiset(tail) + multiset{x}
    ensures Sorted([h] + rest)
  {
    forall k | 0 <= k < |rest| ensures h <= rest[k] {
      assert rest[k] in multiset(rest);
      if rest[k] != x {
        assert rest[k] in multiset(tail);
        var j :| 0 <= j < |tail| && tail[j] == rest[k];
      }
    }
    var r := [h] + rest;
    forall i, j | 0 <= i < j < |r| ensures r[i] <= r[j] {
      if i > 0 {
        assert r[i] == rest[i - 1] && r[j] == rest[j - 1];
      } else {
        assert r[j] == rest[j - 1];
      }
    }
  }

  /** The values of `s` in ascending order. */
  function Sort(s: seq<real>): (r: seq<real>)
    ensures |r| == |s|
    ensures multiset(r) == multiset(s)
    ensures Sorted(r)
  {
    if |s| == 0 then []
    else
      SplitFirst(s);
      Insert(s[0], Sort(s[1..]))
  }

  /** pandas median of sorted values: the middle one, or the mean of the two middle ones. */
  function MedianOfSorted(s: seq<real>): real
    requires |s| > 0
  {
    if |s| % 2 == 1 then s[|s| / 2] else (s[|s| / 2 - 1] + s[|s| / 2]) / 2.0
  }

  function Median(xs: seq<real>): (m: real)
    requires |xs| > 0
    ensures exists i :: 0 <= i < |xs| && xs[i] <= m
    ensures exists i :: 0 <= i < |xs| && m <= xs[i]
    ensures m == Quantile(xs, 0.5)
  {
    var s := Sort(xs);
    MedianBetween(s);
    MedianIsHalfQuantile(s);
    assert s[0] in multiset(xs) && s[|s| - 1] in multiset(xs);
    MedianOfSorted(s)
  }

  lemma MedianBetween(s: seq<real>)
    requires |s| > 0 && Sorted(s)
    ensures s[0] <= MedianOfSorted(s) <= s[|s| - 1]
  {
  }

  /** Position `(n - 1) * q` split into its whole part and fraction. */
  function QuantileIndex(n: nat, q: real): (lo: int)
    requires n > 0 && 0.0 <= q <= 1.0
    ensures 0 <= lo < n
    ensures lo as real <= (n - 1) as real * q < lo as real + 1.0
  {
    var m := (n - 1) as real;
    var pos := m * q;
    assert m >= 0.0;
    MulMono(m, 0.0, q);
    assert 0.0 <= pos;
    MulMono(m, q, 1.0);
    assert pos <= m;
    FloorBounds(pos);
    pos.Floor
  }

  lemma MulMono(a: real, p: real, q: real)
    requires a >= 0.0 && p <= q
    ensures a * p <= a * q
  {
    assert a * q - a * p == a * (q - p);
  }

  lemma FloorMono(x: real, y: real)
    requires x <= y
    ensures x.Floor <= y.Floor
  {
  }

  lemma QuantileIndexMono(n: nat, p: real, q: real)
    requires n > 0 && 0.0 <= p <= q <= 1.0
    ensures QuantileIndex(n, p) <= QuantileIndex(n, q)
  {
    MulMono((n - 1) as real, p, q);
    FloorMono((n - 1) as real * p, (n - 1) as real * q);
  }

  lemma FloorBounds(x: real)
    ensures x.Floor as real <= x < x.Floor as real + 1.0
    ensures x >= 0.0 ==> x.Floor >= 0
  {
  }

  /** pandas `quantile(q)` with linear interpolation, over sorted values. */
  function QuantileOfSorted(s: seq<real>, q: real): real
    requires |s| > 0 && 0.0 <= q <= 1.0
  {
    var pos := (|s| - 1) as real * q;
    var lo := QuantileIndex(|s|, q);
    var frac := pos - lo as real;
    if lo + 1 < |s| then s[lo] + (s[lo + 1] - s[lo]) * frac else s[lo]
  }

  function Quantile(xs: seq<real>, q: real): real
    requires |xs| > 0 && 0.0 <= q <= 1.0
  {
    QuantileOfSorted(Sort(xs), q)
  }

  /** The interpolated value lies between the two neighbouring order statistics. */
  lemma QuantileBetween(s: seq<real>, q: real)
    requires |s| > 0 && 0.0 <= q <= 1.0 && Sorted(s)
    ensures var lo := QuantileIndex(|s|, q);
      && s[lo] <= QuantileOfSorted(s, q)
      && (lo + 1 < |s| ==> QuantileOfSorted(s, q) <= s[lo + 1])
      && (lo + 1 == |s| ==> QuantileOfSorted(s, q) == s[lo])
  {
    var lo := QuantileIndex(|s|, q);
    var frac := (|s| - 1) as real * q - lo as real;
    if lo + 1 < |s| {
      var d := s[lo + 1] - s[lo];
      assert d >= 0.0;
      assert d * frac >= 0.0;
      assert d * frac <= d by {
        assert d * (1.0 - frac) >= 0.0;
      }
    }
  }

  /** A larger probability never gives a smaller quantile. */
  lemma QuantileMonotone(s: seq<real>, p: real, q: real)
    requires |s| > 0 && 0.0 <= p <= q <= 1.0 && Sorted(s)
    ensures QuantileOfSorted(s, p) <= QuantileOfSorted(s, q)
  {
    var n := |s|;
    var lp := QuantileIndex(n, p);
    var lq := QuantileIndex(n, q);
    QuantileIndexMono(n, p, q);
    QuantileBetween(s, p);
    QuantileBetween(s, q);
    if lp < lq {
      assert s[lp + 1] <= s[lq];
    } else {
      SameCellMonotone(s, p, q);
    }
  }

  lemma SameCellMonotone(s: seq<real>, p: real, q: real)
    requires |s| > 0 && 0.0 <= p <= q <= 1.0 && Sorted(s)
    requires QuantileIndex(|s|, p) == QuantileIndex(|s|, q)
    ensures QuantileOfSorted(s, p) <= QuantileOfSorted(s, q)
  {
    var n := |s|;
    var lo := QuantileIndex(n, p);
    if lo + 1 < n {
      var fp := (n - 1) as real * p - lo as real;
      var fq := (n - 1) as real * q - lo as real;
      MulMono((n - 1) as real, p, q);
      assert s[lo] <= s[lo + 1];
      MulMono(s[lo + 1] - s[lo], fp, fq);
    }
  }

  /** pandas' median is the linear 0.5-quantile. */
  lemma MedianIsHalfQuantile(s: seq<real>)
    requires |s| > 0
    ensures MedianOfSorted(s) == QuantileOfSorted(s, 0.5)
  {
    var n := |s|;
    var lo := QuantileIndex(n, 0.5);
    if n % 2 == 1 {
      assert (n - 1) as real * 0.5 == (n / 2) as real;
      assert lo == n / 2;
    } else {
      assert (n - 1) as real * 0.5 == (n / 2 - 1) as real + 0.5;
      assert lo == n / 2 - 1;
    }
  }

  /** Every order statistic of a constant sample is that constant. */
  lemma ConstantSample(xs: seq<real>, c: real)
    requires |xs| > 0
    requires forall i :: 0 <= i < |xs| ==> xs[i] == c
    ensures forall i :: 0 <= i < |Sort(xs)| ==> Sort(xs)[i] == c
    ensures Median(xs) == c
    ensures forall q :: 0.0 <= q <= 1.0 ==> Quantile(xs, q) == c
  {
    var s := Sort(xs);
    forall i | 0 <= i < |s| ensures s[i] == c {
      assert s[i] in multiset(xs);
    }
    forall q | 0.0 <= q <= 1.0 ensures Quantile(xs, q) == c {
      QuantileBetween(s, q);
    }
  }
}
