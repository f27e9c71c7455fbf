/**
 `_detect_outliers` of shared/data_module.py: for every OHLCV column with at
 least three present values, the robust MAD rule and the IQR rule are applied
 to the present values and the number of values either rule flags is
 reported. Nothing in the frame changes.
 */
module Outliers {
  import opened Outcomes
  import opened Bars
  import Seqs
  import Stats
  import Config
  import Validation

  /** The rows in which `f` is present. */
  function HasValue(f: Field): Bar -> bool {
    (b: Bar) => Value(b, f).Some?
  }

  /** The values of `f` in rows where it is present, in row order. */
  function ValuesOf(bars: seq<Bar>, f: Field): (r: seq<real>)
    requires forall i :: 0 <= i < |bars| ==> Value(bars[i], f).Some?
    ensures |r| == |bars|
    ensures forall i :: 0 <= i < |bars| ==> Some(r[i]) == Value(bars[i], f)
  {
    seq(|bars|, i requires 0 <= i < |bars| && Value(bars[i], f).Some? => Value(bars[i], f).value)
  }

  lemma ValuesOfCons(b: Bar, rest: seq<Bar>, f: Field)
    requires Value(b, f).Some?
    requires forall i :: 0 <= i < |rest| ==> Value(rest[i], f).Some?
    ensures forall i :: 0 <= i < |[b] + rest| ==> Value(([b] + rest)[i], f).Some?
    ensures ValuesOf([b] + rest, f) == [Value(b, f).value] + ValuesOf(rest, f)
  {
    var whole := [b] + rest;
    assert forall i :: 1 <= i < |whole| ==> whole[i] == rest[i - 1];
    var l := ValuesOf(whole, f);
    var r := [Value(b, f).value] + ValuesOf(rest, f);
    forall i | 0 <= i < |l| ensures l[i] == r[i] {
      if i > 0 {
        assert whole[i] == rest[i - 1];
      }
    }
  }

  /** `df[col].dropna()`: the present values of a column, in row order and with repeats. */
  function PresentValues(bars: seq<Bar>, f: Field): (r: seq<real>)
    ensures r == ValuesOf(Seqs.Filter(bars, HasValue(f)), f)
    ensures |r| + Validation.NanCount(bars, f) == |bars|
    ensures forall x :: x in r <==> exists i :: 0 <= i < |bars| && Value(bars[i], f) == Some(x)
  {
    if |bars| == 0 then []
    else
      var rest := PresentValues(bars[1..], f);
      var kept := Seqs.Filter(bars[1..], HasValue(f));
      assert forall x :: (exists i :: 0 <= i < |bars[1..]| && Value(bars[1..][i], f) == Some(x)) <==>
        (exists i :: 1 <= i < |bars| && Value(bars[i], f) == Some(x));
      match Value(bars[0], f)
      case Some(x) =>
        assert Seqs.Filter(bars, HasValue(f)) == [bars[0]] + kept;
        ValuesOfCons(bars[0], kept, f);
        [x] + rest
      case None =>
        assert Seqs.Filter(bars, HasValue(f)) == kept;
        rest
  }

  function Abs(x: real): real {
    if x < 0.0 then -x else x
  }

  /** `(data - median).abs()`. */
  function Deviations(data: seq<real>, m: real): (r: seq<real>)
    ensures |r| == |data|
    ensures forall i :: 0 <= i < |data| ==> r[i] == Abs(data[i] - m) && r[i] >= 0.0
  {
    seq(|data|, i requires 0 <= i < |data| => Abs(data[i] - m))
  }

  /** Strictly outside `median ± 3·MAD`. */
  predicate MadOutlier(x: real, median: real, mad: real) {
    x < median - Config.OutlierThresholdMad * mad || x > median + Config.OutlierThresholdMad * mad
  }

  /** Strictly outside `[Q1 − 1.5·IQR, Q3 + 1.5·IQR]`. */
  predicate IqrOutlier(x: real, q1: real, q3: real) {
    x < q1 - Config.OutlierThresholdIqr * (q3 - q1) || x > q3 + Config.OutlierThresholdIqr * (q3 - q1)
  }

  function Flagged(median: real, mad: real, q1: real, q3: real): real -> bool {
    x => MadOutlier(x, median, mad) || IqrOutlier(x, q1, q3)
  }

  /** The outcome for one column: skipped when fewer than three values are present. */
  datatype ColumnScan =
    | Skipped(field: Field, present: nat)
    | Scanned(field: Field, median: real, mad: real, q1: real, q3: real, outliers: nat)

  /** The positions of `data` that the MAD rule or the IQR rule flags. */
  function OutlierPositions(data: seq<real>, median: real, mad: real, q1: real, q3: real): set<int> {
    set i | 0 <= i < |data| && (MadOutlier(data[i], median, mad) || IqrOutlier(data[i], q1, q3))
  }

  /** The scan of one column's present values. */
  function Scan(f: Field, data: seq<real>): (r: ColumnScan)
    ensures r.field == f
    ensures r.Skipped? <==> |data| < 3
    ensures r.Skipped? ==> r.present == |data|
    ensures r.Scanned? ==>
      && r.median == Stats.Quantile(data, 0.5)
      && r.q1 == Stats.Quantile(data, 0.25)
      && r.q3 == Stats.Quantile(data, 0.75)
      && r.mad == Stats.Median(Deviations(data, r.median))
    ensures r.Scanned? ==> r.mad >= 0.0 && r.q1 <= r.median <= r.q3
    ensures r.Scanned? ==> r.outliers == |OutlierPositions(data, r.median, r.mad, r.q1, r.q3)| <= |data|
    ensures r.Scanned? ==> (r.outliers == 0 <==>
      (forall i :: 0 <= i < |data| ==> !MadOutlier(data[i], r.median, r.mad) && !IqrOutlier(data[i], r.q1, r.q3)))
  {
    if |data| < 3 then Skipped(f, |data|)
    else
      var median := Stats.Median(data);
      var mad := Stats.Median(Deviations(data, median));
      var q1 := Stats.Quantile(data, 0.25);
      var q3 := Stats.Quantile(data, 0.75);
      QuartilesAroundMedian(data);
      Seqs.CountIsPositions(data, Flagged(median, mad, q1, q3));
      assert Seqs.Positions(data, Flagged(median, mad, q1, q3)) == OutlierPositions(data, median, mad, q1, q3);
      Scanned(f, median, mad, q1, q3, Seqs.Count(data, Flagged(median, mad, q1, q3)))
  }

  /** The MAD rule flags exactly the values further than three MADs from the median. */
  lemma MadRuleIsDistance(x: real, median: real, mad: real)
    ensures MadOutlier(x, median, mad) <==> Abs(x - median) > Config.OutlierThresholdMad * mad
  {
  }

  /** Q1 <= median <= Q3, because pandas' median is the 0.5-quantile. */
  lemma QuartilesAroundMedian(data: seq<real>)
    requires |data| > 0
    ensures Stats.Quantile(data, 0.25) <= Stats.Median(data) <= Stats.Quantile(data, 0.75)
  {
    var s := Stats.Sort(data);
    Stats.MedianIsHalfQuantile(s);
    Stats.QuantileMonotone(s, 0.25, 0.5);
    Stats.QuantileMonotone(s, 0.5, 0.75);
  }

  /** One scan per existing OHLCV column, in OHLCV order. */
  function DetectOutliers(f: Frame): (r: seq<ColumnScan>)
    ensures |r| == |ExistingFields(f.cols)|
    ensures forall i :: 0 <= i < |r| ==> r[i] == Scan(ExistingFields(f.cols)[i], PresentValues(f.bars, ExistingFields(f.cols)[i]))
    ensures forall i :: 0 <= i < |r| ==> r[i].field in f.cols
  {
    ScanAll(f.bars, ExistingFields(f.cols))
  }

  function ScanAll(bars: seq<Bar>, fields: seq<Field>): (r: seq<ColumnScan>)
    ensures |r| == |fields|
    ensures forall i :: 0 <= i < |r| ==> r[i] == Scan(fields[i], PresentValues(bars, fields[i]))
    ensures forall i :: 0 <= i < |r| ==> r[i].field == fields[i]
  {
    seq(|fields|, i requires 0 <= i < |fields| => Scan(fields[i], PresentValues(bars, fields[i])))
  }

  /** The `outliers_found` flag: some column had a flagged value. */
  predicate OutliersFound(scans: seq<ColumnScan>) {
    exists i :: 0 <= i < |scans| && scans[i].Scanned? && scans[i].outliers > 0
  }

  /** A column whose present values all equal one constant has no outliers. */
  lemma ConstantColumnHasNoOutliers(bars: seq<Bar>, f: Field, c: real)
    requires forall i :: 0 <= i < |bars| && Value(bars[i], f).Some? ==> Value(bars[i], f).value == c
    ensures var r := Scan(f, PresentValues(bars, f));
      r.Scanned? ==> r.outliers == 0 && r.median == c && r.mad == 0.0
  {
    var data := PresentValues(bars, f);
    if |data| >= 3 {
      ConstantPresentValues(bars, f, c);
      Stats.ConstantSample(data, c);
      var devs := Deviations(data, c);
      Stats.ConstantSample(devs, 0.0);
    }
  }

  lemma ConstantPresentValues(bars: seq<Bar>, f: Field, c: real)
    requires forall i :: 0 <= i < |bars| && Value(bars[i], f).Some? ==> Value(bars[i], f).value == c
    ensures forall k :: 0 <= k < |PresentValues(bars, f)| ==> PresentValues(bars, f)[k] == c
  {
    var data := PresentValues(bars, f);
    forall k | 0 <= k < |data| ensures data[k] == c {
      assert data[k] in data;
    }
  }

  /** A frame whose every column is constant reports no outliers at all. */
  lemma ConstantFrameHasNoOutliers(f: Frame, c: Field -> real)
    requires forall i, g :: 0 <= i < |f.bars| && Value(f.bars[i], g).Some? ==> Value(f.bars[i], g).value == c(g)
    ensures !OutliersFound(DetectOutliers(f))
  {
    var scans := DetectOutliers(f);
    forall i | 0 <= i < |scans| ensures !(scans[i].Scanned? && scans[i].outliers > 0) {
      var g := ExistingFields(f.cols)[i];
      ConstantColumnHasNoOutliers(f.bars, g, c(g));
    }
  }
}
