/**
 `_analyze_missing_data` of shared/data_module.py: per existing OHLCV column,
 the share of NaN entries, with a warning above the 30% tolerance.
 */
module Missing {
  import opened Outcomes
  import opened Bars
  import Config
  import Validation
  import Arith

  datatype ColumnMissing = ColumnMissing(
    field: Field,
    missing: nat,
    percent: Option<real>,   // None when the frame has no rows (0 / 0 is NaN)
    reported: bool,          // listed under "Missing data detected"
    overTolerance: bool      // the "exceeds 30% threshold" warning
  )

  /** `missing / len(df) * 100`. */
  function MissingPercent(missing: nat, rows: nat): (p: Option<real>)
    requires missing <= rows
    ensures p.None? <==> rows == 0
    ensures p.Some? ==> 0.0 <= p.value <= 100.0
    ensures p.Some? ==> (p.value == 0.0 <==> missing == 0)
    ensures p.Some? ==> (p.value > Config.GapTolerancePercent <==> missing * 100 > 30 * rows)
  {
    if rows == 0 then None
    else
      Arith.DivPositive(missing as real, rows as real);
      Arith.DivCompare(missing as real, rows as real, 0.3);
      Some(missing as real / rows as real * 100.0)
  }

  function ColumnReport(bars: seq<Bar>, f: Field): (r: ColumnMissing)
    ensures r.field == f && r.missing == Validation.NanCount(bars, f)
    ensures r.percent == MissingPercent(r.missing, |bars|)
    ensures r.reported <==> r.percent.Some? && r.percent.value > 0.0
    ensures r.overTolerance <==> r.percent.Some? && r.percent.value > Config.GapTolerancePercent
  {
    var n := Validation.NanCount(bars, f);
    var p := MissingPercent(n, |bars|);
    var reported := p.Some? && p.value > 0.0;
    ColumnMissing(f, n, p, reported, reported && p.value > Config.GapTolerancePercent)
  }

  function AnalyzeMissingData(f: Frame): (r: seq<ColumnMissing>)
    ensures |r| == |ExistingFields(f.cols)|
    ensures forall i :: 0 <= i < |r| ==> r[i] == ColumnReport(f.bars, ExistingFields(f.cols)[i])
  {
    var fields := ExistingFields(f.cols);
    seq(|fields|, i requires 0 <= i < |fields| => ColumnReport(f.bars, fields[i]))
  }

  /** The tolerance warning fires exactly when more than 30% of a column is missing:
      exactly 30% proceeds silently, 31% warns. */
  lemma ToleranceBoundary(bars: seq<Bar>, f: Field)
    requires |bars| > 0
    ensures ColumnReport(bars, f).overTolerance <==> Validation.NanCount(bars, f) * 100 > 30 * |bars|
    ensures Validation.NanCount(bars, f) * 10 == 3 * |bars| ==> !ColumnReport(bars, f).overTolerance
    ensures Validation.NanCount(bars, f) * 100 == 31 * |bars| ==> ColumnReport(bars, f).overTolerance
  {
  }
}
