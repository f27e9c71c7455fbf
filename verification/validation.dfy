/**
 `_validate_ohlc` of shared/data_module.py. It raises only when an OHLCV column
 is absent; otherwise it counts rule violations (which the code logs) and
 never changes the data. NaN entries never count as violations, because pandas
 comparisons with NaN are false.
 */
module Validation {
  import opened Outcomes
  import opened Bars
  import Seqs
  import Repair

  /** One count per OHLCV column. */
  datatype FieldCounts = FieldCounts(open: nat, high: nat, low: nat, close: nat, volume: nat) {
    function Get(f: Field): nat {
      match f
      case Open => open
      case High => high
      case Low => low
      case Close => close
      case Volume => volume
    }
  }

  datatype ValidationReport = ValidationReport(
    nanCounts: FieldCounts,
    highBelowLow: nat,
    highBelowOpenOrClose: nat,
    lowAboveOpenOrClose: nat,
    nonPositive: FieldCounts    // the volume entry is always 0: only prices are checked
  )

  predicate HighBelowLow(b: Bar) {
    Below(b.highPx, b.lowPx)
  }

  predicate HighBelowOpenOrClose(b: Bar) {
    Below(b.highPx, b.openPx) || Below(b.highPx, b.closePx)
  }

  predicate LowAboveOpenOrClose(b: Bar) {
    Below(b.openPx, b.lowPx) || Below(b.closePx, b.lowPx)
  }

  predicate NonPositive(b: Bar, f: Field) {
    Value(b, f).Some? && Value(b, f).value <= 0.0
  }

  function NanCount(bars: seq<Bar>, f: Field): (n: nat)
    ensures n <= |bars|
    ensures n == 0 <==> forall i :: 0 <= i < |bars| ==> Value(bars[i], f).Some?
  {
    Seqs.Count(bars, b => Value(b, f).None?)
  }

  function NonPositiveCount(bars: seq<Bar>, f: Field): (n: nat)
    ensures n <= |bars|
    ensures n == 0 <==> forall i :: 0 <= i < |bars| ==> !NonPositive(bars[i], f)
  {
    Seqs.Count(bars, b => NonPositive(b, f))
  }

  function CountsBy(g: Field -> nat): (r: FieldCounts)
    ensures forall fld: Field :: r.Get(fld) == g(fld)
  {
    FieldCounts(g(Open), g(High), g(Low), g(Close), g(Volume))
  }

  /** `df[required_cols].isna().sum()`. */
  function NanCounts(bars: seq<Bar>): (r: FieldCounts)
    ensures forall fld: Field :: r.Get(fld) == NanCount(bars, fld)
  {
    CountsBy(fld => NanCount(bars, fld))
  }

  /** `(df[col] <= 0).sum()` for each price column. */
  function NonPositiveCounts(bars: seq<Bar>): (r: FieldCounts)
    ensures forall fld: Field :: fld != Volume ==> r.Get(fld) == NonPositiveCount(bars, fld)
    ensures r.volume == 0
  {
    CountsBy(fld => if fld == Volume then 0 else NonPositiveCount(bars, fld))
  }

  function Validate(f: Frame): (r: Result<ValidationReport>)
    ensures r.Err? <==> !(AllFields <= f.cols)
    ensures r.Err? ==> r.error == MissingColumns(MissingColumnNames(f.cols)) && |r.error.columns| > 0
    ensures r.Ok? ==> r.value.nanCounts == NanCounts(f.bars) && r.value.nonPositive == NonPositiveCounts(f.bars)
    ensures r.Ok? ==> (r.value.highBelowLow == 0 <==> (forall i :: 0 <= i < |f.bars| ==> !HighBelowLow(f.bars[i])))
    ensures r.Ok? ==> (r.value.highBelowOpenOrClose == 0 <==>
      (forall i :: 0 <= i < |f.bars| ==> !HighBelowOpenOrClose(f.bars[i])))
    ensures r.Ok? ==> (r.value.lowAboveOpenOrClose == 0 <==>
      (forall i :: 0 <= i < |f.bars| ==> !LowAboveOpenOrClose(f.bars[i])))
    ensures r.Ok? ==> (r.value.highBelowLow <= |f.bars| && r.value.highBelowOpenOrClose <= |f.bars| &&
      r.value.lowAboveOpenOrClose <= |f.bars|)
  {
    if !(AllFields <= f.cols) then Err(MissingColumns(MissingColumnNames(f.cols)))
    else
      Ok(ValidationReport(
        NanCounts(f.bars),
        Seqs.Count(f.bars, HighBelowLow),
        Seqs.Count(f.bars, HighBelowOpenOrClose),
        Seqs.Count(f.bars, LowAboveOpenOrClose),
        NonPositiveCounts(f.bars)))
  }

  /** On the output of the repair, no row has high below open or close, no row has
      low above open or close, and no row that has an open or a close has high below low. */
  lemma ValidateAfterRepair(f: Frame)
    requires AllFields <= f.cols
    ensures Repair.EnforceConsistency(f).Ok?
    ensures var v := Validate(Repair.EnforceConsistency(f).value);
      v.Ok? && v.value.highBelowOpenOrClose == 0 && v.value.lowAboveOpenOrClose == 0
    ensures (forall i :: 0 <= i < |f.bars| ==> f.bars[i].openPx.Some? || f.bars[i].closePx.Some?) ==>
      Validate(Repair.EnforceConsistency(f).value).value.highBelowLow == 0
  {
    var g := Repair.EnforceConsistency(f).value;
    forall i | 0 <= i < |g.bars|
      ensures !HighBelowOpenOrClose(g.bars[i]) && !LowAboveOpenOrClose(g.bars[i])
      ensures f.bars[i].openPx.Some? || f.bars[i].closePx.Some? ==> !HighBelowLow(g.bars[i])
    {
      assert g.bars[i] == Repair.RepairBar(f.bars[i], true);
    }
  }

  /** A row with NaN open and close and high below low is still flagged after the repair. */
  lemma RepairDoesNotFixHighBelowLowWithoutOpenClose()
    ensures
      var b := Bar(0, Label(Date(2024, 1, 1), 0, 0), None, Some(1.0), Some(2.0), None, Some(10.0), map[]);
      var f := Frame(AllFields, Some("UTC"), [b]);
      Repair.EnforceConsistency(f).Ok? &&
      Validate(Repair.EnforceConsistency(f).value).Ok? &&
      Validate(Repair.EnforceConsistency(f).value).value.highBelowLow == 1
  {
    var b := Bar(0, Label(Date(2024, 1, 1), 0, 0), None, Some(1.0), Some(2.0), None, Some(10.0), map[]);
    var f := Frame(AllFields, Some("UTC"), [b]);
    var g := Repair.EnforceConsistency(f).value;
    assert g.bars[0] == Repair.RepairBar(b, true);
    assert g.bars == [b];
    assert Seqs.Count(g.bars, HighBelowLow) == 1 by {
      assert g.bars[1..] == [];
    }
  }
}
