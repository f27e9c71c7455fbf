/**
 `_clean_data` of shared/data_module.py. A frame without NaN in its OHLCV
 columns is returned as it is. Otherwise the OHLCV columns are standardised,
 imputed (multiple imputation by chained equations, or forward-then-backward
 fill when that is unavailable), brought back to their scale, repaired by
 `_enforce_ohlc_consistency`, and the other columns are carried over.

 Standardising and reversing it is the identity on present values, and the
 imputer only writes the missing cells, so the model takes each missing cell
 from the imputer's output and keeps every present cell.
 */
module Cleaning {
  import opened Outcomes
  import opened Bars
  import Validation
  import Repair

  /** `df[existing_cols].isna().sum().sum()` over the columns `fields`. */
  function MissingIn(bars: seq<Bar>, fields: seq<Field>): (n: nat)
    ensures n == 0 <==> forall i, g :: 0 <= i < |bars| && g in fields ==> Value(bars[i], g).Some?
  {
    if |fields| == 0 then 0
    else
      var head := Validation.NanCount(bars, fields[0]);
      var rest := MissingIn(bars, fields[1..]);
      assert head + rest == 0 ==> forall i, g :: 0 <= i < |bars| && g in fields ==> Value(bars[i], g).Some? by {
        if head + rest == 0 {
          forall i, g | 0 <= i < |bars| && g in fields ensures Value(bars[i], g).Some? {
            if g != fields[0] {
              assert g in fields[1..];
            }
          }
        }
      }
      assert head + rest != 0 ==> exists i, g :: 0 <= i < |bars| && g in fields && Value(bars[i], g).None? by {
        if head != 0 {
          var i :| 0 <= i < |bars| && Value(bars[i], fields[0]).None?;
          assert fields[0] in fields;
        } else if rest != 0 {
          var i, g :| 0 <= i < |bars| && g in fields[1..] && Value(bars[i], g).None?;
          assert g in fields;
        }
      }
      head + rest
  }

  function TotalMissing(f: Frame): (n: nat)
    ensures n == 0 <==> Complete(f.cols, f.bars)
  {
    var fields := ExistingFields(f.cols);
    SameFieldsComplete(f.bars, fields, f.cols);
    MissingIn(f.bars, fields)
  }

  lemma SameFieldsComplete(bars: seq<Bar>, fields: seq<Field>, cols: set<Field>)
    requires forall g :: g in fields <==> g in cols
    ensures (forall i, g :: 0 <= i < |bars| && g in fields ==> Value(bars[i], g).Some?) <==> Complete(cols, bars)
  {
  }

  // ---------------------------------------------------------------------------
  // Forward and backward fill (`fillna(method='ffill').fillna(method='bfill')`)
  // ---------------------------------------------------------------------------

  /** The last present value at or before entry `i`. */
  function LastPresent(col: seq<Option<real>>, i: nat): (r: Option<real>)
    requires i < |col|
    ensures r.None? <==> forall j :: 0 <= j <= i ==> col[j].None?
    ensures r.Some? ==> exists j :: 0 <= j <= i && col[j] == r
    ensures col[i].Some? ==> r == col[i]
  {
    if col[i].Some? then col[i]
    else if i == 0 then None
    else LastPresent(col, i - 1)
  }

  /** The first present value at or after entry `i`. */
  function NextPresent(col: seq<Option<real>>, i: nat): (r: Option<real>)
    requires i <= |col|
    ensures r.None? <==> forall j :: i <= j < |col| ==> col[j].None?
    ensures r.Some? ==> exists j :: i <= j < |col| && col[j] == r
    ensures i < |col| && col[i].Some? ==> r == col[i]
    decreases |col| - i
  {
    if i == |col| then None
    else if col[i].Some? then col[i]
    else NextPresent(col, i + 1)
  }

  /** `fillna(method='ffill')`: each NaN takes the nearest present value above it. */
  function FillForward(col: seq<Option<real>>): (r: seq<Option<real>>)
    ensures |r| == |col|
    ensures forall i :: 0 <= i < |col| && col[i].Some? ==> r[i] == col[i]
    ensures forall i :: 0 <= i < |col| ==> (r[i].None? <==> forall j :: 0 <= j <= i ==> col[j].None?)
    ensures forall i :: 0 <= i < |col| && r[i].Some? ==> r[i] in col
  {
    seq(|col|, i requires 0 <= i < |col| => LastPresent(col, i))
  }

  /** `fillna(method='bfill')`: each NaN takes the nearest present value below it. */
  function FillBackward(col: seq<Option<real>>): (r: seq<Option<real>>)
    ensures |r| == |col|
    ensures forall i :: 0 <= i < |col| && col[i].Some? ==> r[i] == col[i]
    ensures forall i :: 0 <= i < |col| ==> (r[i].None? <==> forall j :: i <= j < |col| ==> col[j].None?)
    ensures forall i :: 0 <= i < |col| && r[i].Some? ==> r[i] in col
  {
    seq(|col|, i requires 0 <= i < |col| => NextPresent(col, i))
  }

  function FillNeighbours(col: seq<Option<real>>): (r: seq<Option<real>>)
    ensures |r| == |col|
    ensures forall i :: 0 <= i < |col| && col[i].Some? ==> r[i] == col[i]
    ensures forall i :: 0 <= i < |col| && r[i].Some? ==> r[i] in col
  {
    FillBackward(FillForward(col))
  }

  /** After the two fills a column is free of NaN exactly when it had a present value (or no rows). */
  lemma {:induction false} FillNeighboursCompletes(col: seq<Option<real>>)
    ensures (forall i :: 0 <= i < |col| ==> FillNeighbours(col)[i].Some?) <==>
            (|col| == 0 || exists j :: 0 <= j < |col| && col[j].Some?)
  {
    var fwd := FillForward(col);
    var r := FillBackward(fwd);
    assert FillNeighbours(col) == r;
    if exists j :: 0 <= j < |col| && col[j].Some? {
      var j :| 0 <= j < |col| && col[j].Some?;
      forall i | 0 <= i < |col| ensures r[i].Some? {
        if i <= j {
          assert fwd[j].Some?;
        } else {
          assert fwd[i].Some?;
        }
      }
    } else if |col| > 0 {
      assert forall j :: 0 <= j < |fwd| ==> fwd[j].None?;
      assert r[0].None?;
    }
  }

  function Column(bars: seq<Bar>, f: Field): (r: seq<Option<real>>)
    ensures |r| == |bars|
    ensures forall i :: 0 <= i < |bars| ==> r[i] == Value(bars[i], f)
  {
    seq(|bars|, i requires 0 <= i < |bars| => Value(bars[i], f))
  }

  /** A row with the OHLCV columns in `cols` replaced by `v`. */
  function WithRow(b: Bar, cols: set<Field>, v: Field -> Option<real>): (r: Bar)
    ensures forall g :: Value(r, g) == if g in cols then v(g) else Value(b, g)
    ensures r.instant == b.instant && r.local == b.local && r.other == b.other
  {
    b.(openPx := if Open in cols then v(Open) else b.openPx,
       highPx := if High in cols then v(High) else b.highPx,
       lowPx := if Low in cols then v(Low) else b.lowPx,
       closePx := if Close in cols then v(Close) else b.closePx,
       volume := if Volume in cols then v(Volume) else b.volume)
  }

  /** The fallback imputation: every existing column forward- then backward-filled. */
  function FillByNeighbours(cols: set<Field>, bars: seq<Bar>): (r: seq<Bar>)
    ensures |r| == |bars|
    ensures forall g :: g in cols ==> Column(r, g) == FillNeighbours(Column(bars, g))
  {
    seq(|bars|, i requires 0 <= i < |bars| =>
      WithRow(bars[i], cols, g => FillNeighbours(Column(bars, g))[i]))
  }

  // ---------------------------------------------------------------------------
  // _clean_data
  // ---------------------------------------------------------------------------

  /** A multiple-imputation engine: from the OHLCV columns present and the rows
      to a table of the same shape. Its internals are not modelled. */
  type Imputer = (set<Field>, seq<Bar>) -> seq<Bar>

  /** Which imputation `_clean_data` gets to use. */
  datatype Imputation =
    | Mice(impute: Imputer)
    | NeighbourFill    // the import of the imputer failed

  function Impute(how: Imputation, cols: set<Field>, bars: seq<Bar>): seq<Bar> {
    match how
    case Mice(impute) => impute(cols, bars)
    case NeighbourFill => FillByNeighbours(cols, bars)
  }

  /** A row with its present cells kept and its missing cells taken from `fill`. */
  function MergeRow(cols: set<Field>, b: Bar, fill: Bar): (r: Bar)
    ensures r.instant == b.instant && r.local == b.local && r.other == b.other
    ensures forall g :: Value(r, g) == if g in cols && Value(b, g).None? then Value(fill, g) else Value(b, g)
  {
    WithRow(b, cols, g => if Value(b, g).Some? then Value(b, g) else Value(fill, g))
  }

  function Merge(cols: set<Field>, bars: seq<Bar>, filled: seq<Bar>): (r: seq<Bar>)
    requires |filled| == |bars|
    ensures |r| == |bars|
    ensures forall i :: 0 <= i < |bars| ==> r[i] == MergeRow(cols, bars[i], filled[i])
  {
    seq(|bars|, i requires 0 <= i < |bars| => MergeRow(cols, bars[i], filled[i]))
  }

  /** Steps 3 and 4: the imputed values written back, then `_enforce_ohlc_consistency`. */
  function RepairImputed(f: Frame, filled: seq<Bar>): (r: Result<Frame>)
    requires |filled| == |f.bars|
    ensures r.Ok? <==> {Open, High, Low, Close} <= f.cols
    ensures r.Ok? ==> r.value.cols == f.cols && r.value.zone == f.zone && |r.value.bars| == |f.bars|
    ensures r.Ok? ==> forall i :: 0 <= i < |f.bars| ==>
      r.value.bars[i] == Repair.RepairBar(MergeRow(f.cols, f.bars[i], filled[i]), Volume in f.cols)
    ensures r.Ok? ==> forall i :: 0 <= i < |f.bars| ==>
      r.value.bars[i].instant == f.bars[i].instant && r.value.bars[i].local == f.bars[i].local &&
      r.value.bars[i].other == f.bars[i].other && Repair.Repaired(r.value.bars[i], Volume in f.cols)
  {
    var r := Repair.EnforceConsistency(Frame(f.cols, f.zone, Merge(f.cols, f.bars, filled)));
    assert r.Ok? ==> forall i :: 0 <= i < |f.bars| ==>
      r.value.bars[i].instant == f.bars[i].instant && r.value.bars[i].local == f.bars[i].local &&
      r.value.bars[i].other == f.bars[i].other by {
      if r.Ok? {
        forall i | 0 <= i < |f.bars| ensures
          r.value.bars[i].instant == f.bars[i].instant && r.value.bars[i].local == f.bars[i].local &&
          r.value.bars[i].other == f.bars[i].other
        {
          var m := MergeRow(f.cols, f.bars[i], filled[i]);
          assert r.value.bars[i] == Repair.RepairBar(m, Volume in f.cols);
        }
      }
    }
    r
  }

  function CleanData(f: Frame, how: Imputation): (r: Result<Frame>)
    ensures TotalMissing(f) == 0 ==> r == Ok(f)
    ensures r.Err? <==> (TotalMissing(f) > 0 &&
      (|Impute(how, f.cols, f.bars)| != |f.bars| || !({Open, High, Low, Close} <= f.cols)))
    ensures r.Err? ==> r.error == ShapeMismatch || r.error.ColumnNotFound?
    ensures r.Err? && {Open, High, Low, Close} <= f.cols ==> r.error == ShapeMismatch
    ensures r.Ok? ==> r.value.cols == f.cols && r.value.zone == f.zone && |r.value.bars| == |f.bars|
    ensures r.Ok? ==> forall i :: 0 <= i < |f.bars| ==>
      r.value.bars[i].instant == f.bars[i].instant && r.value.bars[i].local == f.bars[i].local &&
      r.value.bars[i].other == f.bars[i].other
    ensures r.Ok? && TotalMissing(f) > 0 ==> forall i :: 0 <= i < |f.bars| ==>
      Repair.Repaired(r.value.bars[i], Volume in f.cols)
  {
    if TotalMissing(f) == 0 then Ok(f)
    else
      var filled := Impute(how, f.cols, f.bars);
      if |filled| != |f.bars| then Err(ShapeMismatch)
      else RepairImputed(f, filled)
  }

  /** What the installed scikit-learn lets `_clean_data` reach. */
  datatype Sklearn =
    | Absent                    // the `StandardScaler` import, before the `try`, fails
    | WithoutIterativeImputer   // a release before the iterative imputer: the imports inside the `try` fail
    | WithIterativeImputer      // both imports inside the `try` succeed

  /** `_clean_data` as the code stands. The imported module `enable_iterative_imputer`
      is then called as if it were a function, which raises TypeError; the
      `except ImportError` does not catch it, so the imputer is never reached and
      only a release without the iterative imputer gets to the fill fallback. */
  function CleanDataAsWritten(f: Frame, sk: Sklearn): (r: Result<Frame>)
    ensures TotalMissing(f) == 0 ==> r == Ok(f)
    ensures TotalMissing(f) > 0 && sk == WithIterativeImputer ==> r == Err(NotCallable)
    ensures TotalMissing(f) > 0 && sk == Absent ==> r == Err(ModuleMissing)
    ensures sk == WithoutIterativeImputer ==> r == CleanData(f, NeighbourFill)
    ensures r.Ok? ==> r == CleanData(f, NeighbourFill)
  {
    if TotalMissing(f) == 0 then Ok(f)
    else
      match sk
      case Absent => Err(ModuleMissing)
      case WithIterativeImputer => Err(NotCallable)
      case WithoutIterativeImputer => CleanData(f, NeighbourFill)
  }

  /** The fill fallback never changes the length, so it fails only on a missing price column. */
  lemma NeighbourFillSucceeds(f: Frame)
    requires {Open, High, Low, Close} <= f.cols
    ensures CleanData(f, NeighbourFill).Ok?
  {
    assert |Impute(NeighbourFill, f.cols, f.bars)| == |f.bars|;
  }

  /** A Tuesday-noon row whose close is missing. */
  function MissingCloseBar(): Bar {
    Bar(0, Label(Date(2024, 1, 2), 1, 43200), Some(2.0), Some(3.0), Some(1.0), None, Some(10.0), map[])
  }

  /** An imputer that writes `c` into every OHLCV cell it is given. */
  function FillWith(c: real): Imputer {
    (cols: set<Field>, bars: seq<Bar>) =>
      seq(|bars|, i requires 0 <= i < |bars| => WithRow(bars[i], cols, g => Some(c)))
  }

  /** One missing close: the cleaning imputes it and returns a complete row, while
      the code as written raises TypeError once the iterative imputer is installed. */
  lemma InstalledImputerRaisesAsWritten()
    ensures var f := Frame(AllFields, Some("UTC"), [MissingCloseBar()]);
      && CleanDataAsWritten(f, WithIterativeImputer) == Err(NotCallable)
      && CleanData(f, Mice(FillWith(1.0))).Ok?
      && Complete(f.cols, CleanData(f, Mice(FillWith(1.0))).value.bars)
  {
    var f := Frame(AllFields, Some("UTC"), [MissingCloseBar()]);
    assert !Complete(f.cols, f.bars) by {
      assert Value(f.bars[0], Close).None?;
    }
    var filled := Impute(Mice(FillWith(1.0)), f.cols, f.bars);
    assert forall i, g :: 0 <= i < |f.bars| && g in f.cols ==> Value(filled[i], g).Some?;
    CleanCompletesWhenImputerFills(f, Mice(FillWith(1.0)));
  }

  /** Writing back values that cover every missing cell, then repairing, leaves no NaN. */
  lemma RepairImputedCompletes(f: Frame, filled: seq<Bar>)
    requires {Open, High, Low, Close} <= f.cols
    requires |filled| == |f.bars|
    requires forall i, g :: 0 <= i < |f.bars| && g in f.cols && Value(f.bars[i], g).None? ==> Value(filled[i], g).Some?
    ensures RepairImputed(f, filled).Ok?
    ensures Complete(f.cols, RepairImputed(f, filled).value.bars)
  {
    var merged := Frame(f.cols, f.zone, Merge(f.cols, f.bars, filled));
    forall i, g | 0 <= i < |f.bars| && g in f.cols ensures Value(merged.bars[i], g).Some? {
      assert merged.bars[i] == MergeRow(f.cols, f.bars[i], filled[i]);
    }
    Repair.RepairKeepsComplete(merged);
  }

  /** When imputation runs and the imputer fills every cell it was asked for, the cleaned table has no NaN. */
  lemma CleanCompletesWhenImputerFills(f: Frame, how: Imputation)
    requires {Open, High, Low, Close} <= f.cols
    requires |Impute(how, f.cols, f.bars)| == |f.bars|
    requires forall i, g :: 0 <= i < |f.bars| && g in f.cols && Value(f.bars[i], g).None? ==>
      Value(Impute(how, f.cols, f.bars)[i], g).Some?
    ensures CleanData(f, how).Ok?
    ensures Complete(f.cols, CleanData(f, how).value.bars)
  {
    if TotalMissing(f) > 0 {
      RepairImputedCompletes(f, Impute(how, f.cols, f.bars));
    }
  }

  /** Once imputation runs, the result is the imputed table written back and repaired. */
  lemma CleanDataImputes(f: Frame, how: Imputation)
    requires TotalMissing(f) > 0 && |Impute(how, f.cols, f.bars)| == |f.bars|
    ensures CleanData(f, how) == RepairImputed(f, Impute(how, f.cols, f.bars))
  {
  }

  /** The fill fallback fills a column with a present value completely. */
  lemma FillByNeighboursFills(cols: set<Field>, bars: seq<Bar>, g: Field)
    requires g in cols
    requires exists j :: 0 <= j < |bars| && Value(bars[j], g).Some?
    ensures forall i :: 0 <= i < |bars| ==> Value(FillByNeighbours(cols, bars)[i], g).Some?
  {
    var filled := FillByNeighbours(cols, bars);
    var col := Column(bars, g);
    var j :| 0 <= j < |bars| && Value(bars[j], g).Some?;
    assert col[j].Some?;
    FillNeighboursCompletes(col);
    forall i | 0 <= i < |bars| ensures Value(filled[i], g).Some? {
      assert Column(filled, g)[i] == Value(filled[i], g);
    }
  }

  /** The fill fallback leaves a column without a present value all NaN. */
  lemma FillByNeighboursKeepsEmpty(cols: set<Field>, bars: seq<Bar>, g: Field)
    requires g in cols
    requires forall i :: 0 <= i < |bars| ==> Value(bars[i], g).None?
    ensures forall i :: 0 <= i < |bars| ==> Value(FillByNeighbours(cols, bars)[i], g).None?
  {
    var filled := FillByNeighbours(cols, bars);
    var col := Column(bars, g);
    forall i | 0 <= i < |bars| ensures Value(filled[i], g).None? {
      var v := FillNeighbours(col)[i];
      assert Column(filled, g)[i] == Value(filled[i], g);
    }
  }

  /** With the fill fallback, the cleaned table has no NaN when each OHLCV
      column that exists has at least one present value. */
  lemma NeighbourFillCompletes(f: Frame)
    requires {Open, High, Low, Close} <= f.cols
    requires forall g :: g in f.cols ==> exists i :: 0 <= i < |f.bars| && Value(f.bars[i], g).Some?
    ensures CleanData(f, NeighbourFill).Ok?
    ensures Complete(f.cols, CleanData(f, NeighbourFill).value.bars)
  {
    forall g | g in f.cols
      ensures forall i :: 0 <= i < |f.bars| ==> Value(FillByNeighbours(f.cols, f.bars)[i], g).Some?
    {
      FillByNeighboursFills(f.cols, f.bars, g);
    }
    CleanCompletesWhenImputerFills(f, NeighbourFill);
  }

  /** The repair leaves NaN in open, close and volume where the written-back values have NaN. */
  lemma RepairImputedKeepsNan(f: Frame, filled: seq<Bar>, g: Field)
    requires |filled| == |f.bars| && g != High && g != Low
    requires forall i :: 0 <= i < |f.bars| ==> Value(f.bars[i], g).None? && Value(filled[i], g).None?
    ensures RepairImputed(f, filled).Ok? ==>
      forall i :: 0 <= i < |f.bars| ==> Value(RepairImputed(f, filled).value.bars[i], g).None?
  {
    var r := RepairImputed(f, filled);
    if r.Ok? {
      forall i | 0 <= i < |f.bars| ensures Value(r.value.bars[i], g).None? {
        var m := MergeRow(f.cols, f.bars[i], filled[i]);
        assert Value(m, g).None?;
        assert r.value.bars[i] == Repair.RepairBar(m, Volume in f.cols);
      }
    }
  }

  /** A column with no present value stays entirely NaN under the fill fallback. */
  lemma NeighbourFillKeepsEmptyColumn(f: Frame, g: Field)
    requires g in f.cols && g != High && g != Low
    requires forall i :: 0 <= i < |f.bars| ==> Value(f.bars[i], g).None?
    ensures CleanData(f, NeighbourFill).Ok? ==>
      forall i :: 0 <= i < |f.bars| ==> Value(CleanData(f, NeighbourFill).value.bars[i], g).None?
  {
    if |f.bars| > 0 {
      assert !Complete(f.cols, f.bars) by {
        assert Value(f.bars[0], g).None?;
      }
      var filled := FillByNeighbours(f.cols, f.bars);
      assert Impute(NeighbourFill, f.cols, f.bars) == filled;
      FillByNeighboursKeepsEmpty(f.cols, f.bars, g);
      RepairImputedKeepsNan(f, filled, g);
      CleanDataImputes(f, NeighbourFill);
    }
  }
}
