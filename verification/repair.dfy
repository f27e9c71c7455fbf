/**
 `_enforce_ohlc_consistency` of shared/data_module.py: raise `high` to the
 largest of high/open/close, lower `low` to the smallest of low/open/close
 (both skipping NaN, as pandas row-wise max/min do) and clip volume at zero.
 */
module Repair {
  import opened Outcomes
  import opened Bars

  function MaxReal(x: real, y: real): real {
    if x >= y then x else y
  }

  function MinReal(x: real, y: real): real {
    if x <= y then x else y
  }

  /** Larger present value of two; NaN only when both are NaN. */
  function MaxPresent2(a: Option<real>, b: Option<real>): (r: Option<real>)
    ensures r.Some? <==> a.Some? || b.Some?
    ensures r.Some? ==> r == a || r == b
    ensures !Below(r, a) && !Below(r, b)
  {
    if a.None? then b else if b.None? then a else Some(MaxReal(a.value, b.value))
  }

  function MinPresent2(a: Option<real>, b: Option<real>): (r: Option<real>)
    ensures r.Some? <==> a.Some? || b.Some?
    ensures r.Some? ==> r == a || r == b
    ensures !Below(a, r) && !Below(b, r)
  {
    if a.None? then b else if b.None? then a else Some(MinReal(a.value, b.value))
  }

  /** `df[[x, y, z]].max(axis=1)` for one row. */
  function MaxPresent(a: Option<real>, b: Option<real>, c: Option<real>): (r: Option<real>)
    ensures r.Some? <==> a.Some? || b.Some? || c.Some?
    ensures r.Some? ==> r == a || r == b || r == c
    ensures !Below(r, a) && !Below(r, b) && !Below(r, c)
  {
    MaxPresent2(MaxPresent2(a, b), c)
  }

  /** `df[[x, y, z]].min(axis=1)` for one row. */
  function MinPresent(a: Option<real>, b: Option<real>, c: Option<real>): (r: Option<real>)
    ensures r.Some? <==> a.Some? || b.Some? || c.Some?
    ensures r.Some? ==> r == a || r == b || r == c
    ensures !Below(a, r) && !Below(b, r) && !Below(c, r)
  {
    MinPresent2(MinPresent2(a, b), c)
  }

  /** `Series.clip(lower=0)` on one entry: NaN stays NaN. */
  function ClipAtZero(v: Option<real>): (r: Option<real>)
    ensures r.Some? <==> v.Some?
    ensures r.Some? ==> r.value >= 0.0
    ensures v.Some? && v.value >= 0.0 ==> r == v
  {
    if v.Some? && v.value < 0.0 then Some(0.0) else v
  }

  /** A row that the repair leaves alone: high is present and not below open or
      close whenever one of those is present, low likewise, and (when the
      volume column exists) volume is not negative. */
  predicate Repaired(b: Bar, clipVolume: bool) {
    && !Below(b.highPx, b.openPx) && !Below(b.highPx, b.closePx)
    && (b.highPx.None? ==> b.openPx.None? && b.closePx.None?)
    && !Below(b.openPx, b.lowPx) && !Below(b.closePx, b.lowPx)
    && (b.lowPx.None? ==> b.openPx.None? && b.closePx.None?)
    && (clipVolume ==> !Below(b.volume, Some(0.0)))
  }

  /** One row of `_enforce_ohlc_consistency`; `clipVolume` says whether the frame has a volume column. */
  function RepairBar(b: Bar, clipVolume: bool): (r: Bar)
    ensures r.openPx == b.openPx && r.closePx == b.closePx
    ensures r.instant == b.instant && r.local == b.local && r.other == b.other
    ensures clipVolume ==> r.volume.Some? ==> r.volume.value >= 0.0
    ensures !clipVolume ==> r.volume == b.volume
    ensures r.highPx.Some? <==> b.highPx.Some? || b.openPx.Some? || b.closePx.Some?
    ensures r.lowPx.Some? <==> b.lowPx.Some? || b.openPx.Some? || b.closePx.Some?
    ensures r.highPx.Some? ==> r.highPx == b.highPx || r.highPx == b.openPx || r.highPx == b.closePx
    ensures r.lowPx.Some? ==> r.lowPx == b.lowPx || r.lowPx == b.openPx || r.lowPx == b.closePx
    ensures r.highPx.Some? ==> !Below(r.highPx, b.highPx)
    ensures r.lowPx.Some? ==> !Below(b.lowPx, r.lowPx)
    ensures Repaired(r, clipVolume)
    ensures b.openPx.Some? || b.closePx.Some? ==> r.highPx.Some? && r.lowPx.Some? && r.lowPx.value <= r.highPx.value
  {
    b.(highPx := MaxPresent(b.highPx, b.openPx, b.closePx),
       lowPx := MinPresent(b.lowPx, b.openPx, b.closePx),
       volume := if clipVolume then ClipAtZero(b.volume) else b.volume)
  }

  /** The repair changes a row exactly when the row is not already consistent. */
  lemma RepairFixesExactlyInconsistent(b: Bar, clipVolume: bool)
    ensures RepairBar(b, clipVolume) == b <==> Repaired(b, clipVolume)
  {
    var r := RepairBar(b, clipVolume);
    if Repaired(b, clipVolume) {
      assert r.highPx == b.highPx;
      assert r.lowPx == b.lowPx;
      assert r.volume == b.volume;
    }
  }

  lemma RepairIdempotent(b: Bar, clipVolume: bool)
    ensures RepairBar(RepairBar(b, clipVolume), clipVolume) == RepairBar(b, clipVolume)
  {
    RepairFixesExactlyInconsistent(RepairBar(b, clipVolume), clipVolume);
  }

  /** Rows with both open and close NaN keep their high and low: a High < Low row of that kind survives the repair. */
  lemma RepairKeepsHighBelowLowWithoutOpenClose(b: Bar, clipVolume: bool)
    requires b.openPx.None? && b.closePx.None?
    ensures RepairBar(b, clipVolume).highPx == b.highPx && RepairBar(b, clipVolume).lowPx == b.lowPx
    ensures Below(b.highPx, b.lowPx) ==> Below(RepairBar(b, clipVolume).highPx, RepairBar(b, clipVolume).lowPx)
  {
  }

  const PriceSelectHigh: seq<Field> := [High, Open, Close]

  function AbsentNames(fields: seq<Field>, cols: set<Field>): (r: seq<string>)
    ensures |r| == 0 <==> forall i :: 0 <= i < |fields| ==> fields[i] in cols
  {
    if |fields| == 0 then []
    else (if fields[0] in cols then [] else [fields[0].Name()]) + AbsentNames(fields[1..], cols)
  }

  /** `_enforce_ohlc_consistency` on a frame. Selecting `['high', 'open', 'close']`
      and then `['low', 'open', 'close']` raises a KeyError when one of them is absent. */
  function EnforceConsistency(f: Frame): (r: Result<Frame>)
    ensures r.Ok? <==> {Open, High, Low, Close} <= f.cols
    ensures r.Err? ==> r.error.ColumnNotFound? && |r.error.columns| > 0
    ensures r.Ok? ==> r.value.cols == f.cols && r.value.zone == f.zone && |r.value.bars| == |f.bars|
    ensures r.Ok? ==> forall i :: 0 <= i < |f.bars| ==>
      r.value.bars[i] == RepairBar(f.bars[i], Volume in f.cols)
    ensures r.Ok? ==> forall i :: 0 <= i < |f.bars| ==>
      Repaired(r.value.bars[i], Volume in f.cols) &&
      r.value.bars[i].openPx == f.bars[i].openPx && r.value.bars[i].closePx == f.bars[i].closePx
  {
    var first := AbsentNames(PriceSelectHigh, f.cols);
    if |first| > 0 then Err(ColumnNotFound(first))
    else if Low !in f.cols then Err(ColumnNotFound(["low"]))
    else
      assert PriceSelectHigh[0] in f.cols && PriceSelectHigh[1] in f.cols && PriceSelectHigh[2] in f.cols;
      Ok(RepairAll(f))
  }

  function RepairAll(f: Frame): (r: Frame)
    ensures r.cols == f.cols && r.zone == f.zone && |r.bars| == |f.bars|
    ensures forall i :: 0 <= i < |f.bars| ==> r.bars[i] == RepairBar(f.bars[i], Volume in f.cols)
  {
    Frame(f.cols, f.zone, seq(|f.bars|, i requires 0 <= i < |f.bars| => RepairBar(f.bars[i], Volume in f.cols)))
  }

  /** Repair keeps rows with every value present complete. */
  lemma RepairKeepsComplete(f: Frame)
    requires {Open, High, Low, Close} <= f.cols
    requires Complete(f.cols, f.bars)
    ensures Complete(f.cols, EnforceConsistency(f).value.bars)
  {
    var g := EnforceConsistency(f).value;
    forall i, fld | 0 <= i < |g.bars| && fld in f.cols ensures Value(g.bars[i], fld).Some? {
      assert Value(f.bars[i], fld).Some?;
      assert f.bars[i].openPx.Some?;
    }
  }
}
