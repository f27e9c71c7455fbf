/**
 `_analyze_gaps` of shared/data_module.py: compares the number of rows with the
 number a continuous series would have between the first and the last row.
 The expected count is `span / interval + 1` and is not rounded.
 */
module Gaps {
  import opened Outcomes
  import opened Bars
  import Config
  import Arith

  /** `freq_map.get(timeframe.lower())`: bar length in minutes. */
  function IntervalMinutes(timeframe: string): (r: Option<nat>)
    ensures r.Some? <==> Config.Lower(timeframe) in {"m1", "m5", "m15", "h1", "d1"}
    ensures r.Some? ==> r.value > 0
  {
    var tf := Config.Lower(timeframe);
    if tf == "m1" then Some(1)
    else if tf == "m5" then Some(5)
    else if tf == "m15" then Some(15)
    else if tf == "h1" then Some(60)
    else if tf == "d1" then Some(1440)
    else None
  }

  datatype GapReport = GapReport(
    expected: real,       // theoretical candle count
    actual: nat,
    missing: real,
    gapPercent: real,
    overThreshold: bool,  // the "exceeds 5%" warning
    noGaps: bool          // the "No missing candles" message
  )

  /** Minutes from the first to the last row, `(index[-1] - index[0]).total_seconds() / 60`. */
  function SpanMinutes(bars: seq<Bar>): real
    requires |bars| > 0
  {
    (bars[|bars| - 1].instant - bars[0].instant) as real / 60.0
  }

  /** Candle count of a continuous series over `spanMinutes`. */
  function ExpectedCandles(spanMinutes: real, intervalMinutes: nat): real
    requires intervalMinutes > 0
  {
    spanMinutes / intervalMinutes as real + 1.0
  }

  /** Percentage of expected candles that are missing; 0 when nothing is expected. */
  function GapPercent(expected: real, actual: nat): (g: real)
    ensures expected > 0.0 && actual > 0 ==> g < 100.0
    ensures expected > 0.0 ==> (g == 0.0 <==> expected == actual as real)
    ensures expected > 0.0 ==> (g >= 0.0 <==> expected >= actual as real)
    ensures expected <= 0.0 ==> g == 0.0
  {
    if expected > 0.0 then
      Arith.DivPositive(expected - actual as real, expected);
      (expected - actual as real) / expected * 100.0
    else 0.0
  }

  function AnalyzeGaps(bars: seq<Bar>, timeframe: string): (r: Option<GapReport>)
    ensures r.None? <==> |bars| < 2 || IntervalMinutes(timeframe).None?
    ensures r.Some? ==> r.value.actual == |bars| && r.value.missing == r.value.expected - |bars| as real
    ensures r.Some? ==> r.value.expected == ExpectedCandles(SpanMinutes(bars), IntervalMinutes(timeframe).value)
    ensures r.Some? ==> r.value.gapPercent == GapPercent(r.value.expected, |bars|)
    ensures r.Some? ==> (r.value.overThreshold <==> r.value.gapPercent > 5.0)
    ensures r.Some? ==> (r.value.noGaps <==> r.value.gapPercent == 0.0)
  {
    if |bars| < 2 then None
    else
      var interval := IntervalMinutes(timeframe);
      if interval.None? then None
      else
        var expected := ExpectedCandles(SpanMinutes(bars), interval.value);
        var gap := GapPercent(expected, |bars|);
        Some(GapReport(expected, |bars|, expected - |bars| as real, gap, gap > 5.0, gap == 0.0))
  }

  // Spacing facts.

  lemma {:induction false} SpanAtLeast(bars: seq<Bar>, d: int)
    requires |bars| >= 1
    requires forall i :: 0 <= i < |bars| - 1 ==> bars[i + 1].instant - bars[i].instant >= d
    ensures bars[|bars| - 1].instant - bars[0].instant >= (|bars| - 1) * d
    decreases |bars|
  {
    if |bars| > 1 {
      var init := bars[..|bars| - 1];
      SpanAtLeast(init, d);
      assert (|bars| - 1) * d == (|init| - 1) * d + d;
    }
  }

  lemma {:induction false} SpanExactly(bars: seq<Bar>, d: int)
    requires |bars| >= 1
    requires forall i :: 0 <= i < |bars| - 1 ==> bars[i + 1].instant - bars[i].instant == d
    ensures bars[|bars| - 1].instant - bars[0].instant == (|bars| - 1) * d
    decreases |bars|
  {
    if |bars| > 1 {
      var init := bars[..|bars| - 1];
      SpanExactly(init, d);
      assert (|bars| - 1) * d == (|init| - 1) * d + d;
    }
  }

  lemma ExpectedFromSpan(seconds: int, k: nat, n: nat)
    requires k > 0 && n >= 1
    ensures seconds >= (n - 1) * (k * 60) ==> ExpectedCandles(seconds as real / 60.0, k) >= n as real
    ensures seconds == (n - 1) * (k * 60) ==> ExpectedCandles(seconds as real / 60.0, k) == n as real
  {
    var d := 60.0 * k as real;
    Arith.DivDiv(seconds as real, 60.0, k as real);
    assert ((n - 1) * (k * 60)) as real == (n - 1) as real * d;
    Arith.DivCompare(seconds as real, d, (n - 1) as real);
  }

  /** Rows spaced exactly one interval apart show no gap. */
  lemma RegularSpacingHasNoGap(bars: seq<Bar>, timeframe: string)
    requires |bars| >= 2 && IntervalMinutes(timeframe).Some?
    requires forall i :: 0 <= i < |bars| - 1 ==>
      bars[i + 1].instant - bars[i].instant == IntervalMinutes(timeframe).value * 60
    ensures AnalyzeGaps(bars, timeframe).Some?
    ensures AnalyzeGaps(bars, timeframe).value.gapPercent == 0.0
    ensures AnalyzeGaps(bars, timeframe).value.noGaps && !AnalyzeGaps(bars, timeframe).value.overThreshold
  {
    var k := IntervalMinutes(timeframe).value;
    SpanExactly(bars, k * 60);
    ExpectedFromSpan(bars[|bars| - 1].instant - bars[0].instant, k, |bars|);
  }

  /** Rows at least one interval apart never show a negative gap. */
  lemma SparseSpacingGapNonNegative(bars: seq<Bar>, timeframe: string)
    requires |bars| >= 2 && IntervalMinutes(timeframe).Some?
    requires forall i :: 0 <= i < |bars| - 1 ==>
      bars[i + 1].instant - bars[i].instant >= IntervalMinutes(timeframe).value * 60
    ensures AnalyzeGaps(bars, timeframe).Some?
    ensures 0.0 <= AnalyzeGaps(bars, timeframe).value.gapPercent < 100.0
  {
    var k := IntervalMinutes(timeframe).value;
    SpanAtLeast(bars, k * 60);
    ExpectedFromSpan(bars[|bars| - 1].instant - bars[0].instant, k, |bars|);
  }

  /** For a time-ordered frame the expected count is at least one, so the
      division is always taken and the gap stays below 100%. */
  lemma OrderedExpectedAtLeastOne(bars: seq<Bar>, k: nat)
    requires |bars| >= 1 && k > 0
    requires bars[0].instant <= bars[|bars| - 1].instant
    ensures ExpectedCandles(SpanMinutes(bars), k) >= 1.0
    ensures GapPercent(ExpectedCandles(SpanMinutes(bars), k), |bars|) < 100.0
  {
    ExpectedFromSpan(bars[|bars| - 1].instant - bars[0].instant, k, 1);
  }
}
