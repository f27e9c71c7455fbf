/**
 shared/data_handler.py: `get_clean_market_data` runs the processing pipeline
 on fetched rows and attaches data-quality metadata computed by
 `_analyze_data_quality`. The fetch itself is a parameter (the raw frame).
 */
module Handler {
  import opened Outcomes
  import opened Bars
  import Gaps
  import Config
  import Cleaning
  import Pipeline

  /** The metadata dictionary. `timezone` is `None` for a naive index. */
  datatype QualityReport = QualityReport(
    symbol: string,
    timeframe: string,
    rawCandles: nat,
    cleanCandles: nat,
    gapRawPercent: real,
    gapCleanPercent: real,
    dataQuality: real,
    rangeStart: int,
    rangeEnd: int,
    timezone: Option<string>
  )

  /** The returned pair, plus the NaN total the handler logs. */
  datatype CleanMarketData = CleanMarketData(frame: Frame, metadata: QualityReport, remainingNan: nat)

  /** Bar length in minutes; timeframes outside the table count as hourly. */
  function QualityIntervalMinutes(timeframe: string): (k: nat)
    ensures k > 0
    ensures Gaps.IntervalMinutes(timeframe).Some? ==> k == Gaps.IntervalMinutes(timeframe).value
    ensures Gaps.IntervalMinutes(timeframe).None? ==> k == Gaps.IntervalMinutes("h1").value
  {
    assert Gaps.IntervalMinutes("h1") == Some(60) by {
      assert Config.Lower("h1") == "h1";
    }
    Gaps.IntervalMinutes(timeframe).GetOr(60)
  }

  /** Candle count a continuous series between the first and the last row would have. */
  function ExpectedFor(bars: seq<Bar>, timeframe: string): real
    requires |bars| > 0
  {
    Gaps.ExpectedCandles(Gaps.SpanMinutes(bars), QualityIntervalMinutes(timeframe))
  }

  /** The raw-side percentage, a plain float division with no guard. */
  function RawGapPercent(expected: real, actual: nat): (g: real)
    requires expected != 0.0
    ensures g == 0.0 <==> expected == actual as real
  {
    (expected - actual as real) / expected * 100.0
  }

  function Lowest(xs: seq<int>): (m: int)
    requires |xs| > 0
    ensures exists i :: 0 <= i < |xs| && xs[i] == m
    ensures forall i :: 0 <= i < |xs| ==> m <= xs[i]
  {
    if |xs| == 1 then xs[0]
    else
      var rest := Lowest(xs[1..]);
      assert forall i :: 1 <= i < |xs| ==> xs[i] == xs[1..][i - 1];
      if xs[0] <= rest then xs[0] else rest
  }

  function Highest(xs: seq<int>): (m: int)
    requires |xs| > 0
    ensures exists i :: 0 <= i < |xs| && xs[i] == m
    ensures forall i :: 0 <= i < |xs| ==> xs[i] <= m
  {
    if |xs| == 1 then xs[0]
    else
      var rest := Highest(xs[1..]);
      assert forall i :: 1 <= i < |xs| ==> xs[i] == xs[1..][i - 1];
      if xs[0] >= rest then xs[0] else rest
  }

  /** `_analyze_data_quality`. Reading `index[0]` of an empty frame raises, and
      so does the unguarded raw-side division when its denominator is zero. */
  function AnalyzeDataQuality(raw: seq<Bar>, clean: Frame, symbol: string, timeframe: string)
    : (r: Result<QualityReport>)
    ensures r.Err? <==> |raw| == 0 || ExpectedFor(raw, timeframe) == 0.0 || |clean.bars| == 0
    ensures r.Err? ==>
      r.error == (if |raw| > 0 && ExpectedFor(raw, timeframe) == 0.0 then ZeroDivision else EmptyIndex)
    ensures r.Ok? ==>
      && r.value.symbol == symbol && r.value.timeframe == timeframe
      && r.value.rawCandles == |raw| && r.value.cleanCandles == |clean.bars|
      && r.value.timezone == clean.zone
      && r.value.dataQuality == 100.0 - r.value.gapCleanPercent
      && (r.value.gapRawPercent == 0.0 <==> ExpectedFor(raw, timeframe) == |raw| as real)
    ensures r.Ok? ==> var e := ExpectedFor(clean.bars, timeframe);
      && (e > 0.0 ==> (r.value.dataQuality == 100.0 <==> e == |clean.bars| as real))
      && (e > 0.0 ==> r.value.dataQuality > 0.0)
      && (e <= 0.0 ==> r.value.dataQuality == 100.0)
    ensures r.Ok? ==>
      && r.value.rangeStart <= r.value.rangeEnd
      && (exists i :: 0 <= i < |clean.bars| && clean.bars[i].instant == r.value.rangeStart)
      && (exists i :: 0 <= i < |clean.bars| && clean.bars[i].instant == r.value.rangeEnd)
      && (forall i :: 0 <= i < |clean.bars| ==>
            r.value.rangeStart <= clean.bars[i].instant <= r.value.rangeEnd)
  {
    if |raw| == 0 then Err(EmptyIndex)
    else
      var expectedRaw := ExpectedFor(raw, timeframe);
      if expectedRaw == 0.0 then Err(ZeroDivision)
      else
        var gapRaw := RawGapPercent(expectedRaw, |raw|);
        if |clean.bars| == 0 then Err(EmptyIndex)
        else
          var gapClean := Gaps.GapPercent(ExpectedFor(clean.bars, timeframe), |clean.bars|);
          var instants := Instants(clean.bars);
          Ok(QualityReport(symbol, timeframe, |raw|, |clean.bars|, gapRaw, gapClean, 100.0 - gapClean,
            Lowest(instants), Highest(instants), clean.zone))
  }

  /** What the raw frame is indexed by. `fetch_ohlcv` returns the time as a
      column under a positional index; the rest of this module assumes a time index. */
  datatype RawIndex = Positional | ByTime

  /** The raw span `(index[-1] - index[0]).total_seconds() / 60` as written: on a
      positional index the difference is an integer, which has no `total_seconds`. */
  function RawSpanAsWritten(raw: seq<Bar>, index: RawIndex): (r: Result<real>)
    requires |raw| > 0
    ensures r.Err? <==> index == Positional
    ensures r.Err? ==> r.error == AttributeMissing
    ensures r.Ok? ==> r.value * 60.0 == (raw[|raw| - 1].instant - raw[0].instant) as real
  {
    if index == Positional then Err(AttributeMissing) else Ok(Gaps.SpanMinutes(raw))
  }

  /** `_analyze_data_quality` as written, for either kind of raw index. */
  function AnalyzeDataQualityAsWritten(raw: seq<Bar>, index: RawIndex, clean: Frame, symbol: string,
                                       timeframe: string): (r: Result<QualityReport>)
    ensures index == ByTime ==> r == AnalyzeDataQuality(raw, clean, symbol, timeframe)
    ensures index == Positional ==> r.Err?
  {
    if |raw| == 0 then Err(EmptyIndex)
    else
      var span :- RawSpanAsWritten(raw, index);
      AnalyzeDataQuality(raw, clean, symbol, timeframe)
  }

  /** On the positional index `fetch_ohlcv` produces, the analysis raises for every
      input: `IndexError` when nothing was fetched, `AttributeError` otherwise. */
  lemma FetchedFrameAlwaysRaises(raw: seq<Bar>, clean: Frame, symbol: string, timeframe: string)
    ensures AnalyzeDataQualityAsWritten(raw, Positional, clean, symbol, timeframe) ==
      Err(if |raw| == 0 then EmptyIndex else AttributeMissing)
  {
  }

  /** Missing entries among the non-OHLCV columns of one row. */
  function OtherMissing(b: Bar): (n: nat)
    ensures n == 0 <==> forall k :: k in b.other ==> b.other[k].Some?
  {
    var gaps := set k | k in b.other && b.other[k].None?;
    MissingKeyCounted(b, gaps);
    |gaps|
  }

  lemma MissingKeyCounted(b: Bar, gaps: set<string>)
    requires gaps == set k | k in b.other && b.other[k].None?
    ensures |gaps| == 0 <==> forall k :: k in b.other ==> b.other[k].Some?
  {
    if exists k :: k in b.other && b.other[k].None? {
      var k :| k in b.other && b.other[k].None?;
      assert k in gaps;
    }
  }

  ghost predicate NoOtherMissing(bars: seq<Bar>) {
    forall i, k :: 0 <= i < |bars| && k in bars[i].other ==> bars[i].other[k].Some?
  }

  function OtherMissingIn(bars: seq<Bar>): (n: nat)
    ensures n == 0 <==> NoOtherMissing(bars)
  {
    if |bars| == 0 then 0
    else
      var head := OtherMissing(bars[0]);
      var rest := OtherMissingIn(bars[1..]);
      assert NoOtherMissing(bars) <==> head == 0 && NoOtherMissing(bars[1..]) by {
        assert forall i :: 1 <= i < |bars| ==> bars[i] == bars[1..][i - 1];
      }
      head + rest
  }

  /** `df_clean.isnull().sum().sum()`: NaN entries left in any column. */
  function RemainingNan(f: Frame): (n: nat)
    ensures n == 0 <==> Complete(f.cols, f.bars) && NoOtherMissing(f.bars)
  {
    Cleaning.TotalMissing(f) + OtherMissingIn(f.bars)
  }

  /** `get_clean_market_data` on already fetched rows. */
  function GetCleanMarketData(raw: Frame, symbol: string, timeframe: string, localTime: bool,
                              excludeNews: bool, env: Pipeline.Env): (r: Result<CleanMarketData>)
    ensures var p := Pipeline.ProcessData(raw, symbol, timeframe, localTime, excludeNews, env);
      && (p.Err? ==> r == Err(p.error))
      && (p.Ok? ==> r.Ok? == AnalyzeDataQuality(raw.bars, p.value.frame, symbol, timeframe).Ok?)
      && (r.Ok? ==> p.Ok? && r.value.frame == p.value.frame)
    ensures |raw.bars| == 0 ==> r == Err(EmptyIndex)
    ensures r.Ok? ==>
      && |r.value.frame.bars| > 0
      && r.value.metadata.rawCandles == |raw.bars|
      && r.value.metadata.cleanCandles == |r.value.frame.bars|
      && r.value.metadata.timezone == Some(Config.GetSymbolInfo(symbol).value.timezone)
      && r.value.frame.cols == raw.cols
      && (r.value.remainingNan == 0 <==>
            Complete(r.value.frame.cols, r.value.frame.bars) && NoOtherMissing(r.value.frame.bars))
  {
    var processed :- Pipeline.ProcessData(raw, symbol, timeframe, localTime, excludeNews, env);
    var clean := processed.frame;
    var metadata :- AnalyzeDataQuality(raw.bars, clean, symbol, timeframe);
    Ok(CleanMarketData(clean, metadata, RemainingNan(clean)))
  }

  /** `get_clean_market_data` as the code stands: `process_data` as written, then the
      quality analysis on the positional index `fetch_ohlcv` returns. */
  function GetCleanMarketDataAsWritten(raw: Frame, symbol: string, timeframe: string, localTime: bool,
                                       excludeNews: bool, env: Pipeline.Env, sk: Cleaning.Sklearn)
    : (r: Result<CleanMarketData>)
    ensures r.Err?
    ensures var p := Pipeline.ProcessDataAsWritten(raw, symbol, timeframe, localTime, excludeNews, env, sk);
      && (p.Err? ==> r == Err(p.error))
      && (p.Ok? ==> r == Err(if |raw.bars| == 0 then EmptyIndex else AttributeMissing))
  {
    var processed :- Pipeline.ProcessDataAsWritten(raw, symbol, timeframe, localTime, excludeNews, env, sk);
    var clean := processed.frame;
    FetchedFrameAlwaysRaises(raw.bars, clean, symbol, timeframe);
    match AnalyzeDataQualityAsWritten(raw.bars, Positional, clean, symbol, timeframe)
    case Err(e) => Err(e)
    case Ok(metadata) => Ok(CleanMarketData(clean, metadata, RemainingNan(clean)))
  }

  /** For time-ordered rows the reported range is the first and the last index entry. */
  lemma OrderedRangeIsEnds(raw: seq<Bar>, clean: Frame, symbol: string, timeframe: string)
    requires TimeOrdered(clean.bars)
    requires AnalyzeDataQuality(raw, clean, symbol, timeframe).Ok?
    ensures var m := AnalyzeDataQuality(raw, clean, symbol, timeframe).value;
      m.rangeStart == clean.bars[0].instant && m.rangeEnd == clean.bars[|clean.bars| - 1].instant
  {
    RangeIsLowestHighest(raw, clean, symbol, timeframe);
    InstantsOrdered(clean.bars);
    EndsOfOrdered(Instants(clean.bars));
  }

  lemma InstantsOrdered(bars: seq<Bar>)
    requires TimeOrdered(bars)
    ensures forall i, j :: 0 <= i < j < |Instants(bars)| ==> Instants(bars)[i] <= Instants(bars)[j]
  {
  }

  lemma RangeIsLowestHighest(raw: seq<Bar>, clean: Frame, symbol: string, timeframe: string)
    requires AnalyzeDataQuality(raw, clean, symbol, timeframe).Ok?
    ensures |clean.bars| > 0
    ensures var m := AnalyzeDataQuality(raw, clean, symbol, timeframe).value;
      m.rangeStart == Lowest(Instants(clean.bars)) && m.rangeEnd == Highest(Instants(clean.bars))
  {
  }

  lemma EndsOfOrdered(xs: seq<int>)
    requires |xs| > 0
    requires forall i, j :: 0 <= i < j < |xs| ==> xs[i] <= xs[j]
    ensures Lowest(xs) == xs[0] && Highest(xs) == xs[|xs| - 1]
  {
  }

  /** The handler's clean-side gap is the figure `_analyze_gaps` reports for the same rows. */
  lemma QualityAgreesWithGapAnalysis(raw: seq<Bar>, clean: Frame, symbol: string, timeframe: string)
    requires |clean.bars| >= 2 && Gaps.IntervalMinutes(timeframe).Some?
    requires AnalyzeDataQuality(raw, clean, symbol, timeframe).Ok?
    ensures Gaps.AnalyzeGaps(clean.bars, timeframe).Some?
    ensures AnalyzeDataQuality(raw, clean, symbol, timeframe).value.gapCleanPercent ==
      Gaps.AnalyzeGaps(clean.bars, timeframe).value.gapPercent
  {
  }

  /** A timeframe outside the table is analysed exactly as `h1`. */
  lemma UnknownTimeframeIsHourly(raw: seq<Bar>, clean: Frame, symbol: string, timeframe: string)
    requires Gaps.IntervalMinutes(timeframe).None?
    ensures var a := AnalyzeDataQuality(raw, clean, symbol, timeframe);
      var h := AnalyzeDataQuality(raw, clean, symbol, "h1");
      a.Ok? == h.Ok? && (a.Ok? ==> a.value == h.value.(timeframe := timeframe))
  {
    assert QualityIntervalMinutes(timeframe) == QualityIntervalMinutes("h1") by {
      assert Config.Lower("h1") == "h1";
    }
  }

  /** Clean rows exactly one interval apart (or a single row) give a 0% gap and 100% quality. */
  lemma RegularSpacingFullQuality(raw: seq<Bar>, clean: Frame, symbol: string, timeframe: string)
    requires AnalyzeDataQuality(raw, clean, symbol, timeframe).Ok?
    requires forall i :: 0 <= i < |clean.bars| - 1 ==>
      clean.bars[i + 1].instant - clean.bars[i].instant == QualityIntervalMinutes(timeframe) * 60
    ensures AnalyzeDataQuality(raw, clean, symbol, timeframe).value.gapCleanPercent == 0.0
    ensures AnalyzeDataQuality(raw, clean, symbol, timeframe).value.dataQuality == 100.0
  {
    var bars := clean.bars;
    var k := QualityIntervalMinutes(timeframe);
    Gaps.SpanExactly(bars, k * 60);
    Gaps.ExpectedFromSpan(bars[|bars| - 1].instant - bars[0].instant, k, |bars|);
  }

  /** With the clean rows in order the guard always divides, so the gap is below
      100% and the quality positive. */
  lemma OrderedQualityPositive(raw: seq<Bar>, clean: Frame, symbol: string, timeframe: string)
    requires AnalyzeDataQuality(raw, clean, symbol, timeframe).Ok?
    requires TimeOrdered(clean.bars)
    ensures ExpectedFor(clean.bars, timeframe) >= 1.0
    ensures var m := AnalyzeDataQuality(raw, clean, symbol, timeframe).value;
      m.gapCleanPercent < 100.0 && m.dataQuality > 0.0
  {
    Gaps.OrderedExpectedAtLeastOne(clean.bars, QualityIntervalMinutes(timeframe));
  }

  /** Clean rows at least one interval apart never report more than 100% quality. */
  lemma SparseSpacingQualityAtMostFull(raw: seq<Bar>, clean: Frame, symbol: string, timeframe: string)
    requires AnalyzeDataQuality(raw, clean, symbol, timeframe).Ok?
    requires forall i :: 0 <= i < |clean.bars| - 1 ==>
      clean.bars[i + 1].instant - clean.bars[i].instant >= QualityIntervalMinutes(timeframe) * 60
    ensures ExpectedFor(clean.bars, timeframe) >= |clean.bars| as real
    ensures AnalyzeDataQuality(raw, clean, symbol, timeframe).value.dataQuality <= 100.0
  {
    var bars := clean.bars;
    var k := QualityIntervalMinutes(timeframe);
    Gaps.SpanAtLeast(bars, k * 60);
    Gaps.ExpectedFromSpan(bars[|bars| - 1].instant - bars[0].instant, k, |bars|);
  }

  /** Raw rows whose index runs backwards by exactly one interval make the raw-side
      denominator zero, so the analysis raises even though the clean rows are fine. */
  lemma ReversedRawIndexDividesByZero(clean: Frame, symbol: string)
    requires |clean.bars| > 0
    ensures
      var early := Bar(0, Label(Date(2024, 1, 2), 1, 0), None, None, None, None, None, map[]);
      var late := early.(instant := 60);
      AnalyzeDataQuality([late, early], clean, symbol, "m1") == Err(ZeroDivision)
  {
    var early := Bar(0, Label(Date(2024, 1, 2), 1, 0), None, None, None, None, None, map[]);
    var late := early.(instant := 60);
    assert Config.Lower("m1") == "m1";
    assert ExpectedFor([late, early], "m1") == 0.0;
  }

  /** Raw rows in time order never hit the unguarded division. */
  lemma OrderedRawDivides(raw: seq<Bar>, timeframe: string)
    requires |raw| > 0 && raw[0].instant <= raw[|raw| - 1].instant
    ensures ExpectedFor(raw, timeframe) >= 1.0
  {
    Gaps.OrderedExpectedAtLeastOne(raw, QualityIntervalMinutes(timeframe));
  }

  /** With all five columns, a known symbol and an imputer that fills every cell,
      any NaN the handler still counts sits in a non-OHLCV column. */
  lemma FullImputerLeavesOnlyOtherNan(raw: Frame, symbol: string, timeframe: string, localTime: bool,
                                      excludeNews: bool, env: Pipeline.Env)
    requires Config.GetSymbolInfo(symbol).Ok? && AllFields <= raw.cols
    requires env.imputation.Mice? && Pipeline.FillsEverything(env.imputation.impute)
    ensures var r := GetCleanMarketData(raw, symbol, timeframe, localTime, excludeNews, env);
      r.Ok? ==> r.value.remainingNan == OtherMissingIn(r.value.frame.bars)
  {
    Pipeline.ProcessCompletesWithFullImputer(raw, symbol, timeframe, localTime, excludeNews, env);
  }
}
