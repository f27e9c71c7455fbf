/**
 `process_data` of shared/data_module.py: the public entry point that turns
 raw bars into the cleaned, market-hours-only series. The steps run in the
 code's order: empty check, UTC localisation, symbol lookup, conversion to
 the exchange's zone, market-hours filter, validation, diagnostics,
 cleaning, and the optional news filter.

 The diagnostics only log in the source; here they are returned next to the
 frame so that what they report can be stated.
 */
module Pipeline {
  import opened Outcomes
  import opened Bars
  import Seqs
  import Config
  import Timezone
  import CalendarFilters
  import Validation
  import Gaps
  import Missing
  import Outliers
  import Cleaning
  import Repair

  /** What the surrounding system supplies: the zone conversion, the holiday
      calendar, the news calendar (`None` when `news_calendar.csv` is absent or
      unreadable) and the imputation that is available. */
  datatype Env = Env(
    toLocal: Localizer,
    holidays: set<Date>,
    news: Option<set<Date>>,
    imputation: Cleaning.Imputation
  )

  /** Everything `_validate_ohlc` and `_run_diagnostics` log. */
  datatype Diagnostics = Diagnostics(
    validation: Validation.ValidationReport,
    gaps: Option<Gaps.GapReport>,
    missing: seq<Missing.ColumnMissing>,
    outliers: seq<Outliers.ColumnScan>
  )

  /** The returned frame and, unless the input was empty, the diagnostics. */
  datatype Processed = Processed(frame: Frame, diagnostics: Option<Diagnostics>)

  /** Steps 2 to 4: the frame in the exchange's zone, restricted to its sessions. */
  function SessionFrame(f: Frame, info: Config.SymbolInfo, symbol: string, env: Env): (r: Frame)
    requires Config.GetSymbolInfo(symbol) == Ok(info)
    ensures r.cols == f.cols && r.zone == Some(info.timezone)
    ensures AllInSession(r.bars, info, env.holidays)
    ensures TimeOrdered(f.bars) ==> TimeOrdered(r.bars)
  {
    var utc := Timezone.LocalizeUtc(f, env.toLocal);
    var local := Timezone.ConvertToLocalTime(utc, info.timezone, env.toLocal).value;
    Timezone.ConversionKeepsInstants(utc, info.timezone, env.toLocal);
    CalendarFilters.MarketHoursKeepsOrder(local, symbol, env.holidays);
    assert TimeOrdered(f.bars) ==> TimeOrdered(utc.bars) by {
      if TimeOrdered(f.bars) {
        forall i, j | 0 <= i < j < |utc.bars| ensures utc.bars[i].instant <= utc.bars[j].instant {
          assert Instants(utc.bars)[i] == Instants(f.bars)[i];
          assert Instants(utc.bars)[j] == Instants(f.bars)[j];
        }
      }
    }
    CalendarFilters.FilterToMarketHours(local, symbol, env.holidays)
  }

  /** Every row lies inside the symbol's trading sessions. */
  predicate AllInSession(bars: seq<Bar>, info: Config.SymbolInfo, holidays: set<Date>) {
    forall i :: 0 <= i < |bars| ==> CalendarFilters.InSession(bars[i], info, holidays)
  }

  /** No row falls on one of the news dates. */
  predicate NoNewsDates(bars: seq<Bar>, news: set<Date>) {
    forall i :: 0 <= i < |bars| ==> bars[i].local.date !in news
  }

  function RunDiagnostics(session: Frame, report: Validation.ValidationReport, timeframe: string): (d: Diagnostics)
    ensures d.validation == report
    ensures d.gaps.None? <==> |session.bars| < 2 || Gaps.IntervalMinutes(timeframe).None?
    ensures |d.missing| == |d.outliers| == |ExistingFields(session.cols)|
  {
    Diagnostics(report, Gaps.AnalyzeGaps(session.bars, timeframe),
      Missing.AnalyzeMissingData(session), Outliers.DetectOutliers(session))
  }

  /** Steps 5 to 8 on the session frame: validate, diagnose, clean, drop news dates. */
  function ProcessSession(session: Frame, info: Config.SymbolInfo, timeframe: string, excludeNews: bool, env: Env)
    : (r: Result<Processed>)
    requires AllInSession(session.bars, info, env.holidays)
    ensures !(AllFields <= session.cols) ==> r.Err? && r.error.MissingColumns?
    ensures r.Err? ==> r.error.MissingColumns? || r.error.ShapeMismatch?
    ensures r.Ok? ==>
      && r.value.diagnostics.Some?
      && r.value.frame.cols == session.cols
      && r.value.frame.zone == session.zone
      && AllInSession(r.value.frame.bars, info, env.holidays)
      && (excludeNews && env.news.Some? ==> NoNewsDates(r.value.frame.bars, env.news.value))
  {
    match Validation.Validate(session)
    case Err(e) => Err(e)
    case Ok(report) =>
      var diagnostics := RunDiagnostics(session, report, timeframe);
      match Cleaning.CleanData(session, env.imputation)
      case Err(e) =>
        PricesAmongAll(session.cols);
        Err(e)
      case Ok(cleaned) =>
        assert AllInSession(cleaned.bars, info, env.holidays) by {
          forall i | 0 <= i < |cleaned.bars| ensures CalendarFilters.InSession(cleaned.bars[i], info, env.holidays) {
            assert cleaned.bars[i].local == session.bars[i].local;
          }
        }
        DropNewsKeeps(cleaned, excludeNews, env.news, (b: Bar) => CalendarFilters.InSession(b, info, env.holidays));
        Ok(Processed(DropNews(cleaned, excludeNews, env.news), Some(diagnostics)))
  }

  lemma PricesAmongAll(cols: set<Field>)
    requires AllFields <= cols
    ensures {Open, High, Low, Close} <= cols
  {
  }

  /** Step 8: `_filter_news_dates` when `exclude_news` is set. */
  function DropNews(f: Frame, excludeNews: bool, news: Option<set<Date>>): (r: Frame)
    ensures r.cols == f.cols && r.zone == f.zone
    ensures excludeNews && news.Some? ==> NoNewsDates(r.bars, news.value)
    ensures !excludeNews || news.None? ==> r == f
    ensures TimeOrdered(f.bars) ==> TimeOrdered(r.bars)
    ensures excludeNews && news.Some? ==> r.bars == Seqs.Filter(f.bars, CalendarFilters.NotOnDates(news.value))
  {
    CalendarFilters.NewsFilterKeepsOrder(f, news);
    if excludeNews then CalendarFilters.FilterNewsDates(f, news) else f
  }

  /** Any property every input row has, every row that survives has too. */
  lemma DropNewsKeeps(f: Frame, excludeNews: bool, news: Option<set<Date>>, q: Bar -> bool)
    requires forall i :: 0 <= i < |f.bars| ==> q(f.bars[i])
    ensures var r := DropNews(f, excludeNews, news);
      forall i :: 0 <= i < |r.bars| ==> q(r.bars[i])
  {
    if excludeNews && news.Some? {
      Seqs.FilterKeeps(f.bars, CalendarFilters.NotOnDates(news.value), q);
    }
  }

  /** `local_time` is accepted and, as in the source, never read. */
  function ProcessData(f: Frame, symbol: string, timeframe: string, localTime: bool, excludeNews: bool, env: Env)
    : (r: Result<Processed>)
    ensures |f.bars| == 0 ==> r == Ok(Processed(f, None))
    ensures |f.bars| > 0 && Config.GetSymbolInfo(symbol).Err? ==> r == Err(UnknownSymbol(symbol))
    ensures |f.bars| > 0 && Config.GetSymbolInfo(symbol).Ok? && !(AllFields <= f.cols) ==>
      r.Err? && r.error.MissingColumns?
    ensures r.Err? ==> r.error.UnknownSymbol? || r.error.MissingColumns? || r.error.ShapeMismatch?
    ensures r.Ok? && |f.bars| > 0 ==>
      && Config.GetSymbolInfo(symbol).Ok?
      && r.value.diagnostics.Some?
      && r.value.frame.cols == f.cols
      && r.value.frame.zone == Some(Config.GetSymbolInfo(symbol).value.timezone)
      && AllInSession(r.value.frame.bars, Config.GetSymbolInfo(symbol).value, env.holidays)
      && (excludeNews && env.news.Some? ==> NoNewsDates(r.value.frame.bars, env.news.value))
  {
    if |f.bars| == 0 then Ok(Processed(f, None))
    else
      var lookup := Config.GetSymbolInfo(symbol);
      if lookup.Err? then Err(lookup.error)
      else ProcessSession(SessionFrame(f, lookup.value, symbol, env), lookup.value, timeframe, excludeNews, env)
  }

  /** Steps 5 to 8 as the code stands: once the iterative imputer is installed the
      cleaning raises on any NaN, and the news filter never removes a row. What
      does come back is what the corrected steps return with the fill fallback
      and without the news filter. */
  function ProcessSessionAsWritten(session: Frame, info: Config.SymbolInfo, timeframe: string, excludeNews: bool,
                                   env: Env, sk: Cleaning.Sklearn): (r: Result<Processed>)
    requires AllInSession(session.bars, info, env.holidays)
    ensures r.Ok? ==> r == ProcessSession(session, info, timeframe, false, env.(imputation := Cleaning.NeighbourFill))
  {
    match Validation.Validate(session)
    case Err(e) => Err(e)
    case Ok(report) =>
      var diagnostics := RunDiagnostics(session, report, timeframe);
      match Cleaning.CleanDataAsWritten(session, sk)
      case Err(e) => Err(e)
      case Ok(cleaned) =>
        SessionWithoutNews(session, info, timeframe, env.(imputation := Cleaning.NeighbourFill));
        var kept := if excludeNews then CalendarFilters.FilterNewsDatesAsWritten(cleaned, env.news) else cleaned;
        Ok(Processed(kept, Some(diagnostics)))
  }

  /** The ways the session steps as written fail: the validation's missing columns,
      and on any NaN the import of scikit-learn or the call to the imputer module. */
  lemma SessionRaisesAsWritten(session: Frame, info: Config.SymbolInfo, timeframe: string, excludeNews: bool,
                               env: Env, sk: Cleaning.Sklearn)
    requires AllInSession(session.bars, info, env.holidays)
    ensures var r := ProcessSessionAsWritten(session, info, timeframe, excludeNews, env, sk);
      && (!(AllFields <= session.cols) ==> r.Err? && r.error.MissingColumns?)
      && (AllFields <= session.cols && Cleaning.TotalMissing(session) > 0 ==>
            (sk == Cleaning.WithIterativeImputer ==> r == Err(NotCallable)) &&
            (sk == Cleaning.Absent ==> r == Err(ModuleMissing)))
      && (r.Err? ==> r.error.MissingColumns? || r.error == NotCallable || r.error == ModuleMissing)
  {
    if AllFields <= session.cols {
      PricesAmongAll(session.cols);
      Cleaning.NeighbourFillSucceeds(session);
    }
  }

  /** Without the news filter a successful session run returns the cleaned frame. */
  lemma SessionWithoutNews(session: Frame, info: Config.SymbolInfo, timeframe: string, env: Env)
    requires AllInSession(session.bars, info, env.holidays)
    requires Validation.Validate(session).Ok? && Cleaning.CleanData(session, env.imputation).Ok?
    ensures ProcessSession(session, info, timeframe, false, env) ==
      Ok(Processed(Cleaning.CleanData(session, env.imputation).value,
        Some(RunDiagnostics(session, Validation.Validate(session).value, timeframe))))
  {
  }

  /** `process_data` as the code stands. */
  function ProcessDataAsWritten(f: Frame, symbol: string, timeframe: string, localTime: bool, excludeNews: bool,
                                env: Env, sk: Cleaning.Sklearn): (r: Result<Processed>)
    ensures r.Ok? ==> r == ProcessData(f, symbol, timeframe, localTime, false, env.(imputation := Cleaning.NeighbourFill))
  {
    if |f.bars| == 0 then Ok(Processed(f, None))
    else
      var lookup := Config.GetSymbolInfo(symbol);
      if lookup.Err? then Err(lookup.error)
      else
        SessionFrameIgnoresImputation(f, lookup.value, symbol, env, Cleaning.NeighbourFill);
        ProcessSessionAsWritten(SessionFrame(f, lookup.value, symbol, env), lookup.value, timeframe, excludeNews, env, sk)
  }

  /** How `process_data` as written fails: an unknown symbol, a missing column, and,
      once the iterative imputer is installed, any NaN left in the session rows. */
  lemma ProcessRaisesAsWritten(f: Frame, symbol: string, timeframe: string, localTime: bool, excludeNews: bool,
                               env: Env, sk: Cleaning.Sklearn)
    ensures var r := ProcessDataAsWritten(f, symbol, timeframe, localTime, excludeNews, env, sk);
      && (|f.bars| == 0 ==> r == Ok(Processed(f, None)))
      && (|f.bars| > 0 && Config.GetSymbolInfo(symbol).Err? ==> r == Err(UnknownSymbol(symbol)))
      && (r.Err? ==>
            r.error.UnknownSymbol? || r.error.MissingColumns? || r.error == NotCallable || r.error == ModuleMissing)
      && ((&& |f.bars| > 0 && Config.GetSymbolInfo(symbol).Ok? && AllFields <= f.cols
           && Cleaning.TotalMissing(SessionFrame(f, Config.GetSymbolInfo(symbol).value, symbol, env)) > 0
           && sk == Cleaning.WithIterativeImputer) ==> r == Err(NotCallable))
  {
    if |f.bars| > 0 && Config.GetSymbolInfo(symbol).Ok? {
      var info := Config.GetSymbolInfo(symbol).value;
      SessionRaisesAsWritten(SessionFrame(f, info, symbol, env), info, timeframe, excludeNews, env, sk);
    }
  }

  lemma SessionFrameIgnoresImputation(f: Frame, info: Config.SymbolInfo, symbol: string, env: Env,
                                      how: Cleaning.Imputation)
    requires Config.GetSymbolInfo(symbol) == Ok(info)
    ensures SessionFrame(f, info, symbol, env.(imputation := how)) == SessionFrame(f, info, symbol, env)
  {
  }

  /** An imputer that returns a table of the right length with every requested cell present. */
  ghost predicate FillsEverything(impute: Cleaning.Imputer) {
    forall cols, bars :: |impute(cols, bars)| == |bars| &&
      forall i, g :: 0 <= i < |bars| && g in cols ==> Value(impute(cols, bars)[i], g).Some?
  }

  /** The output is in time order whenever the input is. */
  lemma ProcessKeepsTimeOrder(f: Frame, symbol: string, timeframe: string, localTime: bool, excludeNews: bool, env: Env)
    requires TimeOrdered(f.bars)
    ensures var r := ProcessData(f, symbol, timeframe, localTime, excludeNews, env);
      r.Ok? ==> TimeOrdered(r.value.frame.bars)
  {
    var r := ProcessData(f, symbol, timeframe, localTime, excludeNews, env);
    if r.Ok? && |f.bars| > 0 {
      var info := Config.GetSymbolInfo(symbol).value;
      var session := SessionFrame(f, info, symbol, env);
      var cleaned := Cleaning.CleanData(session, env.imputation).value;
      assert TimeOrdered(cleaned.bars) by {
        forall i, j | 0 <= i < j < |cleaned.bars| ensures cleaned.bars[i].instant <= cleaned.bars[j].instant {
          assert cleaned.bars[i].instant == session.bars[i].instant;
          assert cleaned.bars[j].instant == session.bars[j].instant;
        }
      }
      assert r.value.frame == DropNews(cleaned, excludeNews, env.news);
    }
  }

  /** With a known symbol, all five columns and an imputer that fills everything,
      processing succeeds and returns a table without NaN. */
  lemma ProcessCompletesWithFullImputer(f: Frame, symbol: string, timeframe: string, localTime: bool,
                                        excludeNews: bool, env: Env)
    requires Config.GetSymbolInfo(symbol).Ok? && AllFields <= f.cols
    requires env.imputation.Mice? && FillsEverything(env.imputation.impute)
    ensures var r := ProcessData(f, symbol, timeframe, localTime, excludeNews, env);
      r.Ok? && Complete(r.value.frame.cols, r.value.frame.bars)
  {
    if |f.bars| > 0 {
      var info := Config.GetSymbolInfo(symbol).value;
      var session := SessionFrame(f, info, symbol, env);
      var filled := env.imputation.impute(session.cols, session.bars);
      assert |filled| == |session.bars|;
      PricesAmongAll(session.cols);
      Cleaning.CleanCompletesWhenImputerFills(session, env.imputation);
      var cleaned := Cleaning.CleanData(session, env.imputation).value;
      var out := DropNews(cleaned, excludeNews, env.news);
      assert ProcessData(f, symbol, timeframe, localTime, excludeNews, env).value.frame == out;
      DropNewsKeeps(cleaned, excludeNews, env.news, (b: Bar) => forall g :: g in f.cols ==> Value(b, g).Some?);
    }
  }

  /** When the session rows had a NaN, every returned row satisfies the OHLC repair rules. */
  lemma ProcessRepairsWhenImputing(f: Frame, symbol: string, timeframe: string, localTime: bool,
                                   excludeNews: bool, env: Env)
    requires |f.bars| > 0 && Config.GetSymbolInfo(symbol).Ok?
    requires Cleaning.TotalMissing(SessionFrame(f, Config.GetSymbolInfo(symbol).value, symbol, env)) > 0
    ensures var r := ProcessData(f, symbol, timeframe, localTime, excludeNews, env);
      r.Ok? ==> forall i :: 0 <= i < |r.value.frame.bars| ==> Repair.Repaired(r.value.frame.bars[i], true)
  {
    var info := Config.GetSymbolInfo(symbol).value;
    SessionRepairedWhenImputing(SessionFrame(f, info, symbol, env), info, timeframe, excludeNews, env);
  }

  lemma SessionRepairedWhenImputing(session: Frame, info: Config.SymbolInfo, timeframe: string,
                                    excludeNews: bool, env: Env)
    requires AllInSession(session.bars, info, env.holidays)
    requires Cleaning.TotalMissing(session) > 0
    ensures var r := ProcessSession(session, info, timeframe, excludeNews, env);
      r.Ok? ==> forall i :: 0 <= i < |r.value.frame.bars| ==> Repair.Repaired(r.value.frame.bars[i], true)
  {
    if ProcessSession(session, info, timeframe, excludeNews, env).Ok? {
      ProcessSessionOutput(session, info, timeframe, excludeNews, env);
      var cleaned := Cleaning.CleanData(session, env.imputation).value;
      assert forall i :: 0 <= i < |cleaned.bars| ==> Repair.Repaired(cleaned.bars[i], Volume in session.cols);
      DropNewsKeeps(cleaned, excludeNews, env.news, (b: Bar) => Repair.Repaired(b, true));
    }
  }

  /** A successful session run validated all five columns and returns the cleaned
      rows after the news filter. */
  lemma ProcessSessionOutput(session: Frame, info: Config.SymbolInfo, timeframe: string,
                             excludeNews: bool, env: Env)
    requires AllInSession(session.bars, info, env.holidays)
    requires ProcessSession(session, info, timeframe, excludeNews, env).Ok?
    ensures Volume in session.cols
    ensures Cleaning.CleanData(session, env.imputation).Ok?
    ensures ProcessSession(session, info, timeframe, excludeNews, env).value.frame ==
      DropNews(Cleaning.CleanData(session, env.imputation).value, excludeNews, env.news)
  {
    assert Validation.Validate(session).Ok?;
  }

  /** When no session row has a NaN the cleaning step is skipped, and with it
      the OHLC repair: a row with high below low comes back unchanged. */
  lemma CompleteInputSkipsRepair()
    ensures
      var r := ProcessData(Frame(AllFields, None, [InvertedBar()]), "btcusdt", "m1", false, false, TuesdayNoon());
      && r.Ok? && |r.value.frame.bars| == 1
      && Below(r.value.frame.bars[0].highPx, r.value.frame.bars[0].lowPx)
  {
    var env := TuesdayNoon();
    var f := Frame(AllFields, None, [InvertedBar()]);
    ExampleSessionIsInput();
    var info := Config.GetSymbolInfo("btcusdt").value;
    var session := SessionFrame(f, info, "btcusdt", env);
    ExampleSessionComplete(session);
    CompleteSessionSkipsCleaning(session, info, "m1", false, env);
  }

  lemma ExampleSessionComplete(session: Frame)
    requires session.cols == AllFields && session.bars == [InvertedBar()]
    ensures Complete(session.cols, session.bars)
  {
  }

  /** A validated session without NaN comes back as it went in, apart from the news filter. */
  lemma CompleteSessionSkipsCleaning(session: Frame, info: Config.SymbolInfo, timeframe: string,
                                     excludeNews: bool, env: Env)
    requires AllInSession(session.bars, info, env.holidays)
    requires AllFields <= session.cols && Complete(session.cols, session.bars)
    ensures ProcessSession(session, info, timeframe, excludeNews, env).Ok?
    ensures ProcessSession(session, info, timeframe, excludeNews, env).value.frame ==
      DropNews(session, excludeNews, env.news)
  {
    assert Cleaning.CleanData(session, env.imputation) == Ok(session);
  }

  /** A Tuesday-noon bar whose high (1) lies below its low (3). */
  function InvertedBar(): Bar {
    Bar(0, Label(Date(2024, 1, 2), 1, 43200), Some(2.0), Some(1.0), Some(3.0), Some(2.0), Some(10.0), map[])
  }

  /** Every instant reads as Tuesday 2 January 2024 at noon; no holidays, no news calendar. */
  function TuesdayNoon(): Env {
    Env((zone: string, t: int) => Label(Date(2024, 1, 2), 1, 43200), {}, None, Cleaning.NeighbourFill)
  }

  lemma ExampleSessionIsInput()
    ensures Config.GetSymbolInfo("btcusdt").Ok?
    ensures SessionFrame(Frame(AllFields, None, [InvertedBar()]), Config.GetSymbolInfo("btcusdt").value,
      "btcusdt", TuesdayNoon()).bars == [InvertedBar()]
  {
    var b := InvertedBar();
    var env := TuesdayNoon();
    var f := Frame(AllFields, None, [b]);
    assert Config.Lower("btcusdt") == "btcusdt";
    var info := Config.GetSymbolInfo("btcusdt").value;
    var utc := Timezone.LocalizeUtc(f, env.toLocal);
    var local := Timezone.ConvertToLocalTime(utc, info.timezone, env.toLocal).value;
    assert local.bars == [b];
    assert CalendarFilters.InSession(b, info, env.holidays);
    Seqs.FilterAll([b], CalendarFilters.Session(info, env.holidays));
  }
}
