/**
 The calendar filters of shared/data_module.py: `_filter_to_market_hours`
 (weekday, holiday and trading-window masks applied one after another) and
 `_filter_news_dates` (drop rows on news dates). Both read only the local
 label of each row and keep the survivors in their original order.
 */
module CalendarFilters {
  import opened Outcomes
  import opened Bars
  import Seqs
  import Config

  /** `df.index.weekday < 5`. */
  function OnWeekday(): Bar -> bool {
    (b: Bar) => b.local.weekday < 5
  }

  /** Not on one of the given dates (holidays, or news dates). */
  function NotOnDates(holidays: set<Date>): Bar -> bool {
    (b: Bar) => b.local.date !in holidays
  }

  /** `market_open <= df.index.time <= market_close`. */
  function WithinHours(open: int, close: int): Bar -> bool {
    (b: Bar) => open <= b.local.second <= close
  }

  /** A row the market-hours filter keeps. */
  predicate InSession(b: Bar, info: Config.SymbolInfo, holidays: set<Date>) {
    b.local.weekday < 5 && b.local.date !in holidays &&
    info.marketOpen <= b.local.second <= info.marketClose
  }

  function Session(info: Config.SymbolInfo, holidays: set<Date>): Bar -> bool {
    (b: Bar) => InSession(b, info, holidays)
  }

  /** `_filter_to_market_hours`: when the symbol is unknown the frame is returned
      as it is; otherwise exactly the weekday, non-holiday rows inside the
      symbol's trading window are kept, in order. */
  function FilterToMarketHours(f: Frame, symbol: string, holidays: set<Date>): (r: Frame)
    ensures Config.GetSymbolInfo(symbol).Err? ==> r == f
    ensures r.cols == f.cols && r.zone == f.zone && |r.bars| <= |f.bars|
    ensures Config.GetSymbolInfo(symbol).Ok? ==>
      var info := Config.GetSymbolInfo(symbol).value;
      && r.bars == Seqs.Filter(f.bars, Session(info, holidays))
      && (forall b :: b in r.bars <==> b in f.bars && InSession(b, info, holidays))
  {
    var lookup := Config.GetSymbolInfo(symbol);
    if lookup.Err? then f
    else
      var info := lookup.value;
      var weekdays := Seqs.Filter(f.bars, OnWeekday());
      var working := Seqs.Filter(weekdays, NotOnDates(holidays));
      var open := Seqs.Filter(working, WithinHours(info.marketOpen, info.marketClose));
      SessionIsThreeMasks(f.bars, info, holidays);
      Frame(f.cols, f.zone, open)
  }

  /** The three successive masks select the same rows as the one session predicate. */
  lemma SessionIsThreeMasks(bars: seq<Bar>, info: Config.SymbolInfo, holidays: set<Date>)
    ensures Seqs.Filter(Seqs.Filter(Seqs.Filter(bars, OnWeekday()), NotOnDates(holidays)),
      WithinHours(info.marketOpen, info.marketClose)) == Seqs.Filter(bars, Session(info, holidays))
  {
    var weekdayHoliday: Bar -> bool := (b: Bar) => b.local.weekday < 5 && b.local.date !in holidays;
    Seqs.FilterFilter(bars, OnWeekday(), NotOnDates(holidays), weekdayHoliday);
    Seqs.FilterFilter(bars, weekdayHoliday, WithinHours(info.marketOpen, info.marketClose), Session(info, holidays));
  }

  /** The kept rows are an order-preserving subsequence, so a time-ordered frame stays time-ordered. */
  lemma MarketHoursKeepsOrder(f: Frame, symbol: string, holidays: set<Date>)
    ensures Seqs.IsSubsequence(FilterToMarketHours(f, symbol, holidays).bars, f.bars)
    ensures TimeOrdered(f.bars) ==> TimeOrdered(FilterToMarketHours(f, symbol, holidays).bars)
  {
    var lookup := Config.GetSymbolInfo(symbol);
    if lookup.Ok? {
      var p := Session(lookup.value, holidays);
      Seqs.FilterIsSubsequence(f.bars, p);
      if TimeOrdered(f.bars) {
        FilterKeepsTimeOrder(f.bars, p);
      }
    } else {
      SubsequenceReflexive(f.bars);
    }
  }

  lemma {:induction false} SubsequenceReflexive<T>(s: seq<T>)
    ensures Seqs.IsSubsequence(s, s)
    decreases |s|
  {
    if |s| > 0 {
      SubsequenceReflexive(s[1..]);
    }
  }

  lemma FilterKeepsTimeOrder(bars: seq<Bar>, p: Bar -> bool)
    requires TimeOrdered(bars)
    ensures TimeOrdered(Seqs.Filter(bars, p))
  {
    var le := (a: Bar, b: Bar) => a.instant <= b.instant;
    assert Seqs.Chain(bars, le);
    Seqs.FilterPreservesChain(bars, p, le);
    var r := Seqs.Filter(bars, p);
    assert forall i, j :: 0 <= i < j < |r| ==> le(r[i], r[j]);
  }

  /** Crypto symbols are in the symbol table, so their weekend rows are dropped too. */
  lemma CryptoWeekendsRemoved(f: Frame, holidays: set<Date>)
    ensures forall b :: b in FilterToMarketHours(f, "btcusdt", holidays).bars ==> b.local.weekday < 5
    ensures forall b :: b in FilterToMarketHours(f, "ethusdt", holidays).bars ==> b.local.weekday < 5
  {
    assert Config.Lower("btcusdt") == "btcusdt";
    assert Config.Lower("ethusdt") == "ethusdt";
  }

  /** `_filter_news_dates`: with no readable calendar the frame is returned as it
      is; otherwise exactly the rows whose local date is not a news date are kept, in order. */
  function FilterNewsDates(f: Frame, newsDates: Option<set<Date>>): (r: Frame)
    ensures newsDates.None? ==> r == f
    ensures r.cols == f.cols && r.zone == f.zone && |r.bars| <= |f.bars|
    ensures newsDates.Some? ==> forall b :: b in r.bars <==> b in f.bars && b.local.date !in newsDates.value
    ensures newsDates.Some? ==> r.bars == Seqs.Filter(f.bars, NotOnDates(newsDates.value))
  {
    if newsDates.None? then f
    else Frame(f.cols, f.zone, Seqs.Filter(f.bars, NotOnDates(newsDates.value)))
  }

  /** The mask `df.index.date.isin(dates)`. `df.index.date` is a NumPy array of
      dates, and a NumPy array has no `isin`: the lookup raises AttributeError. */
  function IndexDateIsin(bars: seq<Bar>, dates: set<Date>): Result<seq<bool>> {
    Err(AttributeMissing)
  }

  /** `_filter_news_dates` as the code stands: building the mask raises, the
      `except Exception` logs the error and hands the frame back unchanged, so no
      row is ever removed, calendar or not. */
  function FilterNewsDatesAsWritten(f: Frame, newsDates: Option<set<Date>>): (r: Frame)
    ensures r == f
  {
    if newsDates.None? then f
    else
      match IndexDateIsin(f.bars, newsDates.value)
      case Err(_) => f
      case Ok(_) => FilterNewsDates(f, newsDates)
  }

  /** A row on a news date: the filter drops it, the code as written keeps it. */
  lemma NewsDateKeptAsWritten()
    ensures
      var b := Bar(0, Label(Date(2024, 1, 2), 1, 43200), Some(1.0), Some(1.0), Some(1.0), Some(1.0), Some(1.0), map[]);
      var f := Frame(AllFields, Some("UTC"), [b]);
      && FilterNewsDatesAsWritten(f, Some({Date(2024, 1, 2)})).bars == [b]
      && FilterNewsDates(f, Some({Date(2024, 1, 2)})).bars == []
  {
    var b := Bar(0, Label(Date(2024, 1, 2), 1, 43200), Some(1.0), Some(1.0), Some(1.0), Some(1.0), Some(1.0), map[]);
    assert [b][1..] == [];
  }

  lemma NewsFilterKeepsOrder(f: Frame, newsDates: Option<set<Date>>)
    ensures Seqs.IsSubsequence(FilterNewsDates(f, newsDates).bars, f.bars)
    ensures TimeOrdered(f.bars) ==> TimeOrdered(FilterNewsDates(f, newsDates).bars)
  {
    if newsDates.Some? {
      Seqs.FilterIsSubsequence(f.bars, NotOnDates(newsDates.value));
      if TimeOrdered(f.bars) {
        FilterKeepsTimeOrder(f.bars, NotOnDates(newsDates.value));
      }
    } else {
      SubsequenceReflexive(f.bars);
    }
  }
}
