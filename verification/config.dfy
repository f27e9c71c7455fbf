/**
 The symbol and table-name configuration of shared/config.py: the symbol
 table, its derived maps, the cleaning thresholds, and the helpers that look
 symbols up and build database table names.
 */
module Config {
  import opened Outcomes

  datatype AssetClass = TradFi | Crypto

  datatype SymbolInfo = SymbolInfo(
    name: string,
    assetType: AssetClass,
    timezone: string,
    marketOpen: int,   // seconds after local midnight
    marketClose: int
  )

  datatype Hours = Hours(open: int, close: int)

  /** The symbol table, keyed by lower-case symbol. Opening and closing
      times are local wall-clock times written as `hour * 3600 + minute * 60`
      seconds after midnight. */
  const Symbols: map<string, SymbolInfo> := map[
    "deuidxeur" := SymbolInfo("DAX Index", TradFi, "Europe/Berlin", 9 * 3600 + 0 * 60, 17 * 3600 + 30 * 60),
    "usa500idxusd" := SymbolInfo("S&P 500", TradFi, "America/New_York", 9 * 3600 + 30 * 60, 16 * 3600 + 0 * 60),
    "usatechidxusd" := SymbolInfo("Nasdaq 100", TradFi, "America/New_York", 9 * 3600 + 30 * 60, 16 * 3600 + 0 * 60),
    "usa30idxusd" := SymbolInfo("Dow Jones 30", TradFi, "America/New_York", 9 * 3600 + 30 * 60, 16 * 3600 + 0 * 60),
    "eurusd" := SymbolInfo("Euro/US Dollar", TradFi, "Europe/London", 0 * 3600 + 0 * 60, 23 * 3600 + 59 * 60),
    "eurjpy" := SymbolInfo("Euro/Japanese Yen", TradFi, "Europe/London", 0 * 3600 + 0 * 60, 23 * 3600 + 59 * 60),
    "usdcad" := SymbolInfo("US Dollar/Canadian Dollar", TradFi, "America/Toronto", 0 * 3600 + 0 * 60, 23 * 3600 + 59 * 60),
    "nzdcad" := SymbolInfo("New Zealand Dollar/Canadian Dollar", TradFi, "Pacific/Auckland", 0 * 3600 + 0 * 60, 23 * 3600 + 59 * 60),
    "gbpusd" := SymbolInfo("British Pound/US Dollar", TradFi, "Europe/London", 0 * 3600 + 0 * 60, 23 * 3600 + 59 * 60),
    "xauusd" := SymbolInfo("Spot Gold", TradFi, "America/New_York", 0 * 3600 + 0 * 60, 23 * 3600 + 59 * 60),
    "xagusd" := SymbolInfo("Spot Silver", TradFi, "America/New_York", 0 * 3600 + 0 * 60, 23 * 3600 + 59 * 60),
    "lightcmdusd" := SymbolInfo("Light Crude Oil (WTI)", TradFi, "America/New_York", 0 * 3600 + 0 * 60, 23 * 3600 + 59 * 60),
    "ethusdt" := SymbolInfo("Ethereum/Tether", Crypto, "UTC", 0 * 3600 + 0 * 60, 23 * 3600 + 59 * 60),
    "btcusdt" := SymbolInfo("Bitcoin/Tether", Crypto, "UTC", 0 * 3600 + 0 * 60, 23 * 3600 + 59 * 60)
  ]

  const TradfiSymbols: set<string> := {
    "deuidxeur", "usa500idxusd", "usatechidxusd", "usa30idxusd",
    "eurusd", "eurjpy", "usdcad", "nzdcad", "gbpusd",
    "xauusd", "xagusd", "lightcmdusd"
  }

  const CryptoSymbols: set<string> := {"ethusdt", "btcusdt"}

  const AvailableTimeframes: seq<string> := ["m1", "m5", "h1"]

  const DefaultExchange: string := "binance"

  /** Cleaning thresholds. */
  const OutlierThresholdMad: real := 3.0
  const OutlierThresholdIqr: real := 1.5
  const GapTolerancePercent: real := 30.0

  /** Imputation settings (the iterative imputer itself is not modelled). */
  const MiceMaxIter: nat := 10
  const MiceRandomState: nat := 42

  /** Symbol to time-zone name, derived from the symbol table. */
  function InstrumentTimezones(): (m: map<string, string>)
    ensures m.Keys == Symbols.Keys
    ensures forall s :: s in m ==> m[s] == Symbols[s].timezone
  {
    map s | s in Symbols :: Symbols[s].timezone
  }

  /** Symbol to local trading window, derived from the symbol table. */
  function MarketHours(): (m: map<string, Hours>)
    ensures m.Keys == Symbols.Keys
    ensures forall s :: s in m ==> m[s].open == Symbols[s].marketOpen && m[s].close == Symbols[s].marketClose
    ensures forall s :: s in m ==> 0 <= m[s].open <= m[s].close < 86400
  {
    map s | s in Symbols :: Hours(Symbols[s].marketOpen, Symbols[s].marketClose)
  }

  // ---------------------------------------------------------------------
  // Lower-casing (ASCII letters; see README for why this suffices)
  // ---------------------------------------------------------------------

  function LowerChar(c: char): char {
    if 'A' <= c <= 'Z' then (c as int + 32) as char else c
  }

  function Lower(s: string): (r: string)
    ensures |r| == |s|
    ensures forall i :: 0 <= i < |s| ==> r[i] == LowerChar(s[i])
    ensures forall i :: 0 <= i < |s| ==> !('A' <= r[i] <= 'Z')
  {
    seq(|s|, i requires 0 <= i < |s| => LowerChar(s[i]))
  }

  lemma LowerIdempotent(s: string)
    ensures Lower(Lower(s)) == Lower(s)
  {
  }

  // ---------------------------------------------------------------------
  // Lookups
  // ---------------------------------------------------------------------

  /** Metadata of a symbol, looked up case-insensitively. */
  function GetSymbolInfo(symbol: string): (r: Result<SymbolInfo>)
    ensures r.Ok? <==> Lower(symbol) in Symbols
    ensures r.Ok? ==> r.value == Symbols[Lower(symbol)]
    ensures r.Err? ==> r.error == UnknownSymbol(symbol)
  {
    var key := Lower(symbol);
    if key !in Symbols then Err(UnknownSymbol(symbol)) else Ok(Symbols[key])
  }

  function IsTradfiSymbol(symbol: string): bool {
    Lower(symbol) in TradfiSymbols
  }

  function IsCryptoSymbol(symbol: string): bool {
    Lower(symbol) in CryptoSymbols
  }

  /** The tradfi and crypto sets partition the symbol table, in agreement with each entry's asset type. */
  lemma SymbolSetsPartition()
    ensures TradfiSymbols !! CryptoSymbols
    ensures TradfiSymbols + CryptoSymbols == Symbols.Keys
    ensures forall s :: s in Symbols ==> (s in TradfiSymbols <==> Symbols[s].assetType == TradFi)
  {
    assert Symbols.Keys == TradfiSymbols + CryptoSymbols;
  }

  /** A symbol is never both tradfi and crypto, and every known symbol is one of them. */
  lemma ClassificationExclusive(symbol: string)
    ensures !(IsTradfiSymbol(symbol) && IsCryptoSymbol(symbol))
    ensures Lower(symbol) in Symbols <==> IsTradfiSymbol(symbol) || IsCryptoSymbol(symbol)
  {
    SymbolSetsPartition();
  }

  /** Symbol lookup ignores letter case. */
  lemma GetSymbolInfoCaseInsensitive(symbol: string)
    ensures GetSymbolInfo(Lower(symbol)).Ok? == GetSymbolInfo(symbol).Ok?
    ensures GetSymbolInfo(symbol).Ok? ==> GetSymbolInfo(Lower(symbol)).value == GetSymbolInfo(symbol).value
  {
    LowerIdempotent(symbol);
  }

  // ---------------------------------------------------------------------
  // Table names
  // ---------------------------------------------------------------------

  datatype Venue = TradFiVenue | CryptoVenue(exchange: string)

  /** What a table name identifies: `{symbol}_{timeframe}_tradfi_ohlcv` or `{symbol}_{timeframe}_{exchange}_crypto_ohlcv`. */
  datatype TableId = TableId(symbol: string, timeframe: string, venue: Venue)

  const TradfiSuffix: string := "_tradfi_ohlcv"
  const CryptoSuffix: string := "_crypto_ohlcv"

  function FormatTableName(id: TableId): string {
    match id.venue
    case TradFiVenue => id.symbol + "_" + id.timeframe + TradfiSuffix
    case CryptoVenue(ex) => id.symbol + "_" + id.timeframe + "_" + ex + CryptoSuffix
  }

  /** The exchange used for a crypto table: `binance` when none or an empty one is given. */
  function ExchangeOrDefault(exchange: Option<string>): (ex: string)
    ensures exchange.Some? && exchange.value != "" ==> ex == exchange.value
    ensures exchange.None? || exchange.value == "" ==> ex == DefaultExchange
  {
    if exchange.None? || exchange.value == "" then DefaultExchange else exchange.value
  }

  /** The database table holding a symbol's bars for a timeframe. */
  function GetTableName(symbol: string, timeframe: string, exchange: Option<string>): (r: Result<string>)
    ensures Lower(symbol) !in Symbols ==> r == Err(UnknownSymbol(symbol))
    ensures Lower(symbol) in Symbols && Lower(timeframe) !in AvailableTimeframes ==> r == Err(UnknownTimeframe(timeframe))
    ensures r.Ok? <==> Lower(symbol) in Symbols && Lower(timeframe) in AvailableTimeframes
    ensures r.Ok? && IsTradfiSymbol(symbol) ==>
      r.value == Lower(symbol) + "_" + Lower(timeframe) + "_tradfi_ohlcv"
    ensures r.Ok? && IsCryptoSymbol(symbol) ==>
      r.value == Lower(symbol) + "_" + Lower(timeframe) + "_" + ExchangeOrDefault(exchange) + "_crypto_ohlcv"
  {
    var s := Lower(symbol);
    var tf := Lower(timeframe);
    SymbolSetsPartition();
    LowerIdempotent(symbol);
    if s !in Symbols then Err(UnknownSymbol(symbol))
    else if tf !in AvailableTimeframes then Err(UnknownTimeframe(timeframe))
    else if IsTradfiSymbol(s) then Ok(FormatTableName(TableId(s, tf, TradFiVenue)))
    else if IsCryptoSymbol(s) then Ok(FormatTableName(TableId(s, tf, CryptoVenue(ExchangeOrDefault(exchange)))))
    else Err(SymbolTypeUnknown(symbol))
  }

  /** The "Symbol type unknown" error is never raised. */
  lemma GetTableNameNeverTypeUnknown(symbol: string, timeframe: string, exchange: Option<string>)
    ensures GetTableName(symbol, timeframe, exchange) != Err(SymbolTypeUnknown(symbol))
  {
    ClassificationExclusive(symbol);
    LowerIdempotent(symbol);
  }

  // Parsing a table name back into what it identifies.

  /** Position of the first `c` in `s`, or `|s|` when there is none. */
  function IndexOf(s: string, c: char): (k: nat)
    ensures k <= |s|
    ensures forall i :: 0 <= i < k ==> s[i] != c
    ensures k < |s| ==> s[k] == c
  {
    if |s| == 0 then 0
    else if s[0] == c then 0
    else 1 + IndexOf(s[1..], c)
  }

  function EndsWith(s: string, suffix: string): bool {
    |suffix| <= |s| && s[|s| - |suffix|..] == suffix
  }

  /** Inverse of `FormatTableName` on names whose symbol and timeframe contain no underscore. */
  function ParseTableName(name: string): Option<TableId> {
    if EndsWith(name, TradfiSuffix) then
      var body := name[..|name| - |TradfiSuffix|];
      var i := IndexOf(body, '_');
      if i == |body| then None
      else Some(TableId(body[..i], body[i + 1..], TradFiVenue))
    else if EndsWith(name, CryptoSuffix) then
      var body := name[..|name| - |CryptoSuffix|];
      var i := IndexOf(body, '_');
      if i == |body| then None
      else
        var rest := body[i + 1..];
        var j := IndexOf(rest, '_');
        if j == |rest| then None
        else Some(TableId(body[..i], rest[..j], CryptoVenue(rest[j + 1..])))
    else None
  }

  lemma IndexOfSplit(a: string, b: string, c: char)
    requires c !in a
    ensures IndexOf(a + [c] + b, c) == |a|
  {
    var s := a + [c] + b;
    assert s[|a|] == c;
    assert forall i :: 0 <= i < |a| ==> s[i] == a[i];
  }

  lemma ParseFormatRoundTrip(id: TableId)
    requires '_' !in id.symbol && '_' !in id.timeframe
    ensures ParseTableName(FormatTableName(id)) == Some(id)
  {
    var name := FormatTableName(id);
    match id.venue
    case TradFiVenue =>
      var body := id.symbol + "_" + id.timeframe;
      assert name == body + TradfiSuffix;
      assert name[..|name| - |TradfiSuffix|] == body;
      assert EndsWith(name, TradfiSuffix);
      IndexOfSplit(id.symbol, id.timeframe, '_');
      assert body == id.symbol + ['_'] + id.timeframe;
      assert body[..|id.symbol|] == id.symbol;
      assert body[|id.symbol| + 1..] == id.timeframe;
    case CryptoVenue(ex) =>
      var body := id.symbol + "_" + id.timeframe + "_" + ex;
      assert name == body + CryptoSuffix;
      assert name[..|name| - |CryptoSuffix|] == body;
      assert name[|name| - |TradfiSuffix|..] == CryptoSuffix;
      assert !EndsWith(name, TradfiSuffix) by {
        assert CryptoSuffix[1] != TradfiSuffix[1];
      }
      var rest := id.timeframe + "_" + ex;
      assert body == id.symbol + ['_'] + rest;
      IndexOfSplit(id.symbol, rest, '_');
      assert body[..|id.symbol|] == id.symbol;
      assert body[|id.symbol| + 1..] == rest;
      assert rest == id.timeframe + ['_'] + ex;
      IndexOfSplit(id.timeframe, ex, '_');
      assert rest[..|id.timeframe|] == id.timeframe;
      assert rest[|id.timeframe| + 1..] == ex;
  }

  /** No symbol of the table and no available timeframe contains an underscore. */
  lemma NamesHaveNoUnderscore(s: string, tf: string)
    requires s in Symbols && tf in AvailableTimeframes
    ensures '_' !in s && '_' !in tf
  {
  }

  /** A table name identifies the (lower-cased) symbol, timeframe and venue it was built from. */
  lemma TableNameIdentifiesRequest(symbol: string, timeframe: string, exchange: Option<string>)
    requires GetTableName(symbol, timeframe, exchange).Ok?
    ensures ParseTableName(GetTableName(symbol, timeframe, exchange).value) ==
      Some(TableId(Lower(symbol), Lower(timeframe),
        if IsTradfiSymbol(symbol) then TradFiVenue else CryptoVenue(ExchangeOrDefault(exchange))))
  {
    SymbolSetsPartition();
    LowerIdempotent(symbol);
    NamesHaveNoUnderscore(Lower(symbol), Lower(timeframe));
    var id := TableId(Lower(symbol), Lower(timeframe),
      if IsTradfiSymbol(symbol) then TradFiVenue else CryptoVenue(ExchangeOrDefault(exchange)));
    ParseFormatRoundTrip(id);
  }
}
