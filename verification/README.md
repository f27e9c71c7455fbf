# OHLCV cleaning pipeline — a Dafny model

This project models the bar-cleaning core of a market-data repository:

- `process_data` in `shared/data_module.py` and every stage it runs:
  - UTC localisation and conversion to the exchange's zone;
  - the market-hours filter;
  - OHLC validation;
  - diagnostics: gaps, missing data, and MAD/IQR outliers;
  - cleaning: imputation, then OHLC repair;
  - the optional news-date filter.
- The symbol table and table-name helpers of `shared/config.py`.
- The data-quality metadata that `get_clean_market_data` in `shared/data_handler.py` attaches to the processed frame.

A table is a `Bars.Frame`. It holds:
- the set of OHLCV columns present;
- the index's zone (`None` for a naive index);
- a sequence of `Bars.Bar` rows.

Each row holds:
- an absolute instant in seconds;
- a local calendar label (date, weekday, seconds after midnight);
- five `Option<real>` values, where `None` is a pandas NaN;
- a map for any other columns.

NaN follows pandas:
- every comparison with NaN is false (`Bars.Below`);
- row-wise `max`/`min` skip NaN;
- `clip` keeps NaN;
- `median`/`quantile` run on `dropna()` values.

Every exception the code raises becomes an `Outcomes.Error` inside a `Result`. Logging becomes returned reports:
- `Validation.ValidationReport`;
- `Gaps.GapReport`;
- `Missing.ColumnMissing`;
- `Outliers.ColumnScan`;
- `Handler.QualityReport`.

The modules follow the source:
- `Config` (config.py);
- `Timezone`, `CalendarFilters`, `Validation`, `Repair`, `Gaps`, `Missing`, `Stats`, `Outliers`, `Cleaning` and `Pipeline` (data_module.py);
- `Handler` (data_handler.py);
- `Outcomes`, `Seqs` and `Arith` are shared helpers.

Points where the code and its documentation disagree. The model follows the code in each case:

- **The skip branch skips the repair.** When the session rows have no NaN, `_clean_data` returns early (shared/data_module.py:443-445), so `_enforce_ohlc_consistency` never runs. A complete input with high below low therefore comes back with high below low. The `_clean_data` docstring (shared/data_module.py:422-429) lists the OHLC repair among the steps of every cleaning. `Pipeline.CompleteInputSkipsRepair` exhibits this on one concrete bar. `Pipeline.ProcessRepairsWhenImputing` proves the rules hold whenever imputation ran.
- **`local_time` is ignored.** `process_data` always converts to local time.
- **Crypto weekends are dropped.** The crypto symbols are in the symbol table, so the "keep everything" branch of `_filter_to_market_hours` is never taken for them. Their weekend rows are removed (`CalendarFilters.CryptoWeekendsRemoved`).
- **The expected candle count is not rounded**, both in `_analyze_gaps` and in `_analyze_data_quality`.
- **The holiday list is not defined.** `shared/data_module.py` imports `MARKET_HOLIDAYS` from the configuration (line 33), but shared/config.py does not define it. The holiday dates are therefore a parameter (`Pipeline.Env.holidays`).

Two steps of `process_data` cannot do what they are written for (see "## Findings"):
the news filter never removes a row, and the cleaning raises on any NaN once the
iterative imputer is installed. Each is modelled twice. The members named `…AsWritten` follow the
code as it stands. The rest of the model (`Cleaning.CleanData`, `CalendarFilters.FilterNewsDates`,
`Pipeline.ProcessSession`, `Pipeline.ProcessData`, `Handler.GetCleanMarketData`) is the corrected
pipeline, which imputes and drops news dates as the docstrings and tests describe.
`Pipeline.ProcessDataAsWritten` is tied to it: any success of the code as written equals the corrected
pipeline run with the fill fallback and without the news filter.

## Model

| member | source | states |
|---|---|---|
| Bars.ExistingFields | shared/data_module.py:360-361 | the OHLCV columns the frame has, in OHLCV order: a field is listed iff the frame has it |
| Bars.MissingColumnNames | shared/data_module.py:231-234 | the list of absent required columns is empty exactly when all five OHLCV columns are present |
| Config.InstrumentTimezones | shared/config.py:169-172 | the zone map has exactly the symbol table's keys and copies each symbol's zone |
| Config.MarketHours | shared/config.py:177-183 | the hours map has exactly the symbol table's keys, copies open and close, and every window satisfies 0 <= open <= close < 24h |
| Config.GetSymbolInfo | shared/config.py:262-269 | succeeds iff the lower-cased symbol is a key of the table, returning that entry; otherwise fails with the unknown-symbol error |
| Config.SymbolSetsPartition | shared/config.py:39-162 | the tradfi and crypto sets are disjoint, their union is the key set, and tradfi membership agrees with each entry's asset type |
| Config.ClassificationExclusive | shared/config.py:272-279 | no symbol is both tradfi and crypto, and a symbol is known iff it is one of the two |
| Config.GetSymbolInfoCaseInsensitive | shared/config.py:262-269 | looking up the lower-cased symbol gives the same outcome and entry as looking up the symbol |
| Config.ExchangeOrDefault | shared/config.py:312-313 | a missing or empty exchange becomes `binance`; any other is used as given, not lower-cased |
| Config.GetTableName | shared/config.py:297-316 | an unknown symbol fails before the timeframe is checked; then an unknown timeframe fails; otherwise the name is `symbol_tf_tradfi_ohlcv` or `symbol_tf_exchange_crypto_ohlcv` from the lower-cased inputs |
| Config.GetTableNameNeverTypeUnknown | shared/config.py:309-316 | the "Symbol type unknown" error is never returned |
| Config.NamesHaveNoUnderscore | shared/config.py:39-164 | no table symbol and no available timeframe contains `_` |
| Config.ParseFormatRoundTrip | shared/config.py:309-314 | parsing a formatted table name gives back its symbol, timeframe and venue when symbol and timeframe contain no `_` |
| Config.TableNameIdentifiesRequest | shared/config.py:297-314 | a successful table name determines the lower-cased symbol, the lower-cased timeframe and the venue (with its exchange) |
| Timezone.LocalizeUtc | shared/data_module.py:104-106 | a naive index gets a zone, an aware frame is returned unchanged, and the rows, columns and instants are kept |
| Timezone.ConvertToLocalTime | shared/data_module.py:188-208 | fails with the naive-index error iff the index has no zone; otherwise every row is relabelled in the target zone with everything else kept |
| Timezone.ConversionKeepsInstants | shared/data_module.py:203 | conversion keeps the instants, so time order and distinct timestamps survive it |
| CalendarFilters.FilterToMarketHours | shared/data_module.py:139-182 | an unknown symbol returns the frame unchanged; otherwise exactly the weekday, non-holiday rows inside the inclusive trading window are kept |
| CalendarFilters.SessionIsThreeMasks | shared/data_module.py:162-174 | the three masks applied in turn keep the same rows as the single session predicate |
| CalendarFilters.MarketHoursKeepsOrder | shared/data_module.py:162-174 | the kept rows form an order-preserving subsequence, so a time-ordered frame stays time-ordered |
| CalendarFilters.CryptoWeekendsRemoved | shared/data_module.py:153-163 | for `btcusdt` and `ethusdt` every surviving row falls on a weekday |
| CalendarFilters.FilterNewsDates | shared/data_module.py:542-563 | corrected filter: with no calendar the frame is unchanged; otherwise exactly the rows whose local date is not a news date are kept, in order |
| CalendarFilters.FilterNewsDatesAsWritten | shared/data_module.py:542-563 | as written, the frame comes back unchanged whatever the calendar: the mask cannot be built and the `except` returns the input |
| CalendarFilters.NewsDateKeptAsWritten | shared/data_module.py:555-563 | a row on a news date survives the filter as written and is dropped by the corrected one |
| CalendarFilters.NewsFilterKeepsOrder | shared/data_module.py:555 | the news filter keeps an order-preserving subsequence and therefore time order |
| Validation.NanCount | shared/data_module.py:237 | the NaN count of a column is zero iff every row has that value |
| Validation.NonPositiveCount | shared/data_module.py:264-268 | the count of prices <= 0 is zero iff no row has a present non-positive value |
| Validation.NanCounts | shared/data_module.py:237 | each per-column NaN count equals that column's NaN count |
| Validation.NonPositiveCounts | shared/data_module.py:264-268 | each price column gets its non-positive count and volume is never checked |
| Validation.Validate | shared/data_module.py:214-270 | raises iff a required column is absent, naming the absent ones; otherwise each rule's count is zero iff no row breaks that rule, with NaN breaking none |
| Validation.ValidateAfterRepair | shared/data_module.py:214-270 | on repaired output the High<Open/Close and Low>Open/Close counts are zero, and High<Low is zero when each row has an open or a close |
| Validation.RepairDoesNotFixHighBelowLowWithoutOpenClose | shared/data_module.py:510-514 | a row with NaN open and close and high below low is still counted after the repair |
| Repair.MaxPresent | shared/data_module.py:511 | the row-wise max is NaN only when all three are NaN, is one of them, and is below none |
| Repair.MinPresent | shared/data_module.py:514 | the row-wise min is NaN only when all three are NaN, is one of them, and is above none |
| Repair.ClipAtZero | shared/data_module.py:517-518 | NaN stays NaN, a present value becomes non-negative, and a non-negative value is unchanged |
| Repair.RepairBar | shared/data_module.py:508-518 | high becomes one of high, open and close and is below none of them, low one of low, open and close and above none (NaN only when all three are); open, close, instant and labels are kept; a present volume is clipped at 0; the row satisfies the OHLC rules |
| Repair.RepairFixesExactlyInconsistent | shared/data_module.py:508-518 | the repair leaves a row unchanged exactly when the row already satisfies the rules |
| Repair.RepairIdempotent | shared/data_module.py:508-518 | repairing twice is the same as repairing once |
| Repair.RepairKeepsHighBelowLowWithoutOpenClose | shared/data_module.py:510-514 | with open and close NaN, high and low are untouched, so high below low survives |
| Repair.EnforceConsistency | shared/data_module.py:500-520 | fails with a missing-column error iff a price column is absent; otherwise the rows keep their count and order and each row is repaired |
| Repair.RepairKeepsComplete | shared/data_module.py:508-518 | repairing rows without NaN leaves them without NaN |
| Gaps.IntervalMinutes | shared/data_module.py:321-332 | a length is found iff the lower-cased timeframe is m1, m5, m15, h1 or d1, and it is positive |
| Gaps.GapPercent | shared/data_module.py:342-343 | 0 when nothing is expected; otherwise 0 iff expected equals actual, non-negative iff expected >= actual, and below 100 when rows exist |
| Gaps.AnalyzeGaps | shared/data_module.py:303-355 | no report iff fewer than two rows or an unknown timeframe; otherwise the unrounded expected count, the gap and both messages as the code computes them |
| Gaps.RegularSpacingHasNoGap | shared/data_module.py:334-355 | rows exactly one interval apart show a 0% gap and no warning |
| Gaps.SparseSpacingGapNonNegative | shared/data_module.py:334-343 | rows at least one interval apart show a gap in [0, 100) |
| Gaps.OrderedExpectedAtLeastOne | shared/data_module.py:335-343 | when the last row is not before the first, the expected count is >= 1 and the gap is below 100% |
| Missing.MissingPercent | shared/data_module.py:363 | undefined for an empty frame; otherwise in [0, 100], zero iff nothing is missing, above 30 iff missing*100 > 30*rows |
| Missing.ColumnReport | shared/data_module.py:363-375 | a column is reported iff its percentage is positive, and flagged iff it exceeds the 30% tolerance |
| Missing.AnalyzeMissingData | shared/data_module.py:358-377 | one report per existing OHLCV column, in OHLCV order |
| Missing.ToleranceBoundary | shared/data_module.py:372 | exactly 30% missing is not flagged and 31% is |
| Stats.Sort | shared/data_module.py:393-402 | the result is a sorted permutation of the input |
| Stats.Median | shared/data_module.py:393 | the median is the linear 0.5-quantile of the values, and lies between two of them |
| Stats.QuantileIndex | shared/data_module.py:401-402 | the interpolation cell is a valid index whose position brackets (n-1)*q |
| Stats.QuantileBetween | shared/data_module.py:401-402 | the linear quantile lies between the two neighbouring order statistics |
| Stats.QuantileMonotone | shared/data_module.py:401-403 | a larger probability never gives a smaller quantile, so Q1 <= Q3 |
| Stats.MedianIsHalfQuantile | shared/data_module.py:393-401 | the pandas median is the linear 0.5-quantile |
| Stats.ConstantSample | shared/data_module.py:393-402 | for a constant sample the sorted values, the median and every quantile are that constant |
| Outliers.PresentValues | shared/data_module.py:388 | `dropna()` gives the values of the rows where the column is present, in row order and with repeats; their number is the row count minus the NaN count |
| Seqs.CountIsPositions | shared/data_module.py:406 | a mask's sum is the number of positions it marks |
| Outliers.Scan | shared/data_module.py:387-409 | a column is skipped iff it has fewer than three values; otherwise the median is the 0.5-quantile, Q1 and Q3 the 0.25- and 0.75-quantiles, the MAD the median of absolute deviations from the median, and the count is the number of positions the MAD or the IQR rule flags (zero iff none) |
| Outliers.QuartilesAroundMedian | shared/data_module.py:393-403 | Q1 <= median <= Q3 for any non-empty sample |
| Outliers.DetectOutliers | shared/data_module.py:380-415 | one scan per existing OHLCV column, in order, over that column's present values |
| Outliers.ConstantColumnHasNoOutliers | shared/data_module.py:393-409 | a column whose present values are all equal has no outliers |
| Outliers.ConstantFrameHasNoOutliers | shared/data_module.py:380-415 | a frame whose columns are each constant reports no outliers |
| Cleaning.MissingIn | shared/data_module.py:443 | the NaN total over the listed columns is zero iff every listed value is present |
| Cleaning.TotalMissing | shared/data_module.py:440-443 | the NaN total over the existing OHLCV columns is zero iff the frame is complete |
| Cleaning.LastPresent | shared/data_module.py:480 | none iff no value is present up to the entry; otherwise a value from at or before it, and the entry's own value when present |
| Cleaning.NextPresent | shared/data_module.py:480-481 | none iff no value is present from the entry on; otherwise a value from at or after it, and the entry's own value when present |
| Cleaning.FillForward | shared/data_module.py:480 | forward fill keeps present values, fills from existing values, and leaves NaN exactly before the first present value |
| Cleaning.FillBackward | shared/data_module.py:480-481 | backward fill keeps present values, fills from existing values, and leaves NaN exactly after the last present value |
| Cleaning.FillNeighboursCompletes | shared/data_module.py:480-482 | after both fills a column is NaN-free iff it is empty or has a present value |
| Cleaning.FillByNeighbours | shared/data_module.py:478-482 | the fallback imputation fills each existing column forward then backward |
| Cleaning.FillByNeighboursFills | shared/data_module.py:478-482 | a column with a present value is filled completely by the fallback |
| Cleaning.FillByNeighboursKeepsEmpty | shared/data_module.py:478-482 | a column with no present value stays all NaN under the fallback |
| Cleaning.RepairImputed | shared/data_module.py:484-494 | fails iff a price column is absent; otherwise rows, labels and other columns are kept, missing cells are taken from the imputed table, and each row is repaired |
| Cleaning.CleanData | shared/data_module.py:421-497 | corrected cleaning: returns the input when nothing is missing; fails iff imputation gives the wrong shape or a price column is absent; otherwise keeps rows, labels and other columns and repairs every row |
| Cleaning.CleanDataAsWritten | shared/data_module.py:443-482 | as written: the input when nothing is missing; otherwise ImportError without scikit-learn, TypeError once the iterative imputer is installed, and the fill fallback only for a release without it; any success equals the corrected cleaning with the fallback |
| Cleaning.InstalledImputerRaisesAsWritten | shared/data_module.py:456-460 | one missing close: the corrected cleaning returns a complete row, the code as written raises TypeError |
| Cleaning.RepairImputedCompletes | shared/data_module.py:484-489 | writing back values that cover every missing cell and repairing leaves no NaN |
| Cleaning.CleanCompletesWhenImputerFills | shared/data_module.py:443-494 | with an imputer that fills every missing cell, cleaning succeeds without NaN |
| Cleaning.NeighbourFillCompletes | shared/data_module.py:478-494 | with the fallback, cleaning leaves no NaN when every existing column has a present value |
| Cleaning.RepairImputedKeepsNan | shared/data_module.py:484-489 | open, close or volume that stays NaN after imputation stays NaN after the repair |
| Cleaning.NeighbourFillKeepsEmptyColumn | shared/data_module.py:478-494 | with the fallback, an all-NaN open, close or volume column stays all NaN |
| Pipeline.SessionFrame | shared/data_module.py:100-113 | the zone becomes the symbol's zone, columns are kept, every row is in session, and time order is preserved |
| Pipeline.RunDiagnostics | shared/data_module.py:276-300 | gaps are absent iff fewer than two rows or an unknown timeframe, with one missing-data and one outlier report per existing column |
| Pipeline.ProcessSession | shared/data_module.py:115-127 | corrected steps: absent columns fail with the missing-columns error; the only errors are that and a shape mismatch; success keeps columns, zone and session membership and honours the news filter |
| Pipeline.ProcessSessionAsWritten | shared/data_module.py:115-127 | as written, any success is what the corrected steps return with the fill fallback and without the news filter |
| Pipeline.SessionRaisesAsWritten | shared/data_module.py:115-127 | as written: absent columns fail with the missing-columns error; with all columns and a NaN, TypeError when the iterative imputer is installed and ImportError without scikit-learn; no other error |
| Pipeline.DropNews | shared/data_module.py:125-127 | corrected step: without `exclude_news` or without a calendar the frame is unchanged; otherwise the news dates are removed, in order |
| Pipeline.DropNewsKeeps | shared/data_module.py:125-127 | every property all input rows have, all surviving rows have too |
| Pipeline.ProcessData | shared/data_module.py:63-133 | corrected pipeline: empty input is returned unchanged; an unknown symbol fails before any other check; success keeps columns, sets the symbol's zone, keeps only session rows and drops news dates when asked |
| Pipeline.ProcessDataAsWritten | shared/data_module.py:63-133 | as written, any success equals the corrected `process_data` with the fill fallback and without the news filter |
| Pipeline.ProcessRaisesAsWritten | shared/data_module.py:63-133 | as written: empty input is returned; an unknown symbol fails first; the only errors are unknown symbol, missing columns, TypeError and ImportError; a NaN in the session rows with the iterative imputer installed always raises TypeError |
| Pipeline.ProcessKeepsTimeOrder | shared/data_module.py:63-133 | a time-ordered input gives a time-ordered output |
| Pipeline.ProcessCompletesWithFullImputer | shared/data_module.py:63-133 | a known symbol, all five columns and an imputer that fills everything give a NaN-free result |
| Pipeline.ProcessRepairsWhenImputing | shared/data_module.py:121-127 | when the session rows had a NaN, every returned row satisfies the OHLC rules |
| Pipeline.SessionRepairedWhenImputing | shared/data_module.py:115-127 | the same at the level of the session frame |
| Pipeline.CompleteSessionSkipsCleaning | shared/data_module.py:443-445 | a validated session without NaN comes back unchanged apart from the news filter |
| Pipeline.CompleteInputSkipsRepair | shared/data_module.py:443-445 | a complete bar with high below low comes back from `process_data` with high still below low |
| Handler.QualityIntervalMinutes | shared/data_handler.py:137-138 | the interval is the table's length for a known timeframe and the hourly 60 otherwise |
| Handler.RawGapPercent | shared/data_handler.py:141 | the raw-side gap is zero iff the expected raw count equals the fetched count |
| Handler.Lowest | shared/data_handler.py:167 | the minimum is one of the values and below all of them |
| Handler.Highest | shared/data_handler.py:168 | the maximum is one of the values and above all of them |
| Handler.RawSpanAsWritten | shared/data_handler.py:136 | the raw span fails on a positional index and is the time span otherwise |
| Handler.AnalyzeDataQualityAsWritten | shared/data_handler.py:136-141 | on a time index it is the analysis below; on a positional index it always fails |
| Handler.FetchedFrameAlwaysRaises | shared/data_handler.py:136 | on the positional index, the analysis raises IndexError for no rows and AttributeError otherwise |
| Handler.AnalyzeDataQuality | shared/data_handler.py:117-172 | fails iff the raw rows are empty, the raw denominator is zero, or the clean rows are empty; otherwise quality = 100 - gap, counts and names are echoed, quality is 100 iff the expected count is met, and the range spans the clean instants |
| Handler.OtherMissing | shared/data_handler.py:100 | a row's NaN count over its other columns is zero iff they are all present |
| Handler.OtherMissingIn | shared/data_handler.py:100 | the total over rows is zero iff no other-column value is missing |
| Handler.RemainingNan | shared/data_handler.py:100-105 | the logged NaN total is zero iff the frame is complete in every column |
| Handler.GetCleanMarketData | shared/data_handler.py:45-111 | corrected handler: pipeline errors pass through; the returned frame is the pipeline's, unmodified; nothing fetched fails on the empty index; metadata counts match the frames, and the zone is the symbol's |
| Handler.GetCleanMarketDataAsWritten | shared/data_handler.py:45-111 | as written it never succeeds: a pipeline error passes through, and otherwise the analysis raises IndexError when nothing was fetched and AttributeError when something was |
| Handler.OrderedRangeIsEnds | shared/data_handler.py:167-168 | for time-ordered rows the range is the first and last instant |
| Handler.QualityAgreesWithGapAnalysis | shared/data_handler.py:144-151 | for two or more rows and a known timeframe the clean gap equals `_analyze_gaps`'s figure |
| Handler.UnknownTimeframeIsHourly | shared/data_handler.py:137-138 | an unknown timeframe is analysed exactly as `h1` |
| Handler.RegularSpacingFullQuality | shared/data_handler.py:144-152 | a single clean row, or rows exactly one interval apart, give gap 0 and quality 100 |
| Handler.OrderedQualityPositive | shared/data_handler.py:144-152 | time-ordered clean rows give an expected count >= 1, a gap below 100 and a positive quality |
| Handler.SparseSpacingQualityAtMostFull | shared/data_handler.py:144-152 | clean rows at least one interval apart give a quality of at most 100 |
| Handler.ReversedRawIndexDividesByZero | shared/data_handler.py:139-141 | raw rows running back by exactly one interval make the unguarded division fail |
| Handler.OrderedRawDivides | shared/data_handler.py:139-141 | raw rows whose last instant is not before the first never hit the zero denominator |
| Handler.FullImputerLeavesOnlyOtherNan | shared/data_handler.py:100-105 | with an imputer that fills everything, every NaN still counted sits in a non-OHLCV column |

## Findings

| source | as written | input that shows it | evidently intended | confidence | as-written member | corrected member |
|---|---|---|---|---|---|---|
| shared/data_handler.py:136 | the raw span is `(df_raw.index[-1] - df_raw.index[0]).total_seconds()`, but `fetch_ohlcv` returns the time as a `timestamp` column under a positional index (shared/database_connector.py:195-211) | any non-empty fetched frame: the index difference is an integer, which has no `total_seconds` | the raw span measured on the timestamps, as on the clean side | high (not executed) | Handler.AnalyzeDataQualityAsWritten, Handler.FetchedFrameAlwaysRaises, Handler.GetCleanMarketDataAsWritten | Handler.AnalyzeDataQuality, with Handler.OrderedRawDivides; Handler.GetCleanMarketData |
| shared/data_module.py:555 | `df[~df.index.date.isin(news_dates)]`: `df.index.date` is a NumPy array of dates, which has no `isin`; the AttributeError is caught at shared/data_module.py:561-563, which returns the frame unchanged | `exclude_news=True`, a readable `news_calendar.csv`, and a session row whose local date is a news date: the row is kept | the rows on news dates removed, as the function's docstring says | high (not executed) | CalendarFilters.FilterNewsDatesAsWritten, CalendarFilters.NewsDateKeptAsWritten, Pipeline.ProcessDataAsWritten | CalendarFilters.FilterNewsDates, Pipeline.DropNews |
| shared/data_module.py:457-460 | `from sklearn.experimental import enable_iterative_imputer` binds a module, and `enable_iterative_imputer()` calls it; the TypeError is not caught by `except ImportError` at shared/data_module.py:478 | a session with one missing close and scikit-learn with the iterative imputer installed: `process_data` raises | the missing cells imputed and the rows repaired, as tests/test_data_module.py:368-373 expects | high (not executed) | Cleaning.CleanDataAsWritten, Cleaning.InstalledImputerRaisesAsWritten, Pipeline.SessionRaisesAsWritten, Pipeline.ProcessRaisesAsWritten | Cleaning.CleanData, Cleaning.CleanCompletesWhenImputerFills, Pipeline.ProcessCompletesWithFullImputer |

## Left out

- Database access (`fetch_ohlcv`, shared/database_connector.py) is not part of this model. The fetched rows are the `raw` parameter of `Handler.GetCleanMarketData`.
- `set_index('timestamp')`: a `Frame` is always indexed by its rows' instants.
- Logging, and the log and directory setup and environment checks in shared/config.py:13-33. Log messages become fields of the returned reports.
- The time-zone database (`tz_localize`, `tz_convert`). It is the `Bars.Localizer` function carried in `Pipeline.Env`. Only the naive-index error is the repository's own logic.
- `MARKET_HOLIDAYS` is a parameter (`Pipeline.Env.holidays`), because shared/config.py does not define it.
- Reading `news_calendar.csv` is the `Pipeline.Env.news` parameter. `None` stands for a missing or unreadable file, which makes `_filter_news_dates` return its input.
- `StandardScaler` and `IterativeImputer` numerics are an abstract `Cleaning.Imputer`. Standardising and de-standardising is the identity on reals, and the imputer writes only missing cells, so the model takes exactly the missing cells from the imputer's table.
- Cleaning.CleanData: an imputer that drops an all-NaN column makes pandas raise on the frame's shape. The model represents this as an imputer returning the wrong number of rows, because a `seq<Bar>` has no column count.
- Config.Lower: lowers ASCII letters only. Python's `str.lower` also folds other scripts, but every key and timeframe is ASCII lower-case. The one non-ASCII character that lowers to an ASCII letter is the Kelvin sign, which lowers to `k`, and no key contains `k`.
- Pipeline.ProcessData: `df.empty` is also true for a frame with rows but no columns. The model tests only for zero rows.
- IEEE floating point: prices, percentages and the outlier statistics are exact reals.
- Unused configuration (`DEFAULT_DATA_CONFIG`, `DEFAULT_COSTS`, `POSITION_SIZING`, diagnostic seeds, `LOG_LEVEL`, paths).
- The end-of-run log of `process_data` (`df.index.min()`/`max()`) is pure logging.
- Cleaning.CleanData: the corrected cleaning. It applies the imputer, where the code as written raises TypeError at shared/data_module.py:460; Cleaning.CleanDataAsWritten states the code as written.
- Cleaning.CleanCompletesWhenImputerFills: proves success of the corrected cleaning with a filling imputer. As written, the source raises TypeError on that path whenever the iterative imputer is installed (see Cleaning.CleanDataAsWritten).
- Cleaning.CleanDataAsWritten: a scikit-learn release before 0.20, whose `StandardScaler` rejects NaN, is not distinguished from one that merely lacks the iterative imputer.
- CalendarFilters.FilterNewsDates: the corrected filter. As written, the mask raises and the frame comes back unchanged (CalendarFilters.FilterNewsDatesAsWritten).
- Pipeline.DropNews: the corrected news step; as written no row is removed.
- Pipeline.ProcessSession: the corrected steps. Its error set lacks the TypeError and ImportError of the cleaning as written, and it removes news-date rows the code keeps; Pipeline.ProcessSessionAsWritten and Pipeline.SessionRaisesAsWritten state the code as written.
- Pipeline.ProcessCompletesWithFullImputer: proves success with a filling imputer for the corrected pipeline; as written, any NaN in the session rows makes `process_data` raise once the iterative imputer is installed (Pipeline.ProcessRaisesAsWritten).
- Pipeline.ProcessData: the corrected pipeline, besides the `df.empty` point above; Pipeline.ProcessDataAsWritten states the code as written.
- Handler.GetCleanMarketData: the corrected handler, built on the corrected pipeline and quality analysis; as written it never succeeds (Handler.GetCleanMarketDataAsWritten).
