# expiry-sim-data-generator in Dafny

A model of the data-preparation core of expiry-sim-data-generator, which turns
per-expiry CSV dumps of NSE index and derivative ticks (NIFTY, BANKNIFTY, their
futures and their weekly and monthly options) into candles, an expiry catalogue
and instrument records.

The model covers four pieces. Each is written once, even where the Go repository
has near-identical copies in several programs.

- **Ticker classification** (`Tickers`, `Text`): `ParseTicker` and its helpers.
  - Futures are `[A-Z]+-FUT` and options are `[A-Z]+[0-9]+(CE|PE)`. Both are
    hand-written recognisers, proved equivalent to their three-group shape.
  - `cleanTicker` is `strings.ReplaceAll(_, "NIFTYWK", "NIFTY")`.
  - A strike is read with `strconv.ParseInt(_, 10, 32)`, including its range
    error.
- **Columnar load and OHLC bucketing** (`Models`, `Columnar`, `Ohlc`,
  `Grouping`, `Sorting`).
  - `readData`, `readData2` and the weekly analysis's `readData` are one loop
    (`Columnar.ReadData`), parameterised by a `Reader`. The `Reader` holds the
    row selector, whether keys go through `cleanTicker`, the timestamp parser
    and the float parser. Each program's selector is instantiated in
    `OptionsTf`, `Expiry` and `AtmWeekly`.
  - The three identical `ohlcDataGroupedByFor` bodies are one method. It is
    proved against a functional fold (`Ohlc.Fold`), and the fold is proved to
    be the per-bucket summary of the ticks in list order.
  - `GroupBy` and `GroupByInt64` are one generic method.
- **Expiry policy** (`Expiry`).
  - The `isNiftyOptionsTicker2` allow-list.
  - The monthly test: a batch is monthly when it has more than five distinct
    days.
  - The expiry is the day of the last instant.
  - The catalogue `underlying -> day -> MONTHLY|WEEKLY` is a class. Its point
    update and its ignore-list deletion loop are methods.
- **Leaves**:
  - the TickData record and its 7-column `ToSlice` (`Models`);
  - the instrument derivation of the DB loader, `main.go` (`Instruments`);
  - the importer's suffix tests (`Importer`);
  - the `Scan`/`Value` pairs of `types.go` (`DbTypes`);
  - `StringContainsIgnoreCase` (`StringUtils`);
  - the in-place `Swap` of `Int64Slice` (`SortUtils`).

Modelling choices:

- **Numbers.** Prices are `real`: they are only compared and copied. OI and
  Volume are `int`. `MaxFloat64` is the exact real `MaxLow`.
- **Parsers and calendar as parameters.** `strconv.ParseFloat`, the timestamp
  parser and the calendar-day function are parameters. `strconv.ParseInt` in
  base 10 is modelled, with its bit-size range check.
- **Go runtime behaviour.**
  - `time.Truncate` is modelled as Go computes it: on the instant's offset
    from year 1. For whole-second durations dividing 62135596800 s, which
    includes the 1, 3 and 5 minute timeframes, this is proved to be
    `(t / s) * s`. A non-positive duration leaves the instant unchanged, as
    in Go, and the bucketing method places no requirement on the duration.
  - `HandleError`/`log.Fatalf` and the reachable panics become a `Failure`
    result (or `None`). A reachable panic is an index out of range after a
    failed match, a short file name, or the last-instant lookup of an empty
    batch in the expiry program (`Expiry.ClassifyExpiry` returns `None`).
  - The panicking `value.([]byte)` type assertion is a precondition in both
    `InstrumentType.Scan` and `NullableInstrumentType.Scan` (where a nil value
    is also allowed). Out-of-range `Swap` indices are a precondition too.

Behaviours of the source that the model makes explicit:

- **Programs disagree on what an option or future is.**
  - `main.go` calls anything ending in `FUT` a future. `NIFTY22MARFUT` passes
    that test, but `symbolFromFut` then fails on it (`Instruments.DatedFuture`,
    `Instruments.DatedFutureFails`).
  - The importer calls anything ending in `CE` or `PE` an option, so `XCE` is
    an option there and spot in `main.go` (`Importer.SuffixOptionIsLoose`).
- **Symbols and underlyings are not normalised everywhere.**
  - In `main.go` the weekly option `NIFTYWK13500PE` gets Symbol and Underlying
    `NIFTYWK`, not `NIFTY`.
  - `ParseTicker` does rewrite the weekly marker
    (`Instruments.WeeklyOptionUnderlying`, `Tickers.ParseWeeklyOptionExample`).
- **The allow-lists differ.**
  - The expiry program accepts spot `NIFTY` and lower-case `nifty-fut`.
  - The multi-timeframe program accepts neither
    (`Expiry.SelectorsDifferOnSpot`, `Expiry.LowerCaseFutureIsSpot`).
  - The weekly analysis loads `NIFTYWK…` contracts but not the monthly
    `NIFTY…` options (`AtmWeekly.RejectsMonthlyOptionAndBankNifty`).

## Model

| member | source | states |
|---|---|---|
| Text.ReplaceAllAbsent | tickers/ticker_utils.go:103-106 | replacing a pattern that does not occur leaves the string unchanged |
| Text.ReplaceAllIdentity | tickers/ticker_utils.go:103-106 | when the replacement is shorter than the pattern, ReplaceAll is the identity exactly when the pattern does not occur, and never lengthens |
| Text.ReplaceAllShrinks | tickers/ticker_utils.go:103-106 | a shorter replacement never lengthens the string and strictly shortens it when the pattern occurs |
| Text.ReplaceAllLength | tickers/ticker_utils.go:103-106 | every rewritten occurrence (leftmost, non-overlapping) changes the length by the difference of replacement and pattern, and there is one exactly when the pattern occurs |
| Text.ReplaceAllLeading | tickers/ticker_utils.go:103-106 | a leading occurrence is replaced first and the remainder is rewritten on its own |
| Text.ReplaceAllKeepsUpper | tickers/ticker_utils.go:103-106 | replacing inside an upper-case string by a non-empty upper-case string keeps it upper-case and non-empty |
| Text.ReplaceAllSplits | tickers/ticker_utils.go:103-106 | a boundary before a non-letter cannot be straddled by an upper-case pattern, so replacement distributes over the two halves |
| Text.EqualFoldIsEquivalence | utils/string_utils.go:7 | case-insensitive equality is reflexive, symmetric and transitive |
| Text.EqualFoldIgnoresCase | utils/string_utils.go:7 | upper- or lower-casing one side does not change case-insensitive equality |
| Text.EqualFoldOfUpper | main.go:175-178 | on upper-case strings case-insensitive equality is plain equality |
| Text.DecimalRoundTrip | tickers/ticker_utils.go:57 | the decimal digits of n read back as n |
| Text.LeadingZero | main.go:223-227 | a leading zero does not change a decimal value |
| Text.ParseInt | tickers/ticker_utils.go:57-61 | base-10 parse: a value exactly when, after an optional + or - sign, one or more digits remain and the signed value fits the bit size; the value is then the digits' value, negated after a minus sign |
| Text.ParseIntRoundTrip | models/models.go:32-35 | every in-range natural printed in decimal parses back to itself |
| Text.ParseFormatRoundTrip | models/models.go:32-35 | every integer of the signed range, negative ones included, parses back from its sign-and-digits spelling |
| Tickers.LetterRun | tickers/ticker_utils.go:77 | the leading run of upper-case letters is maximal |
| Tickers.OptionMatchSound | tickers/ticker_utils.go:77-81 | a match splits the ticker into letters, digits and CE/PE that concatenate back to it |
| Tickers.OptionMatchComplete | tickers/ticker_utils.go:77-81 | every letters+digits+CE/PE string matches, with exactly those three groups |
| Tickers.FutureMatchExact | tickers/ticker_utils.go:69-84 | the future expression matches exactly L-FUT for a non-empty upper-case L, and captures L |
| Tickers.IsOption | tickers/ticker_utils.go:79-81 | the option test is the option recogniser succeeding; OptionMatchSound and OptionMatchComplete show it accepts exactly letters, digits, CE/PE |
| Tickers.IsFuture | tickers/ticker_utils.go:82-84 | the future test is the future recogniser succeeding; FutureMatchExact shows it accepts exactly L-FUT |
| Tickers.FutureAndOptionDisjoint | tickers/ticker_utils.go:79-84 | no ticker is both a future and an option |
| Tickers.CleanTicker | tickers/ticker_utils.go:103-106 | cleanTicker is the identity exactly on strings without NIFTYWK, and the result is shorter by exactly two characters per rewritten NIFTYWK (counted left to right, non-overlapping) |
| Tickers.CleanWeeklyPrefix | tickers/ticker_utils.go:103-106 | a leading NIFTYWK is rewritten to NIFTY and the rest is cleaned on its own |
| Tickers.CleanKeepsOptionShape | tickers/ticker_utils.go:52-60 | cleaning an option keeps it an option, with cleaned letters and the same strike and kind, so parseOptions' error branch is unreachable from ParseTicker |
| Tickers.NoMarkerInDigitsAndKind | tickers/ticker_utils.go:103-106 | a strike followed by CE/PE never contains NIFTYWK |
| Tickers.SymbolFromFut | tickers/ticker_utils.go:71-75 | on a future, the captured symbol is the non-empty upper-case L with ticker == L + "-FUT" |
| Tickers.ParseOptions | tickers/ticker_utils.go:86-101 | succeeds exactly on options, returning the three groups that rebuild the input |
| Tickers.SymbolFromOptions | tickers/ticker_utils.go:108-123 | succeeds exactly on options, returning the cleaned letter prefix |
| Tickers.UnderlyingFromTicker | tickers/ticker_utils.go:12-23 | a future's underlying is its letters before -FUT, an option's the cleaned letter prefix, anything else its own underlying |
| Tickers.ParseTicker | tickers/ticker_utils.go:36-67 | a parsed ticker keeps the raw input, and IsSpot is the negation of IsFuture and IsOption, which never both hold |
| Tickers.ParseFuture | tickers/ticker_utils_test.go:20-30 | L-FUT parses as a future with underlying L, strike 0 and type FUT |
| Tickers.ParseOption | tickers/ticker_utils.go:52-62 | letters+digits+CE/PE parses as an option with the cleaned letters as underlying, the digits' value as strike and the suffix as type, or fails with a strike out of the 32-bit range |
| Tickers.ParseSpot | tickers/ticker_utils.go:12-23 | anything neither future nor option is spot with underlying and raw ticker equal to the input, strike 0 and empty type |
| Tickers.ParseTickerFailsOnlyOnStrike | tickers/ticker_utils.go:52-60 | ParseTicker fails exactly on options whose strike exceeds the 32-bit range, and only with that error |
| Tickers.ExactlyOneKind | tickers/ticker_utils.go:48-50 | a parsed ticker is exactly one of future, option and spot |
| Tickers.ParseSpotExample | tickers/ticker_utils_test.go:9-19 | NIFTY parses as spot NIFTY |
| Tickers.ParseFutureExample | tickers/ticker_utils_test.go:20-30 | NIFTY-FUT parses as a NIFTY future of type FUT |
| Tickers.ParseWeeklyOptionExample | tickers/ticker_utils_test.go:32-42 | NIFTYWK13500PE parses as a PE option on NIFTY with strike 13500 |
| Models.ToSlice | models/models.go:49-59 | ToSlice has seven columns |
| Models.NewTickDataFromSlice | models/models.go:19-45 | succeeds exactly when there are six cells, the four prices parse as floats and OI and Volume parse as 64-bit integers; a wrong count fails with that count |
| Models.ToSliceRoundTrip | models/models.go:49-59 | reading the seven columns back gives the instant and the tick |
| Models.FromSliceRoundTrip | experiments/analyse_atm_weekly.go:60-70 | every readable row is the ToSlice of what it reads as |
| Models.FieldsKeepTheirColumns | models/models.go:24-44 | the instant is column 0, the four prices columns 1-4 in input order, OI column 5 and Volume column 6 |
| Models.ValueToUseForCompute | models/models.go:46-48 | the value used for computation; ComputeValueIsCloseColumn shows it is Close |
| Models.ComputeValueIsCloseColumn | models/models.go:46-48 | the value used for computation is Close, column 4 of ToSlice |
| StringUtils.StringContainsIgnoreCase | utils/string_utils.go:5-12 | true exactly when some element equals the query ignoring case (so false on an empty slice) |
| StringUtils.LiteralMemberFound | utils/string_utils.go:7 | a literal member is always found |
| StringUtils.QueryCaseIrrelevant | utils/string_utils.go:7 | upper- or lower-casing the query does not change the result |
| Sorting.SortedInts | experiments/dump_options_in_various_tf.go:329-332 | the keys come out strictly ascending, each exactly once |
| Sorting.SortedStrings | experiments/dump_options_in_various_tf.go:390-395 | the names come out strictly ascending in byte order, each exactly once |
| Sorting.StrLessTransitive | experiments/dump_options_in_various_tf.go:394 | the byte-wise string order is transitive |
| Sorting.StrLessTotal | experiments/dump_options_in_various_tf.go:394 | any two distinct strings are ordered one way or the other |
| Grouping.FilterMembers | experiments/dump_options_in_various_tf.go:172-179 | a group holds only elements of its key, and every element of that key |
| Grouping.FilterNonEmpty | experiments/dump_options_in_various_tf.go:172-179 | a key's group is non-empty exactly when some element has that key |
| Grouping.GroupBy | experiments/dump_options_in_various_tf.go:170-182 | groups exist exactly for the keys of the elements, and each group is that key's elements in input order |
| Grouping.SizesSumToLength | experiments/dump_data_by_expiry.go:292-301 | the group sizes add up to the input length |
| Ohlc.Truncate | experiments/dump_options_in_various_tf.go:302-303 | time.Truncate on the instant counted from year 1, the instant itself for a non-positive duration; TruncateWholeSeconds and TruncateAligned state its result |
| Ohlc.TruncateWholeSeconds | experiments/dump_options_in_various_tf.go:302-303 | truncating to s whole seconds subtracts the instant's remainder modulo s counted from year 1 |
| Ohlc.TruncateAligned | experiments/dump_options_in_various_tf.go:302-303 | for timeframes dividing the epoch offset, the bucket key is the multiple of s at or below the instant, and the instant lies inside its bucket |
| Ohlc.OhlcDataGroupedByFor | experiments/dump_options_in_various_tf.go:290-335 | the buckets are the functional fold of the ticks, and the returned keys are exactly the bucket keys, strictly ascending |
| Ohlc.MaxHigh | experiments/dump_options_in_various_tf.go:317-319 | the running High is at least 0, bounds every High and is either 0 or one of them |
| Ohlc.MinLow | experiments/dump_options_in_various_tf.go:320-322 | the running Low is at most MaxFloat64, bounds every Low from below and is either MaxFloat64 or one of them |
| Ohlc.SummarySnoc | experiments/dump_options_in_various_tf.go:304-326 | one step of the loop body turns the summary of a bucket into the summary of the bucket extended by the new tick |
| Ohlc.FoldIsSummary | experiments/dump_options_in_various_tf.go:294-326 | a bucket exists exactly when some present tick truncates to its key, and holds the summary of those ticks in list order |
| Ohlc.BucketNonEmpty | experiments/dump_options_in_various_tf.go:294-303 | a bucket's tick list is non-empty exactly when some present instant truncates to its key |
| Ohlc.FoldKeys | experiments/dump_options_in_various_tf.go:294-303 | every bucket key is the truncation of a present instant and every such truncation is a key |
| Ohlc.BucketEnds | experiments/dump_options_in_various_tf.go:304-326 | Open is the first tick's Open; Close and OI are the last tick's; High and Low bound every tick; Volume is the sum of the volumes |
| Ohlc.BucketOfPresentOnly | experiments/dump_options_in_various_tf.go:296-300 | dropping instants without a record of the symbol leaves every bucket's tick list as it was |
| Ohlc.AbsentInstantsChangeNothing | experiments/dump_options_in_various_tf.go:296-300 | instants without a record of the symbol change no bucket |
| Ohlc.FoldGrows | experiments/dump_options_in_various_tf.go:304-326 | folding one more instant never removes a bucket |
| Ohlc.VolumeConserved | experiments/analyse_atm_weekly.go:165-168 | summed over the bucket keys, bucket volumes equal the total volume of the present ticks |
| Ohlc.KeysConserveVolume | experiments/analyse_atm_weekly.go:159-174 | summed over the returned ascending key list, bucket volumes equal the total volume of the present ticks |
| Ohlc.FiveMinuteExample | experiments/dump_options_in_various_tf.go:290-335 | three NIFTY-FUT minutes and an option-only minute fold into one five-minute candle with first Open, max High, min Low, last Close and OI, summed Volume |
| Columnar.TickFields | experiments/dump_options_in_various_tf.go:376-383 | a row yields the six cells Open, High, Low, Close, Open Interest, Volume |
| Columnar.KeyOf | experiments/dump_options_in_various_tf.go:367 | a row's key is the raw ticker, or cleanTicker of it when the loader normalises |
| Columnar.EntryOf | experiments/dump_options_in_various_tf.go:364-386 | a row is skipped exactly when its selector says no; a stored row was accepted and carries its key, its parsed time and its parsed tick |
| Columnar.Store | experiments/dump_options_in_various_tf.go:372-386 | storing sets the (instant, key) cell and adds only that instant |
| Columnar.Entries | experiments/dump_options_in_various_tf.go:364 | one entry per row, in row order |
| Columnar.ReadData | experiments/dump_options_in_various_tf.go:362-396 | the loop fails exactly when the functional load fails and with its error; on success it returns the loaded index and the loaded names strictly ascending, each once |
| Columnar.BuildTimeTicks | experiments/dump_options_in_various_tf.go:353-360 | every index instant exactly once, strictly ascending |
| Columnar.FailsAtFirstAbort | experiments/dump_options_in_various_tf.go:369-370 | a load fails exactly when some entry aborts, with the error of the first such entry |
| Columnar.RowsFailAtFirstAbort | experiments/dump_data_by_expiry.go:165-198 | reading rows fails exactly when some row aborts, with the first aborting row's error |
| Columnar.LastWriteWins | experiments/dump_options_in_various_tf.go:385-386 | after a load, each (instant, key) cell holds the last stored tick for it, or what the index held before |
| Columnar.LastStoreFound | experiments/dump_options_in_various_tf.go:385-386 | a cell written by some entry has a last write |
| Columnar.NamesAreStoredKeys | experiments/dump_options_in_various_tf.go:368 | the returned names are exactly the keys of stored entries |
| Columnar.NamedColumnsExist | experiments/dump_options_in_various_tf.go:368-386 | every returned name has a cell at some instant |
| Columnar.RowsLastWriteWins | experiments/analyse_atm_weekly.go:204-229 | for rows, each cell holds the last accepted row's tick for it, and any written cell has one |
| Columnar.RejectedRowIgnored | experiments/dump_options_in_various_tf.go:366 | appending a row the selector rejects changes nothing |
| Columnar.AcceptedNames | experiments/dump_options_in_various_tf.go:365-368 | the names are exactly the keys of rows the selector accepted |
| OptionsTf.IsNiftyOptionsTicker | experiments/dump_options_in_various_tf.go:412-416 | a future or option whose underlying is NIFTY ignoring case; NiftyDerivativesOnly states which tickers that is |
| OptionsTf.NiftyDerivativesOnly | experiments/dump_options_in_various_tf.go:412-416 | accepted exactly when the ticker is a future with symbol NIFTY or an option whose cleaned letters are NIFTY |
| OptionsTf.AcceptsNiftyFuture | experiments/dump_options_in_various_tf.go:412-416 | NIFTY-FUT is accepted |
| OptionsTf.AcceptsWeeklyNiftyOption | experiments/dump_options_in_various_tf.go:412-416 | the weekly NIFTYWK13500PE is accepted |
| OptionsTf.RejectsBankNiftyFuture | experiments/dump_options_in_various_tf.go:412-416 | BANKNIFTY-FUT is rejected |
| OptionsTf.RejectsSpot | experiments/dump_options_in_various_tf.go:412-416 | spot NIFTY is rejected |
| OptionsTf.BuildBaseOutputDir | experiments/dump_options_in_various_tf.go:184-193 | the future path for futures, else the option path for options, else the spot path; OutputDirFollowsKind ties it to ParseTicker's kind |
| OptionsTf.OutputDirFollowsKind | experiments/dump_options_in_various_tf.go:184-193 | the output directory is the future, option or spot path as ParseTicker classifies the ticker |
| OptionsTf.SliceContains | experiments/dump_options_in_various_tf.go:403-410 | true exactly when the element occurs in the slice |
| OptionsTf.ReadData | experiments/dump_options_in_various_tf.go:362-396 | only time or tick parsing aborts; names are strictly ascending and exactly the cleaned tickers of NIFTY derivative rows |
| Expiry.IsNiftyOptionsTicker2 | experiments/dump_data_by_expiry.go:152-154 | the selector aborts exactly when ParseTicker fails |
| Expiry.SpotSelection | experiments/dump_data_by_expiry.go:156-158 | a spot ticker is accepted exactly when it equals one of the five allowed names ignoring case |
| Expiry.DerivativeSelectionAgrees | experiments/dump_data_by_expiry.go:159-162 | on futures and options it agrees with the multi-timeframe selector: underlying NIFTY ignoring case |
| Expiry.SelectorsDifferOnSpot | experiments/dump_data_by_expiry.go:156-158 | spot NIFTY is accepted here and rejected by the multi-timeframe selector |
| Expiry.BankNiftyFutureRejected | experiments/dump_data_by_expiry.go:159-162 | BANKNIFTY-FUT is rejected |
| Expiry.LowerCaseFutureIsSpot | experiments/dump_data_by_expiry.go:156-158 | nifty-fut is not a future, so it is accepted as an allowed spot name |
| Expiry.ReadData2 | experiments/dump_data_by_expiry.go:165-198 | names are strictly ascending and exactly the raw, uncleaned tickers of accepted rows |
| Expiry.DaysMembers | experiments/dump_data_by_expiry.go:54-56 | the day set is exactly the days of the instants |
| Expiry.ClassifyExpiry | experiments/dump_data_by_expiry.go:53-63 | no result for an empty batch; otherwise monthly exactly when it spans more than five days, and the expiry is the day of the last instant |
| Expiry.ExpiryIsLatestDay | experiments/dump_data_by_expiry.go:62-63 | for ascending instants and a monotone day function, the expiry day is the latest day |
| Expiry.DaysCount | experiments/dump_data_by_expiry.go:54-60 | a batch spans at most as many days as it has instants, and exactly as many when all days differ |
| Expiry.OneDay | experiments/dump_data_by_expiry.go:54-60 | a batch on one day spans one day, so it is weekly |
| Expiry.Label | experiments/dump_data_by_expiry.go:144-147 | MONTHLY exactly for monthly batches, WEEKLY exactly for the others |
| Expiry.WithExpiry | experiments/dump_data_by_expiry.go:139-150 | the catalogue with the batch's label at (underlying, expiry); WithExpiryIsPointUpdate states that nothing else changes |
| Expiry.WithExpiryIsPointUpdate | experiments/dump_data_by_expiry.go:139-150 | only the (underlying, expiry) entry changes, to the batch's label; the underlying is added if new |
| Expiry.WithExpiryKeepsLabels | experiments/dump_data_by_expiry.go:139-150 | a catalogue holding only MONTHLY/WEEKLY labels keeps that property |
| Expiry.WithoutIgnored | experiments/dump_data_by_expiry.go:116-122 | the catalogue without underlyings on the ignore list; IgnorePassRemovesOnlyVix states which remain |
| Expiry.IgnorePassRemovesOnlyVix | experiments/dump_data_by_expiry.go:116-122 | after the pass an underlying remains exactly when it was there and is not INDIAVIX ignoring case, with its entries untouched |
| Expiry.ExpiryCatalog.constructor | experiments/dump_data_by_expiry.go:139-150 | the catalogue starts empty |
| Expiry.ExpiryCatalog.UpdateUnderlyingToExpiryMapping | experiments/dump_data_by_expiry.go:139-150 | the catalogue becomes its point update at (underlying, expiry) |
| Expiry.ExpiryCatalog.RemoveIgnored | experiments/dump_data_by_expiry.go:116-122 | the deletion loop leaves the catalogue without the ignored underlyings |
| AtmWeekly.IsNiftyTicker | experiments/analyse_atm_weekly.go:254-257 | NIFTY, NIFTY-FUT, INDIAVIX or any ticker starting with NIFTYWK; RejectsMonthlyOptionAndBankNifty and WeeklyOptionKey give its cases |
| AtmWeekly.StoredKey | experiments/analyse_atm_weekly.go:240-257 | an accepted ticker is stored as itself, or with its leading NIFTYWK rewritten; either way the key starts with NIFTY or is INDIAVIX |
| AtmWeekly.WeeklyOptionKey | experiments/analyse_atm_weekly.go:240-257 | NIFTYWK+strike+CE/PE is accepted and stored as NIFTY+strike+CE/PE |
| AtmWeekly.WeeklyCallColumn | experiments/analyse_atm_weekly.go:240-243 | NIFTYWK15700CE is accepted and stored as NIFTY15700CE |
| AtmWeekly.RejectsMonthlyOptionAndBankNifty | experiments/analyse_atm_weekly.go:254-257 | the monthly NIFTY15700CE and BANKNIFTY-FUT are not loaded |
| AtmWeekly.ReadData | experiments/analyse_atm_weekly.go:204-238 | only time or tick parsing aborts; names are strictly ascending, exactly the cleaned accepted tickers, each NIFTY… or INDIAVIX |
| Instruments.FindUnderlyingFromSymbol | main.go:173-182 | the result equals the symbol ignoring case and is the symbol itself, NIFTY or BANKNIFTY |
| Instruments.UnderlyingNames | main.go:173-182 | NIFTY exactly for symbols equal to nifty ignoring case, BANKNIFTY likewise, every other symbol unchanged |
| Instruments.UnderlyingIdempotent | main.go:173-182 | mapping an underlying again changes nothing |
| Instruments.UnderlyingExamples | main.go:173-182 | nifty gives NIFTY, BankNifty gives BANKNIFTY, NIFTYWK stays NIFTYWK |
| Instruments.IsOption | main.go:238-240 | the strict option expression, the same test as Tickers.IsOption |
| Instruments.IsFuture | main.go:242-244 | a bare FUT suffix test; FutureTests and DatedFuture relate it to the strict future expression |
| Instruments.IsDerivative | main.go:246-248 | option or suffix future |
| Instruments.IsSpot | main.go:250-252 | not a derivative, with zero OI and zero volume; SpotIsParsedSpot relates it to ParseTicker's spot |
| Instruments.FutureTests | main.go:242-244 | every strict future passes the suffix test, and no option does |
| Instruments.DatedFuture | main.go:242-244 | NIFTY22MARFUT passes the suffix test but is not a strict future |
| Instruments.SpotIsParsedSpot | main.go:250-252 | a spot row here parses as spot, and a parsed spot without the FUT suffix and with zero OI and volume is spot here |
| Instruments.OptionStrikeFromTicker | main.go:194-209 | succeeds exactly on options, with the three groups that rebuild the input |
| Instruments.OptionStrikeRoundTrip | main.go:194-209 | letters, digits and CE/PE come back as exactly those three parts |
| Instruments.SymbolFromFut | main.go:186-190 | a symbol exactly for strict futures, with ticker == symbol + "-FUT" |
| Instruments.ParseDateFromFileName | main.go:221-228 | succeeds exactly when the name has four or more characters and [0,2), [2,4) and [4,end) all parse as 16-bit decimals, and then holds those three values; a name of four or more characters fails only on a number, and the part it names is one that does not parse |
| Instruments.TwoDigits | main.go:222-225 | a two-digit rendering reads back as its number |
| Instruments.FileNameRoundTrip | main.go:221-228 | a day, a month and an in-range year written as DDMMYYYY... read back as that date |
| Instruments.FileNameExample | importer/main.go:65-73 | 28082020 reads as day 28, month 8, year 2020 |
| Instruments.FileNameSignedYear | main.go:221-228 | a signed year part, as in 2808+2020, is accepted as ParseInt accepts it |
| Instruments.FileNameErrors | importer/main.go:65-73 | names too short to slice fail as such, and an empty year fails as a number |
| Instruments.ContainsInside | importer/main.go:29-30 | a pattern inside a string is found |
| Instruments.PathFlags | importer/main.go:29-30 | a path through /monthly/ or /weekly/ sets that flag |
| Instruments.DeriveInstrument | main.go:93-122 | Underlying is taken from the final Symbol; IsSpot is isSpot; LotSize 50 exactly for derivatives; expiry flags are copied; failures are strike or type errors on options, or a suffix-only future, and every suffix-only future fails at symbolFromFut; with DeriveOption, DeriveOptionUnknownKind, DeriveFuture and DeriveOther it fails exactly in those cases |
| Instruments.DeriveOptionUnknownKind | main.go:105-108 | an option whose strike fits in 32 bits but whose suffix NewInstrumentType rejects fails with that suffix |
| Instruments.DeriveOption | main.go:98-111 | an option gets its letters as Symbol, its digits as Strike, LotSize 50 and the kind's type, or a strike-range failure |
| Instruments.DeriveFuture | main.go:113-117 | L-FUT gets Symbol L, type FUT and LotSize 50 |
| Instruments.DeriveOther | main.go:93-122 | a non-derivative keeps its ticker as Symbol, with no strike or lot size and IsSpot when OI and volume are 0 |
| Instruments.WeeklyOptionUnderlying | main.go:98-120 | NIFTYWK13500PE gets Symbol and Underlying NIFTYWK and strike 13500 |
| Instruments.DatedFutureFails | main.go:113-114 | NIFTY22MARFUT reaches symbolFromFut and fails |
| Importer.IsOption | importer/main.go:82-84 | ends in CE or PE; SuffixKinds restates it on the last two characters |
| Importer.IsFuture | importer/main.go:86-88 | ends in FUT, the same test as main.go's (SuffixKinds) |
| Importer.IsDerivative | importer/main.go:90-92 | option or future by suffix; StrictOptionIsOption shows it includes main.go's derivatives |
| Importer.IsSpot | importer/main.go:94-96 | not a suffix derivative, with zero OI and zero volume; SpotIsInstrumentSpot relates it to main.go's spot |
| Importer.SuffixKinds | importer/main.go:82-88 | isOption is a CE/PE last-two-character test, isFuture equals main.go's, and the two never both hold |
| Importer.StrictOptionIsOption | importer/main.go:82-92 | every strict option and every main.go derivative is a derivative here |
| Importer.SpotIsInstrumentSpot | importer/main.go:94-96 | importer spot implies main.go spot, and the converse holds off the CE/PE suffix |
| Importer.SuffixOptionIsLoose | importer/main.go:82-84 | XCE is an option here and spot in main.go |
| DbTypes.ConstantsDistinct | types.go:15-19 | CE, PE and FUT are distinct |
| DbTypes.BytesRoundTrip | types.go:21-28 | bytes read as a string convert back to the same bytes |
| DbTypes.ScanInstrumentType | types.go:21-24 | Scan keeps the bytes as a string that converts back to them |
| DbTypes.NullableScan | types.go:36-43 | NULL gives an empty, invalid type; bytes give a valid type holding those bytes |
| DbTypes.NullableValue | types.go:45-51 | nil exactly when invalid, the type string otherwise |
| DbTypes.NullableRoundTrip | types.go:36-51 | Value after Scan gives NULL for NULL and the same bytes for bytes |
| DbTypes.InstrumentTypeCell.constructor | types.go:13 | the cell holds its initial type |
| DbTypes.InstrumentTypeCell.Scan | types.go:21-28 | Scan stores the bytes, and Value then returns them as a string |
| DbTypes.NullableInstrumentType.constructor | types.go:31-34 | the zero value is empty and invalid |
| DbTypes.NullableInstrumentType.Scan | types.go:36-51 | Scan sets the type and validity as NullableScan, and Value then round-trips the scanned value |
| SortUtils.Swapped | experiments/sort_utils.go:8 | positions i and j exchanged, every other position unchanged |
| SortUtils.SwappedPermutes | experiments/sort_utils.go:8 | swapping preserves the multiset of elements |
| SortUtils.SwappedInvolution | experiments/sort_utils.go:8 | swapping twice restores the slice, in either argument order |
| SortUtils.Len | experiments/sort_utils.go:6 | Len is the slice's length |
| SortUtils.Less | experiments/sort_utils.go:7 | the element at i is smaller than the element at j; LessAfterSwap shows how a swap reverses it |
| SortUtils.LessAfterSwap | experiments/sort_utils.go:7-8 | after a swap, Less(i, j) holds exactly when the old x[j] < x[i] |
| SortUtils.Swap | experiments/sort_utils.go:8 | the array becomes the swapped sequence, and its multiset is preserved |

## Left out

- CSV reading, directory listing, JSON and file output, and the database layer
  (gorm, the instrument cache, batch inserts, the USDINR skip) are I/O. So is
  the per-file driver loop of each program beyond the pieces modelled above.
- `strconv.ParseFloat` and the timestamp parser (`dateparse` with the process's
  local time zone) are function parameters. So is the calendar day
  (`truncateToDay`), because it depends on a foreign library and a time zone.
- The date built in `parseDateFromFileName` by `dateparse.ParseLocal` is not
  modelled. Only the slicing and the three integer parses are.
- `fileNameWithoutExt` is not modelled. It depends on `filepath` rules for
  base names and extensions.
- `NewInstrumentType` is not defined in the repository files shown. It is a
  parameter `string -> Option<string>`.
- `db_utils.go` is not modelled. The 32-bit strike parse it performs is
  `Text.ParseInt` with `Bits32`.
- IEEE floating point is not modelled. Prices are reals, so NaN comparisons and
  the `float64` conversion of OI and Volume in `ToSlice` are exact here.
- The wrap-around of `int64` volume sums is not modelled. The sums are unbounded.
- Map iteration order is not modelled. Every output that depends on it is
  sorted in the source, and the model states the sorted result.
- Aliasing is not modelled: the loaders update the caller's map in place, and
  here they take the index and return the updated one.
- `strings.EqualFold` is modelled on ASCII letters only. Unicode case folding
  is not modelled.
- The `fmt.Printf` in `main.go`'s `symbolFromFut` is output and is not modelled.
- The commented-out `vixAndAtmStraddle` analysis is dead code and is not
  modelled.
- Strings are sequences of characters, while Go slices and compares bytes.
  This differs only for non-ASCII input. For example, `"12é"` is too short to
  slice here, but in Go it has four bytes and fails in the month parse.
  Either way the program stops, with a different error. Byte order and
  code-point order agree, so sorting is unaffected.
- Models.ToSlice: the contract states only the length. The column contents are
  stated by Models.FieldsKeepTheirColumns and Models.ToSliceRoundTrip.
