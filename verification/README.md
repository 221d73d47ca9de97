# Verified model of the quote pipeline

A Dafny model of the currency converter's quote pipeline: the circuit breaker in front of the
exchange, the bounded queue between ticks and the consumer, the two stores a quote is written to
and read from, and the decimal arithmetic a conversion rests on. `dafny verify dfyconfig.toml`
checks everything.

## What is modelled

**Circuit breaker** (`CircuitBreaking`, `BreakerRuns`, `BreakerLoad`, `BreakerTight`,
`BreakerClosing`, `BreakerAnswers`). The class
`CircuitBreaker` updates its three fields in place; its lock is held on admission and on
completion only, so one `call` is two atomic steps, and a run is any interleaving of admissions,
completions (success, counted failure, any other exception) and clock advances. Proved over every
run: the state invariant, the counting law, where a closing step comes from, exactly when it is
recovered from every failure, exactly which calls are let through, and a bound on their number. The bound holds for every run (completions that are not counted failures
appear as terms of their own), specialises to an outage, and is attained.

**Streaming and consuming** (`RateStreaming`, `Consumer`, `Pipeline`, `PipelineProperties`,
`StreamProgress`). The
source and the consumer are classes; the machine in `Pipeline` interleaves ticks, any number of
`stream()` calls, the consumer, `close()` (flag first, drain later) and `stop()`. Proved over
every run: conservation of batches, tick order, one yielding stream, what both flags stop, and
when the next batch can be delivered or never will be.

**Two stores** (`QuoteLog`, `QuoteCache`, `Writers`, `StoreRuns`, `Queries`, `ReadProperties`,
`TableReads`, `CacheExpiry`, `QueryProperties`, `PairCollisions`, `StoreWitnesses`). The table is append-only with the key (symbol, timestamp),
first write wins; the cache is a map with expiry, last write wins. A run has one writer whose
attempts may fail before or after their commit, cache commands lost one by one, expiry, eviction
and reads at any point. Proved over every run: an answer is always committed data, exactly when
cache and table agree, reads never go back in time, history is stable, and exactly which queries
succeed.

**End to end** (`EndToEnd`, `FirstAnswer`). Source, pipeline and stores as one machine, with ticks
that can overlap a refresh of the pairs. Its pipeline goes through a run of `Pipeline` and its
stores through one of `StoreRuns`, so everything proved about those runs holds from the
exchange's tickers to a reader's answer, with hypotheses about the exchange alone.

**Decimals, text and the join** (`Decimals`, `DecimalText`, `Precision`, `Quotes`, `Codecs`,
`TickerJoin`). Rates and amounts are integers in units of 10^-8; prices are reals. Rounding to
the grid is half-up (roundTiesToAway in section 4.3.1 of IEEE 754-2008); a product is rounded
half-even to 28 significant digits. Proved: the rounding laws, the error and monotonicity of a
conversion, text and store round trips, and what the join of tickers and pairs contains.

`Wrappers` holds `Option` and `Result`, `Sequences` the theory of subsequences.

## Hypotheses

- The breaker's clock never runs back; threshold and recovery time are at least 1 (the settings
  demand more than that).
- `StoreRuns` has one writer that stores batches with increasing timestamps and distinct codes,
  one at a time. `EndToEnd.StoresRun` proves this of the composed machine, which only assumes
  that each fetch finds the server's clock later than the fetch before and that tracked pairs
  come from exchange symbols the ingest accepts.
- A composite read is one step. `TableReadRegressesIff` says exactly what happens when the two
  lookups are apart or the cache fails, and `SplitReadCanRegress` gives a run.
- A cache command takes effect before its save ends, or never; an entry is gone at its expiry
  instant; the stores start empty; no row is deleted.
- Times are integers (microseconds), text is ASCII.

## Results about the code worth knowing

- A breaker can go from OPEN straight to CLOSED, with no recovery time after the failure that
  opened it: HALF_OPEN admits any number of calls, and one that returns after another has failed
  closes the breaker (`OpenCanCloseDirectly`). A closing step comes a full recovery time after
  every failure iff the breaker was HALF_OPEN or a reset was due (`ClosesRecoveredIff`); with at
  most one call in flight it always does (`SerialClosesRecovered`).
- A price too large for 28 digits raises the decimal library's `InvalidOperation`, which the
  mapper's `except ValueError` does not catch: one such ticker ends the whole tick, and nothing
  else in the join does (`JoinFailsIff`, with a failing tick in `HugePriceEndsTick`).
- A latest query can fail although the table has a fresh row (`LiveEntryHidesFreshRow`). Without
  rows from the future this happens iff the entry is live and too old (`HidesFreshRowIff`); with
  them, `FreshRowUsedIff` has the condition.
- A pair's code has no separator, so two pairs can share one code (`CodesCollide`): exactly those
  of which one base begins with the other and the rest of it begins the other's quote
  (`CollideIff`). A read for one pair can answer with the data of another exactly then
  (`ReadsMixIff`).
- A code without a letter cannot be cached, and such a quote would keep its whole batch out of
  the cache (`EncodeTickerDefinedIff`, `BuildPipeline`). Ingest never delivers one: it delivers
  exactly the valid pairs whose code has a letter (`IngestedIff`), so from end to end every batch
  can be cached (`StoredBatchEncodes`).
- A cached answer carries the pair that was asked for, a table answer the stored pair; that is why
  `AgreesIff` compares rate and timestamp, and it is the one difference `CacheRefinesLog` leaves
  (`AnswersAlikeIff` has the condition for equal answers in every reachable state).
- If scheduling the ticks fails after a stream call has marked the source as started, nothing
  undoes the mark (rate_source.py:62-86): no batch is ever delivered again and every later stream
  call is turned away (`SchedulingFailureIsFinal`). A started source with nothing in the
  consumer's hands delivers its next batch iff some call is in its loop (`DeliversNext`,
  `NeverDeliversAgain`).
- The clamp to the minimum rate is unreachable (`ClampUnreachable`).
- `docs/api_reference.md` shows converted amounts with eight decimals; the code returns the
  product unquantised, with up to 28 significant digits. The model follows the code.
- The table's rate column has 18 decimals in the database script and 8 in the ORM model; grid
  rates are stored exactly by both.

## Model

| member | source | states |
|---|---|---|
| CircuitBreaking.CircuitBreaker.constructor | converter/adapters/outbound/external/binance/client.py:43-56 | a breaker starts CLOSED, with no failures and no failure time |
| CircuitBreaking.CircuitBreaker.Admit | converter/adapters/outbound/external/binance/client.py:58-72 | under the lock: OPEN rejects before the recovery time and turns HALF_OPEN after it; the call is admitted with the resulting state as its snapshot |
| CircuitBreaking.CircuitBreaker.AttemptReset | converter/adapters/outbound/external/binance/client.py:105-109 | a reset is attempted only with a known failure at least the recovery time ago |
| CircuitBreaking.CircuitBreaker.OnSuccess | converter/adapters/outbound/external/binance/client.py:86-90 | the count is cleared and the breaker CLOSED, whatever state it is in; the failure time stays |
| CircuitBreaking.CircuitBreaker.OnFailure | converter/adapters/outbound/external/binance/client.py:92-103 | the failure is counted and timed, and opens the breaker from the threshold on |
| CircuitBreaking.CircuitBreaker.Complete | converter/adapters/outbound/external/binance/client.py:74-84 | success counts only for calls admitted in HALF_OPEN, expected failures always, other exceptions never |
| BreakerRuns.InvAlways | converter/adapters/outbound/external/binance/client.py:53-55 | in every reachable state CLOSED iff the count is below the threshold, and not CLOSED implies a known failure time, so the None branch is never met from OPEN |
| BreakerRuns.CountsFailuresSinceReset | converter/adapters/outbound/external/binance/client.py:74-103 | the count is the number of expected failures since the last reset or construction, over any interleaving |
| BreakerRuns.FirstOpensAtThreshold | converter/adapters/outbound/external/binance/client.py:92-103 | the breaker has always been CLOSED iff fewer than threshold failures were recorded: it first opens at exactly the threshold-th |
| BreakerRuns.ClosedAdmitsClosed | converter/adapters/outbound/external/binance/client.py:72-78 | before the first opening no call holds another snapshot than CLOSED and nothing resets the count |
| BreakerRuns.LastFailureIsLatest | converter/adapters/outbound/external/binance/client.py:92-95 | the recorded failure time is no earlier than any failure of the run |
| BreakerRuns.SnapshotIsAdmissionPhase | converter/adapters/outbound/external/binance/client.py:61-72 | an in-flight call's snapshot is the state right after its own admission |
| BreakerRuns.HalfOpenHasProbe | converter/adapters/outbound/external/binance/client.py:62-65 | every HALF_OPEN spell began with an admission from OPEN a full recovery time after every earlier failure |
| BreakerRuns.ClosingProvenance | converter/adapters/outbound/external/binance/client.py:61-90 | every step into CLOSED completes a call admitted in HALF_OPEN, in a spell that began a full recovery time after every failure before it |
| BreakerRuns.OpenCanCloseDirectly | converter/adapters/outbound/external/binance/client.py:77-90 | a run in which the breaker goes from OPEN to CLOSED with no recovery time after its last failure |
| BreakerLoad.AccountsAlways | converter/adapters/outbound/external/binance/client.py:61-103 | admitted calls are failed, otherwise completed or in flight, and per state the failures stay within what resets and half-open spells allow |
| BreakerLoad.PacedAlways | converter/adapters/outbound/external/binance/client.py:61-65 | half-open spells begin at least a recovery time apart |
| BreakerLoad.LoadBound | converter/adapters/outbound/external/binance/client.py:61-109 | for every run with at most K calls in flight, admissions are bounded by (resets+1)(threshold+K-1) + K*floor(elapsed/recovery) plus the completions that are not expected failures |
| BreakerLoad.BoundInClosedForm | converter/adapters/outbound/external/binance/client.py:61-109 | the bound as a formula in threshold, K, resets and elapsed time |
| BreakerLoad.OutageLoadBound | converter/adapters/outbound/external/binance/client.py:61-109 | if every completion is an expected failure, at most threshold+K-1+K*floor(elapsed/recovery) calls get through |
| BreakerTight.BoundAttained | converter/adapters/outbound/external/binance/client.py:61-109 | for every threshold, recovery, K and number of recovery times, an outage that lasts exactly that long and admits exactly the bound |
| BreakerTight.BoundIsTight | converter/adapters/outbound/external/binance/client.py:61-109 | hence the outage bound cannot be improved |
| BreakerClosing.ClosesRecoveredIff | converter/adapters/outbound/external/binance/client.py:77-109 | a step into CLOSED comes a full recovery time after every failure recorded before it iff the breaker was HALF_OPEN, or OPEN with a reset due |
| BreakerClosing.LastFailureHappened | converter/adapters/outbound/external/binance/client.py:95 | the remembered failure time is that of a failure of the run |
| BreakerClosing.HalfOpenIsRecovered | converter/adapters/outbound/external/binance/client.py:62-65 | in HALF_OPEN every failure of the run is a full recovery time ago |
| BreakerClosing.SerialClosesRecovered | converter/adapters/outbound/external/binance/client.py:61-90 | with at most one call in flight no step goes from OPEN to CLOSED, and every close comes a full recovery time after every failure |
| BreakerAnswers.AdmittedIff | converter/adapters/outbound/external/binance/client.py:61-72 | over every run an admission lets its call through iff the breaker is not OPEN or every failure of the run is a full recovery time ago |
| BreakerAnswers.AdmissionEffect | converter/adapters/outbound/external/binance/client.py:61-72 | a rejection changes nothing; an admitted call carries the phase the breaker then has, which changes only from OPEN to HALF_OPEN |
| BreakerAnswers.CompletionEffect | converter/adapters/outbound/external/binance/client.py:74-103 | the phase after a completion, from the snapshot, the outcome and the number of failures since the last reset |
| Decimals.HalfUpCharacterised | converter/domain/services/precision_service.py:30-43 | half-up rounding yields the one integer within a half, ties away from zero |
| Decimals.HalfUpMonotone | converter/domain/services/precision_service.py:34-43 | rounding never reverses an order |
| Decimals.QuantizeLaws | converter/domain/services/precision_service.py:23-43 | quantising lands on the grid within half a unit, is monotone, and leaves grid values alone |
| Decimals.ExcessBounds | converter/domain/values/amount.py:13-14 | how many digits of a product lie beyond the 28th |
| Decimals.LimitIsPower | converter/domain/services/precision_service.py:10-11 | a coefficient of 28 digits is one below 10^28, and the grid unit is 10^-8 |
| Decimals.Round28Representable | converter/domain/values/amount.py:13-14 | the rounded product has at most 28 significant digits |
| Decimals.Round28Nearest | converter/domain/values/amount.py:13-14 | no number of at most 28 significant digits is nearer to the exact product |
| Decimals.Round28TiesToEven | converter/domain/values/amount.py:13-14 | a product half way between two neighbours goes to the even one |
| Decimals.Round28Monotone | converter/domain/values/amount.py:13-14 | a larger exact product never rounds to less |
| Decimals.Round28ExactIff | converter/domain/values/amount.py:13-14 | nothing is lost iff all digits beyond the 28th are zero |
| Precision.CreateRateDefinedIff | converter/domain/services/factory/rates_factory.py:12-21 | a rate is created iff the value is at least half a unit (and quantises to 28 digits); which error is raised otherwise |
| Precision.CreateAmountDefinedIff | converter/domain/services/factory/amounts_factory.py:11-13 | an amount is created iff the value does not round below zero (and quantises); which error otherwise |
| Precision.ClampUnreachable | converter/domain/services/factory/rates_factory.py:18-21 | the created rate is the quantised value: the clamp never applies |
| Precision.RecreateRate | converter/adapters/outbound/persistence/redis/mapper.py:11-13 | creating a rate again from a stored grid value returns it unchanged |
| Precision.RoundingError | converter/domain/values/amount.py:13-14 | the product is off by at most half a unit in its 28th digit |
| Precision.ExactProductError | converter/domain/services/precision_service.py:30-43 | the two input roundings move the product by at most (a+p)*10^-8/2 + 10^-16/4 |
| Precision.ConversionError | converter/domain/values/rate.py:18-19 | the returned amount differs from a*p by at most both errors together |
| Precision.ConversionExactIff | converter/domain/values/amount.py:13-14 | the product of the rounded inputs is exact iff it has no nonzero digit beyond the 28th |
| Precision.ConversionMonotone | converter/domain/values/rate.py:18-19 | a larger amount or a higher price never yields less |
| DecimalText.TextRoundTrip | converter/adapters/outbound/persistence/redis/models.py:24-44 | the text of a grid decimal, scientific or plain, reads back as exactly that decimal |
| DecimalText.GridDecimalValue | converter/adapters/outbound/persistence/redis/models.py:28 | the decimal read back has the grid number's value |
| DecimalText.DigitsRoundTrip | converter/adapters/outbound/persistence/redis/models.py:28-42 | decimal digits of a number read back as the number |
| DecimalText.PlainRoundTrip | converter/adapters/outbound/persistence/redis/models.py:28-42 | the round trip from one up |
| DecimalText.FractionRoundTrip | converter/adapters/outbound/persistence/redis/models.py:28-42 | the round trip below one, written with leading zeros |
| DecimalText.ScientificRoundTrip | converter/adapters/outbound/persistence/redis/models.py:28-42 | the round trip below 10^-6, written with an exponent |
| DecimalText.FormatShape | converter/adapters/outbound/persistence/redis/models.py:42 | which text a grid decimal has: eight decimals without needless zeros from 10^-6 on, one or two digits with an exponent below |
| DecimalText.ParseIff | converter/adapters/outbound/persistence/redis/models.py:28 | a text is read iff it is digits with at most one point, alone or followed by an exponent |
| DecimalText.ParseMantissaIff | converter/adapters/outbound/persistence/redis/models.py:28 | the digits around the point, and the decimal they denote |
| DecimalText.ParseExponentIff | converter/adapters/outbound/persistence/redis/models.py:28 | the exponent's sign and digits, and the number they denote |
| Quotes.CreateCurrencyIff | converter/domain/values/currency.py:9-20 | a code constructs iff it has 1 to 20 letters, digits and underscores, not underscores alone; the currency is its upper-case form, character by character |
| Quotes.CreatePairIff | converter/domain/values/pair.py:11-15 | two codes make a pair iff both construct and differ in upper case |
| Quotes.CreateCurrencyTwice | converter/domain/values/currency.py:9-20 | constructing a currency from a constructed code changes nothing |
| Quotes.ConstructedPairsAreValid | converter/domain/values/pair.py:11-15 | every constructed pair can be constructed again from its own codes |
| Quotes.ValidPairsHaveNoLower | converter/domain/values/currency.py:18-20 | a pair's code is not empty and has no lower-case letter |
| Quotes.CodesCollide | converter/domain/values/pair.py:24-26 | two different valid pairs can have the same code |
| PairCollisions.CollideIff | converter/domain/values/pair.py:24-26 | two pairs have one code iff they are equal, or one base is a proper prefix of the other and the remainder begins the shorter one's quote |
| PairCollisions.AnswerHasOneOwner | converter/adapters/outbound/persistence/repositories/composite_quote_repository.py:13-19 | every answer is the data stored for exactly one pair, which is the requested one or overlaps it |
| PairCollisions.ReadsMixIff | converter/adapters/outbound/persistence/redis/quote_writer.py:79-80 | asking for one pair can, in some run, answer with the data stored for another iff the two overlap |
| Codecs.RowRoundTrip | converter/adapters/outbound/persistence/sqlalchemy/mapper.py:14-39 | a stored row reads back as the quote that was stored |
| Codecs.EncodeTickerDefinedIff | converter/adapters/outbound/persistence/redis/models.py:12-19 | a quote can be cached iff its code contains a letter |
| Codecs.TickerRoundTrip | converter/adapters/outbound/persistence/redis/mapper.py:11-27 | a cached quote reads back with the stored rate and timestamp and the requested pair |
| Codecs.DecodeTickerIff | converter/adapters/outbound/persistence/redis/models.py:22-37 | a cached ticker is read iff its rate is the text of a decimal that makes a rate and its symbol is upper-case text |
| Codecs.DecodeRowIff | converter/adapters/outbound/persistence/sqlalchemy/mapper.py:14-27 | a row is read iff its currencies make a pair and its decimal a rate |
| Codecs.SymbolsGuaranteeCodec | converter/adapters/outbound/external/binance/models/symbol.py:16-33 | for accepted symbols whose currencies construct, code equals symbol and every quote can be cached and read back unchanged |
| Codecs.IngestedIff | converter/adapters/outbound/external/binance/models/symbol.py:16-33 | the pairs ingest can deliver are exactly the valid ones whose code has a letter |
| TickerJoin.TickerMap | converter/adapters/outbound/external/binance/mapper.py:28 | the dictionary holds the last ticker of each symbol |
| TickerJoin.PairMap | converter/adapters/outbound/external/binance/mapper.py:29 | the dictionary holds the last pair of each code, in order of first insertion |
| TickerJoin.TickersToQuotes | converter/adapters/outbound/external/binance/mapper.py:25-55 | the loop computes the join specified by scanning all tickers and pairs for each symbol, and ends with the error of a price that is too large |
| TickerJoin.LastPairIsLast | converter/adapters/outbound/external/binance/mapper.py:29 | the pair used is the last with its code, and there is none iff no pair has the code |
| TickerJoin.LastTickerIsLast | converter/adapters/outbound/external/binance/mapper.py:28 | the ticker used is the last of its symbol, and there is none iff no ticker has the symbol |
| TickerJoin.RateForIff | converter/adapters/outbound/external/binance/mapper.py:33-46 | a symbol gets a rate iff the price of its last ticker is at least half a unit and rounds to it; no ticker, or a price below, gives none |
| TickerJoin.SymbolsAreFirstOccurrences | converter/adapters/outbound/external/binance/mapper.py:29-32 | symbols are scanned once each, in the order in which they first occur |
| TickerJoin.JoinExact | converter/adapters/outbound/external/binance/mapper.py:31-55 | said of the tickers and pairs themselves: a quote comes out iff it is a tracked symbol's last pair at the rounded price of its last ticker; the order is that of the symbols |
| TickerJoin.TickQuotesExact | converter/adapters/outbound/external/binance/mapper.py:25-55 | over a whole tick a quote comes out iff it is the quote of its own code |
| TickerJoin.JoinFailsIff | converter/adapters/outbound/external/binance/mapper.py:43-53 | the tick fails iff some tracked symbol's last price needs more than 28 digits |
| TickerJoin.HugePriceEndsTick | converter/adapters/outbound/external/binance/mapper.py:43-53 | tickers of which the last one has a price too large, so that the tick fails, and which give a quote without it |
| TickerJoin.JoinIsBatch | converter/adapters/outbound/external/binance/mapper.py:25-55 | the output has valid quotes, one timestamp and pairwise distinct codes |
| QuoteLog.Newest | converter/adapters/outbound/persistence/sqlalchemy/quote_repository.py:71-83 | the row with the greatest timestamp of the symbol up to the bound, none iff no row matches |
| QuoteLog.NewestIsUnique | converter/adapters/outbound/persistence/sqlalchemy/quote_repository.py:35-43 | with distinct keys ordering and limiting has only one possible result |
| QuoteLog.InsertBatchLaws | converter/adapters/outbound/persistence/sqlalchemy/quote_writer.py:36-45 | old rows stay, keys stay distinct, every key of the batch is present, every new row is a row of the batch |
| QuoteLog.NothingNew | converter/adapters/outbound/persistence/sqlalchemy/quote_writer.py:40-42 | inserting only existing keys changes nothing |
| QuoteLog.InsertTwice | converter/adapters/outbound/persistence/sqlalchemy/quote_writer.py:40-42 | a second insert of the same batch is a no-op |
| QuoteLog.LaterRowsIrrelevant | converter/adapters/outbound/persistence/sqlalchemy/quote_repository.py:71-83 | rows beyond a bound never change what is newest up to it |
| QuoteCache.LastDeliveredWins | converter/adapters/outbound/persistence/redis/quote_writer.py:51-58 | after a pipeline a key holds the entry of its last delivered command |
| QuoteCache.OtherKeysStay | converter/adapters/outbound/persistence/redis/quote_writer.py:51-58 | and what it held before if none was delivered |
| Writers.PostgresQuoteWriter.SaveBatch | converter/adapters/outbound/persistence/sqlalchemy/quote_writer.py:30-72 | all rows of the batch or none; raises for a failure before or after the commit; an empty batch does nothing |
| Writers.RedisQuoteWriter.BuildPipeline | converter/adapters/outbound/persistence/redis/quote_writer.py:51-56 | one command per quote in order, and none at all if some quote cannot be encoded |
| Writers.RedisQuoteWriter.SaveBatch | converter/adapters/outbound/persistence/redis/quote_writer.py:29-76 | exactly the delivered commands take effect, in order; no error escapes |
| Writers.CompositeQuoteWriter.SaveBatch | converter/adapters/outbound/persistence/repositories/composite_quote_writer.py:20-40 | table first; the cache is touched only if the table's save did not raise |
| Writers.AttemptsMade | converter/adapters/inbound/consumer/quote_consumer.py:105-109 | attempts end with the first that does not raise, or with the last allowed |
| Writers.OccurrencesOfDistinct | converter/adapters/outbound/persistence/sqlalchemy/quote_writer.py:40-42 | with distinct keys a key occurs once if at all |
| Writers.ExactlyOnce | converter/adapters/inbound/consumer/quote_consumer.py:101-112 | whichever attempts raised, committed or not, the table is unchanged or holds every quote of the batch exactly once and nothing else new |
| Consumer.QuoteConsumer.HandleBatch | converter/adapters/inbound/consumer/quote_consumer.py:74-83 | a batch is discarded after stop, skipped if empty, otherwise processed; the stores change only when it is processed |
| Consumer.QuoteConsumer.ProcessBatch | converter/adapters/inbound/consumer/quote_consumer.py:101-125 | the retry loop leaves the batch in the table iff one of the attempts made committed, and the cache as the attempt that did not raise left it |
| Consumer.QuoteConsumer.Stop | converter/adapters/inbound/consumer/quote_consumer.py:92-99 | sets the flag and closes the source once: its flag set, its queue empty |
| StoreRuns.InvAlways | converter/adapters/outbound/persistence/repositories/composite_quote_writer.py:20-24 | in every reachable state keys are distinct, rows are valid, each entry mirrors a committed row of its symbol, and lags the newest row iff a commit of the symbol never reached the cache |
| StoreRuns.CommitKeepsInv | converter/adapters/outbound/persistence/sqlalchemy/quote_writer.py:36-45 | committing, even repeatedly or unacknowledged, keeps that invariant |
| StoreRuns.NewestAfterInsert | converter/adapters/outbound/persistence/sqlalchemy/quote_writer.py:36-45 | after a commit the newest row is the batch's for its symbols and unchanged for all others |
| StoreRuns.PutsAreOnePipeline | converter/adapters/outbound/persistence/redis/quote_writer.py:51-58 | cache steps taken one by one do what one pipeline does |
| StoreRuns.RetriesAreARun | converter/adapters/inbound/consumer/quote_consumer.py:101-112 | the retry loop's effect on both stores is the effect of a stretch of the run machine |
| StoreRuns.GivesUpAfterThree | converter/adapters/inbound/consumer/quote_consumer.py:105-109 | a failing batch is tried exactly three times, with the batch in the table iff one attempt committed |
| ReadProperties.AnswerIsCommitted | converter/adapters/outbound/persistence/repositories/composite_quote_repository.py:13-19 | whatever cache writes were lost, a read answers with the rate and timestamp of a committed row of the symbol, and with none iff there is no such row |
| ReadProperties.AgreesIff | converter/adapters/outbound/persistence/repositories/composite_quote_repository.py:13-19 | a read agrees with the table alone iff not (the entry is live and a later commit of the symbol never reached the cache) |
| ReadProperties.AnswersAlikeIff | converter/adapters/outbound/persistence/repositories/composite_quote_repository.py:13-19 | in every reachable state composite and table give the same answer, pair included, iff not (the entry is live and is behind or about a row stored for another pair) |
| ReadProperties.FaithfulKeepsUp | converter/adapters/outbound/persistence/redis/quote_writer.py:50-58 | if every committed batch reaches the cache, be it by a retry, only quotes still to be cached are behind |
| ReadProperties.CacheRefinesLog | converter/adapters/outbound/persistence/repositories/composite_quote_writer.py:20-24 | between such saves the composite answers exactly what the table answers, whatever has expired or was evicted, unless a live entry's row was stored for another pair with the same code: then, and only then, the pair in the answer differs |
| ReadProperties.AnswerTimeGrows | converter/adapters/outbound/persistence/repositories/composite_quote_repository.py:13-19 | the timestamp of the answer never decreases along a run |
| ReadProperties.MonotonicReads | converter/adapters/outbound/persistence/repositories/composite_quote_repository.py:13-19 | successive reads of a pair never go back in time, over every run with lost writes, retries, expiry and eviction |
| TableReads.TableReadRegressesIff | converter/adapters/outbound/persistence/redis/quote_repository.py:35-61 | a read answered by the table, after a failed or an earlier missed cache lookup, is never behind an earlier read, and any later read goes back in time iff it still finds live the entry that was behind |
| TableReads.OldEntryStays | converter/adapters/outbound/persistence/redis/quote_writer.py:56 | an entry older than the batches of some state is the entry of that state |
| CacheExpiry.HitIff | converter/adapters/outbound/persistence/redis/quote_repository.py:35-61 | the cache has an answer iff a command for the symbol took effect less than the ttl ago and was not evicted since; the answer of the read is then the last such command's quote |
| CacheExpiry.ExpiredAnswersFromTable | converter/adapters/outbound/persistence/redis/quote_writer.py:56 | without such a command the cache misses and the table answers |
| CacheExpiry.EntryIff | converter/adapters/outbound/persistence/redis/quote_writer.py:56 | a symbol has an entry iff a command for it was not evicted since, and it is that of the last command, expiring its ttl later |
| CacheExpiry.EvictedIsMiss | converter/adapters/outbound/persistence/redis/quote_repository.py:38-45 | an entry can be evicted at any time, is a miss then, and no other entry changes |
| QueryProperties.RowsOnlyAppended | converter/adapters/outbound/persistence/sqlalchemy/quote_writer.py:40-42 | no step changes or removes a row; keys stay distinct |
| QueryProperties.HistoryIsStable | converter/adapters/outbound/persistence/sqlalchemy/quote_repository.py:66-83 | the answer at t stays the same over every stretch of a run in which no batch with a quote of the symbol is under way or begun that does not lie after t |
| QueryProperties.ClosedHistoryIsFinal | converter/adapters/outbound/persistence/sqlalchemy/quote_writer.py:40-42 | once a batch at or after t was begun and none up to t is under way, the answer at t is the same after every continuation |
| QueryProperties.HistoricalOutcome | converter/app/queries/get_conversion.py:50-66 | a query at t succeeds iff some row lies in [t-max_age, t], is not found iff no row is at or before t, is too old otherwise, and never meets the negative-age error |
| QueryProperties.HistoricalChoice | converter/adapters/outbound/persistence/sqlalchemy/quote_repository.py:71-83 | it uses the unique greatest timestamp up to t and that row's rate, and answers with the rounded product and the original amount |
| QueryProperties.LatestOutcome | converter/domain/services/quote_freshness_service.py:22-41 | each outcome of a latest query, checked at any time after the lookup, characterised by the timestamp of the answer, including the negative-age error for a quote from the future |
| QueryProperties.LatestChoice | converter/app/queries/get_conversion.py:63-73 | a successful latest query answers the original amount, the time of the answer, the rate of a row of the symbol with that time, and their rounded product |
| QueryProperties.FreshRowUsedIff | converter/app/queries/get_conversion.py:50-66 | when the table has a fresh row, the latest query succeeds iff the live entry is fresh, or there is none and no row of the symbol is from the future |
| QueryProperties.HidesFreshRowIff | converter/app/queries/get_conversion.py:50-66 | without rows from the future it fails beside a fresh row iff the entry is live and too old, and then as too old |
| QueryProperties.CoveredAlways | converter/adapters/outbound/persistence/redis/quote_writer.py:56 | if nothing is evicted and no quote is from the future when it reaches the cache, every entry outlives its quote by the ttl and every symbol not behind has one |
| QueryProperties.MissImpliesStale | converter/shared/config/settings.py:144-151 | with ttl above the maximum age, a miss for a symbol whose last commit reached the cache means that the table's newest row is already too old, then and later |
| QueryProperties.LatestSucceedsIff | converter/shared/config/settings.py:144-151 | for such a symbol the latest query succeeds iff the table holds a row fresh at the time of the check, and then the cache alone had the answer |
| QueryProperties.LatestSucceedsBetweenSaves | converter/shared/config/settings.py:144-151 | the same for every pair, between saves of a run in which every committed batch reached the cache |
| StoreWitnesses.LostWrite | converter/adapters/outbound/persistence/redis/quote_writer.py:68-76 | a run in which the second of two cache writes is lost |
| StoreWitnesses.SplitReadCanRegress | converter/adapters/outbound/persistence/repositories/composite_quote_repository.py:13-19 | with the two lookups of a read at different times, the next read can answer with an older quote |
| StoreWitnesses.LiveEntryHidesFreshRow | converter/adapters/outbound/persistence/repositories/composite_quote_repository.py:16-17 | after a lost write the latest query can fail as too old although the table has a fresh row |
| RateStreaming.BinanceStreamingRateSource.constructor | converter/adapters/outbound/external/binance/rate_source.py:30-52 | a source starts with an empty queue, no pairs and no flag |
| RateStreaming.BinanceStreamingRateSource.OfferBatch | converter/adapters/outbound/external/binance/rate_source.py:275-283 | ignored after shutdown, dropped on a full queue, appended otherwise |
| RateStreaming.BinanceStreamingRateSource.BeginRatesTick | converter/adapters/outbound/external/binance/rate_source.py:204-207 | without tracked pairs an empty batch is offered and nothing fetched |
| RateStreaming.BinanceStreamingRateSource.FinishRatesTick | converter/adapters/outbound/external/binance/rate_source.py:211-262 | the join of the fetched tickers with the pairs tracked by then is offered, unless the fetch or the join failed or nothing is left |
| RateStreaming.BinanceStreamingRateSource.SymbolsTick | converter/adapters/outbound/external/binance/rate_source.py:264-273 | the pairs are replaced, or kept if the refresh failed |
| RateStreaming.BinanceStreamingRateSource.BeginClose | converter/adapters/outbound/external/binance/rate_source.py:102-107 | the flag is set, and only the first caller goes on |
| RateStreaming.BinanceStreamingRateSource.FinishClose | converter/adapters/outbound/external/binance/rate_source.py:129-135 | the queue is drained and the source marked as not started |
| RateStreaming.FetchOffersBatch | converter/adapters/outbound/external/binance/rate_source.py:219-245 | what is offered after a fetch over constructed pairs is a batch the stores accept |
| RateStreaming.FetchedBatchExact | converter/adapters/outbound/external/binance/rate_source.py:211-258 | nothing is offered after a fetch iff it failed, a tracked price is too large or no tracked pair has a quote; otherwise exactly the quotes of the tracked pairs are |
| RateStreaming.FetchedBatchEncodes | converter/adapters/outbound/external/binance/rate_source.py:219-245 | over pairs of accepted symbols every quote of a tick can be cached |
| Pipeline.ConservedAlways | converter/adapters/outbound/external/binance/rate_source.py:88-135 | the books of source and consumer balance in every reachable state, in order, and draining follows the flag |
| PipelineProperties.Conservation | converter/adapters/outbound/external/binance/rate_source.py:275-283 | offered = dropped + queued + taken + drained; taken = processed + skipped + discarded + at most one in hand; the queue keeps its bound |
| PipelineProperties.OfferEffect | converter/adapters/outbound/external/binance/rate_source.py:275-283 | an offer does nothing after the flag; before, it is recorded, and the batch is last in the queue if there is room and dropped otherwise |
| PipelineProperties.DropsOnlyBeyondRoom | converter/adapters/outbound/external/binance/rate_source.py:275-283 | from any state on, whatever the consumer does, at most the offers beyond the room left in the queue are dropped, and none by an unbounded queue |
| PipelineProperties.ProcessedInTickOrder | converter/adapters/inbound/consumer/quote_consumer.py:74-83 | processed batches are a subsequence of the offered ones in tick order, none of them empty |
| PipelineProperties.StoredTimestampsIncrease | converter/adapters/inbound/consumer/quote_consumer.py:74-83 | offered timestamps that increase are stored increasing |
| PipelineProperties.BegunAreBatches | converter/adapters/inbound/consumer/quote_consumer.py:79-83 | only nonempty batches with one timestamp and distinct codes reach the stores |
| PipelineProperties.StreamsAlways | converter/adapters/outbound/external/binance/rate_source.py:54-71 | in every reachable state at most one call initialises and only the call that started the source can wait or yield |
| PipelineProperties.OneStreamYields | converter/adapters/outbound/external/binance/rate_source.py:54-100 | over any sequence of stream and close calls only one stream call ever yields |
| PipelineProperties.AtMostOneLateTake | converter/adapters/outbound/external/binance/rate_source.py:88-94 | after the flag at most one more batch is taken |
| PipelineProperties.NothingAfterShutdown | converter/adapters/outbound/external/binance/rate_source.py:102-135 | after the flag nothing is enqueued, and after the drain the queue stays empty |
| PipelineProperties.NothingBegunAfterStop | converter/adapters/inbound/consumer/quote_consumer.py:74-77 | after the consumer's flag no batch begins to be processed |
| PipelineProperties.DiscardsAtMostOne | converter/adapters/inbound/consumer/quote_consumer.py:74-77 | stopping discards at most one batch, and nothing is discarded before |
| StreamProgress.DeliversNext | converter/adapters/outbound/external/binance/rate_source.py:88-94 | with the flag down, a batch queued, empty hands and a call in its loop, exactly the front of the queue can be delivered in at most two steps |
| StreamProgress.NeverDeliversAgain | converter/adapters/outbound/external/binance/rate_source.py:54-94 | if a started source has no call in its loop and nothing is in hand, nothing is delivered in any continuation |
| StreamProgress.ListensOn | converter/adapters/outbound/external/binance/rate_source.py:88-94 | a call in its loop stays in it while the flag is down and it delivers nothing, however often it times out |
| StreamProgress.StreamEnds | converter/adapters/outbound/external/binance/rate_source.py:88-100 | once the flag is up a call in its loop can end in at most two steps, delivering nothing |
| StreamProgress.CloseEndsOffers | converter/adapters/outbound/external/binance/rate_source.py:96-107 | closing, or leaving the stream, raises the flag for good: nothing is accepted after it and the queue is left to be drained |
| StreamProgress.StopEndsProcessing | converter/adapters/inbound/consumer/quote_consumer.py:74-97 | after a stop nothing is begun to be processed |
| StreamProgress.CanAlwaysStop | converter/adapters/inbound/consumer/quote_consumer.py:92-99 | stopping and closing are always possible, and so is leaving a waiting stream |
| StreamProgress.SchedulingFailureIsFinal | converter/adapters/outbound/external/binance/rate_source.py:62-86 | a run into that state: scheduling fails after the source was marked as started |
| StreamProgress.ComesBack | converter/adapters/inbound/consumer/quote_consumer.py:74-83 | after a skipped or processed batch the stream is in its loop again; after a discarded one it is not |
| StreamProgress.FailedInitCanRetry | converter/adapters/outbound/external/binance/rate_source.py:64-69 | a failed initialisation changes nothing that matters, and another call can initialise |
| StreamProgress.CloseCompletes | converter/adapters/outbound/external/binance/rate_source.py:129-135 | a close under way can be completed and drains all that is queued |
| StreamProgress.FirstBatchIsProcessed | converter/adapters/outbound/external/binance/rate_source.py:54-94 | a run from an empty source to a processed batch |
| EndToEnd.PipelineRun | converter/adapters/outbound/external/binance/rate_source.py:204-283 | in the composed machine source, stream and consumer go through a run of Pipeline |
| EndToEnd.StoresRun | converter/adapters/inbound/consumer/quote_consumer.py:72-112 | in the composed machine the stores go through a StoreRuns run: every batch handed over meets an idle writer, is a valid batch, and is later than the one before |
| EndToEnd.SaveIsAccepted | converter/adapters/inbound/consumer/quote_consumer.py:74-83 | the batch the consumer hands over is one the idle writer can begin with |
| EndToEnd.TickReachesQueue | converter/adapters/outbound/external/binance/rate_source.py:204-283 | what a tick puts in the queue: an empty batch without pairs; after a fetch exactly the quotes of the tracked pairs, unless it missed; nothing after the flag or into a full queue |
| EndToEnd.OffersAlways | converter/adapters/outbound/external/binance/rate_source.py:204-245 | every batch with quotes that was offered is the join of one fetch, and timestamps of the offers increase |
| EndToEnd.ReadsNeverGoBack | converter/adapters/outbound/persistence/repositories/composite_quote_repository.py:13-19 | monotonic reads from end to end, assuming of the exchange only that its clock advances between fetches |
| EndToEnd.StoredBatchEncodes | converter/adapters/outbound/persistence/redis/quote_writer.py:51-56 | every batch the writer of the composed machine stores can be cached |
| EndToEnd.CacheRefinesTable | converter/adapters/outbound/persistence/repositories/composite_quote_writer.py:20-24 | between saves composite and table answer alike from end to end, if no cache command is lost and no save with a committed attempt is given up, up to the pair of a shared code |
| EndToEnd.AnswersWereReported | converter/adapters/outbound/external/binance/mapper.py:25-55 | every answer a reader gets is the rounded price that some fetch reported for exactly this symbol at the server time the answer carries |
| FirstAnswer.FirstPriceIsAnswered | converter/adapters/outbound/persistence/repositories/composite_quote_repository.py:13-19 | for every pair ingest can deliver and every price that rounds to a rate, nine steps lead from an empty system to a read that answers exactly that quote |

## Left out

- Sessions, HTTP, Redis and SQL clients, JSON and ISO timestamps: kept only as commits, failures, delivered commands, hits and misses.
- Routes, schemas, error mapping, health checks, dependency injection, metrics, tracing and logging.
- The scheduler and retry libraries with their waiting times: a tick is a step that may come at any time, a retry one of at most three attempts. The consumer's outer restart of its stream is another `stream()` call of the machine.
- `stream()` and `_consume_stream` as coroutines: their loops are the steps of `Pipeline`, with one step per stretch between two awaits; the locks themselves are not modelled.
- Cancellation while a batch is in hand: the machine has the closing of a generator, after which such a batch stays in hand.
- The retry of single API calls and the breaker switched off: only the three outcomes of a protected call matter to the breaker.
- NaN and infinities; lower-case `e`, signs, spaces and underscores in decimal text; case rules outside ASCII.
- Quotes.CreateCurrencyTwice: ASCII codes only; outside ASCII upper-casing can make a code longer than 20 characters.
- Quotes.ConstructedPairsAreValid: ASCII codes only, for the same reason.
- Quotes.ValidPairsHaveNoLower: ASCII letters only.
- Codecs.EncodeTickerDefinedIff: ASCII letters only.
- Partition retention and deletion of rows.
- `is_fresh` and `filter_fresh_quotes` of the freshness service, `validate_precision`, `Pair.inverse`, `Rate.inverse`, `is_zero`, `quote_to_db_model`: easy or unused.
- Codecs.RowRoundTrip: assumes that the rate column stores grid decimals exactly; a rate too large for the column is a failing transaction.
