# Portfolio tracker: dividend and price updaters in Dafny

This project models the five batch scripts at the core of a personal
portfolio tracker that lives in a spreadsheet.

- `update_dividend_history.py` rebuilds the `dividend_history` sheet. For
  every traded ticker it fetches cash dividends (BRAPI first, Yahoo as
  fallback), works out the position held on each record date from the
  `transactions` ledger, and emits one row per event with a positive
  holding, sorted by date.
- `calcular_dividendos_historicos.py` is the offline variant. It reads the
  ledger from a CSV, cleans its numbers with an inline rule, takes Yahoo
  dividends per ticker and writes the receipts newest first.
- `update_market_data.py` builds the `market_data` price table in four
  passes (Yahoo closes, CVM fund quotas keyed by CNPJ, the Tesouro IPCA+
  2029 bond, then the 1.0 sentinel for every unpriced asset) and writes it
  out with NaN and infinities replaced by 0.0.
- `update_funds.py` prices funds whose ticker is a 14-digit CNPJ from a CVM
  monthly report and merges them into `market_data` without disturbing the
  other rows.
- `update_dividends.py` writes `dividend_calendar`: the confirmed next
  dividend date from each payer's calendar, or else its last historical
  dividend, sorted by status.

Every network or spreadsheet call (the Google Sheets client, BRAPI, Yahoo
Finance, the CVM and Tesouro downloads) becomes a parameter: the rows a
sheet returns, or a function from a ticker or a month index to the provider's
reply, with `None` standing for a request that raised. Clocks become
parameters too (`today`, the run timestamp). Each script's observable
effect is the list of rows it writes; each top-level method returns that
list, and its `ensures` ties it to a specification function. Lemmas then
prove what the rows mean.

Modules, one per file:

- `Common`: options, days, the spreadsheet `Float` (finite, NaN or
  infinite), pandas `unique`, and a stable sort.
- `Text`: Python's `strip`, `upper`, `replace`, `zfill` and digit filters
  on `seq<char>`.
- `PyFloat`: Python's `float()` on decimal text.
- `Tables`: the insertion-ordered Python dict, as a value (`Table`) and as
  the object the scripts update in place (`Dict`).
- `Quotas`: the latest CVM row per CNPJ, and the first month that loads.
- `DividendHistory`, `HistoricalDividends`, `MarketData`, `Funds`,
  `DividendCalendar`: one module per script.

Four behaviours of the scripts are easy to assume otherwise:

- In `update_market_data.py` later passes overwrite earlier ones; there is
  no rule that the first valid non-zero price wins. A Yahoo lookup that
  raises stores 0.0, which the sentinel pass does not replace
  (`MarketData.RaisedIsZero`).
- `update_dividends.py` sorts the calendar by the status text alone, with no
  second key on the date (`DividendCalendar.SortByStatus`).
- A zero holding on the record date yields no row in either dividend script,
  not a zero-amount row.
- The top-level runs of `calcular_dividendos_historicos.py` and
  `update_funds.py` are modelled as written, including the two defects
  under "Findings"; the corrected runs (`HistoricalDividends.CorrectedOutput`,
  `Funds.CorrectedFundsOutput`) sit beside them with their own lemmas.

## Model

| member | source | states |
|---|---|---|
| Common.Unique | update_dividend_history.py:141 | `unique()`: each value appears once; every value of the column is kept and nothing else appears; values are listed in order of first appearance |
| Common.SortBy | update_dividend_history.py:222 | the result is ordered by the key and is a permutation of the input |
| Common.InsertByPermutes | update_dividend_history.py:222 | one insertion step adds exactly the new element to the multiset |
| Common.InsertBySorted | update_dividend_history.py:222 | inserting into a key-ordered list keeps it ordered |
| Common.InsertByStable | update_dividend_history.py:222 | one insertion step puts the new element after every element of equal key, and moves no element of any key past another of the same key |
| Common.SortByStable | update_dividend_history.py:222 | the sort is stable: for every key, the elements with that key appear in the output in their input order, so rows of one record date keep ticker order and then event order |
| Common.Max0 | update_dividend_history.py:56 | `max(0.0, x)` is non-negative, at least x, and is either x or 0 |
| Text.Strip | update_dividend_history.py:31 | the result is a contiguous piece of the input with only whitespace cut away on either side, and it neither starts nor ends with whitespace |
| Text.StripIdempotent | update_dividend_history.py:154 | stripping twice is stripping once |
| Text.StripUpper | update_dividend_history.py:154 | `strip().upper()` equals `upper().strip()` |
| Text.UpperIdempotent | update_dividend_history.py:154 | upper-casing twice is upper-casing once |
| Text.Upper | update_dividend_history.py:154 | the result has the input's length; each ASCII lower-case letter is upper-cased and every other character is kept |
| Text.UpperNoLower | update_dividend_history.py:154 | an upper-cased text has no ASCII lower-case letter |
| Text.RemoveAll | update_dividend_history.py:31 | `replace(c, '')` leaves no c, never lengthens the text and adds no character |
| Text.ReplaceAll | update_dividend_history.py:33 | `replace(a, b)` turns each a into b, leaves every other character in place, and keeps the length |
| Text.DigitsOf | update_market_data.py:53 | `filter(str.isdigit, …)` yields only digits, never lengthens the text, and returns a text of digits unchanged |
| Text.DigitsOfAppend | update_market_data.py:53 | filtering digits distributes over concatenation, so the digits kept keep their order |
| Text.ZFill | update_market_data.py:53 | `zfill(n)` keeps the input as a suffix, pads a shorter input to exactly n characters and keeps a longer one, and every padding character is `0` |
| Text.ZFillDigits | update_market_data.py:53-54 | a zero-filled digit string has exactly the width when the digits fit, and is then digits with zeros in front |
| PyFloat.SpellParses | update_dividend_history.py:36 | `float()` of a literal's spelling is the literal's value |
| PyFloat.ParsedIsLiteral | update_dividend_history.py:36 | any text `float()` accepts is the spelling of a literal with that value |
| Tables.Assign | update_market_data.py:44 | `d[k] = v`: k maps to v, other keys keep their values, a new key goes last, and the old key order is a prefix |
| Tables.AssignAllSpec | update_market_data.py:68-69 | after a loop of assignments, a key holds the value of the last pair with that key, or its old value if no pair has it |
| Tables.AssignAllKeepsOrder | update_market_data.py:108 | keys already present keep their order, in front of new ones |
| Tables.ItemsOnePerKey | update_market_data.py:108 | `.items()` lists every key exactly once, with its value |
| Tables.Dict.constructor | update_market_data.py:31 | `{}` is the empty dict |
| Tables.Dict.Put | update_market_data.py:44 | the object's new state is the old state with one assignment |
| Tables.Dict.PutAll | update_funds.py:68 | the object's new state is the old state after assigning every pair in order |
| Quotas.LatestKeys | update_market_data.py:65-67 | the index has exactly the keys of the report's rows |
| Quotas.LatestIsLatest | update_market_data.py:66 | the row kept for a key is dated no earlier than any row with that key |
| Quotas.FirstLoadSpec | update_market_data.py:59-71 | the chosen month is the first one that loads, and every earlier month failed |
| DividendHistory.CleanFloat | update_dividend_history.py:28-37 | a number passes through unchanged; text whose cleaned form `float()` rejects is worth 0.0 |
| DividendHistory.CommaIsDecimalSeparator | update_dividend_history.py:32-35 | in `1.234,56` style text, dots separate thousands and the comma is the decimal point |
| DividendHistory.PointIsDecimalSeparator | update_dividend_history.py:34-36 | the spelling of any decimal literal, which has no comma, is worth the literal's value: the point is the decimal point |
| DividendHistory.QuotesIgnored | update_dividend_history.py:31 | a cell wrapped in double quotes is worth what the text without its quotes is worth |
| DividendHistory.NoDigitIsZero | update_dividend_history.py:36-37 | in the model, text without a digit cleans to 0.0 (see "Left out" for the `nan`/`inf` spellings) |
| DividendHistory.BrazilianExample | update_dividend_history.py:32-33 | `"1.957,00"` cleans to 1957.0 |
| DividendHistory.PointExample | update_dividend_history.py:36 | `"1.957"` cleans to 1.957 |
| DividendHistory.PositionAsOf | update_dividend_history.py:39-56 | the loop yields the clamped net quantity of the ticker's rows dated on or before the cutoff, and never a negative one |
| DividendHistory.IrrelevantRowIgnored | update_dividend_history.py:41-54 | a row for another ticker, a later date or another type does not move the position |
| DividendHistory.PositionOfScope | update_dividend_history.py:41-42 | the position depends only on the rows the mask selects |
| DividendHistory.IncreasingLedgerMonotone | update_dividend_history.py:41-56 | in a ledger of buys, bonuses and splits only, the position never falls as the cutoff moves later |
| DividendHistory.PositionExamples | update_dividend_history.py:39-56 | a buy of 100 gives 100; a lower-case `compra` of 100 followed by a sale of 100 gives 0 |
| DividendHistory.DayTotalsSumSameDay | update_dividend_history.py:95-99 | the amount for a day is the sum of the rates of every valid dividend whose prior date falls on that day |
| DividendHistory.SortIndexCovers | update_dividend_history.py:101 | every day of the dictionary appears in the sorted index |
| DividendHistory.GetDividendsBrapi | update_dividend_history.py:59-105 | the loop yields the BRAPI series: None when the request fails or an entry makes the loop raise, otherwise the per-day sums in date order |
| DividendHistory.BrapiSumsSameDay | update_dividend_history.py:87-105 | the series is None exactly when an entry is faulty; otherwise its days strictly increase, each carries the sum of the rates on that day, and every paying day is listed |
| DividendHistory.YahooSymbolSpec | update_dividend_history.py:109-112 | the symbol starts with the stripped, upper-cased ticker and has no ASCII lower-case letter; it ends in `.SA` exactly when that ticker already does, or has at least four characters and a digit and does not end in `34`; a ticker ending in `.SA` or `34` is left as it is; the symbol is the ticker itself or the ticker followed by exactly `.SA` |
| DividendHistory.YahooSymbolIdempotent | update_dividend_history.py:108-113 | normalising an already normalised symbol changes nothing |
| DividendHistory.FirstDate | update_dividend_history.py:157-158 | the earliest dated ledger row of the ticker, or 2008-01-01 when none is dated |
| DividendHistory.Since | update_dividend_history.py:176 | every event kept is an input event on or after the start day, and every such input event is kept |
| DividendHistory.SinceAppend | update_dividend_history.py:176 | the filter distributes over concatenation, so the events kept stay in input order |
| DividendHistory.SinceOne | update_dividend_history.py:176 | a single event is kept exactly when it falls on or after the start day |
| DividendHistory.AttributeEvents | update_dividend_history.py:181-206 | the loop emits, in order, one row per event whose position on the record date is positive |
| DividendHistory.AuditTicker | update_dividend_history.py:150-206 | one ticker's rows: none for skipped tickers or when neither provider has data, otherwise the attributed events of the chosen source |
| DividendHistory.AuditDividends | update_dividend_history.py:141-223 | the rows written are sorted by date and are a permutation of every ticker's attributed rows |
| DividendHistory.AttributeSound | update_dividend_history.py:185-205 | every row has positive quantity, total = quantity × rate, payment = record day + 15, and a Yahoo record day one before the ex-date |
| DividendHistory.AttributeComplete | update_dividend_history.py:190-192 | every event with a positive position on its record date produces a row |
| DividendHistory.SkippedTickerIgnored | update_dividend_history.py:150-152 | a ticker on the skip list (`UNKNOWN`, `nan`, empty, `None`, `USDBRL=X`, or containing FUNDO or LCA) contributes nothing: dropping it from anywhere in the ticker list leaves the collected rows unchanged |
| DividendHistory.HistoryAppend | update_dividend_history.py:150-206 | the rows collected for two ticker lists in sequence are those of the first list followed by those of the second |
| DividendHistory.TickerSeriesFromOneSource | update_dividend_history.py:163-173 | all of a ticker's rows come from BRAPI when it answers with data, otherwise all come from Yahoo |
| DividendHistory.QualifyingEventAttributed | update_dividend_history.py:176-192 | an event of the chosen source on or after the first trade, with a positive position, yields a row for the ticker |
| DividendHistory.HistoryWellAttributed | update_dividend_history.py:150-206 | every collected row satisfies the attribution rules |
| DividendHistory.AuditOutputWellAttributed | update_dividend_history.py:222 | every written row satisfies the attribution rules |
| DividendHistory.EntitledExample | update_dividend_history.py:190-205 | a holder of 100 units on the record date of a 0.5 dividend receives 50.0, paid 15 days later |
| DividendHistory.DisposedExample | update_dividend_history.py:190-192 | a holder who sold everything before the record date receives no row |
| HistoricalDividends.InlineOnBrazilian | calcular_dividendos_historicos.py:55 | the inline rule reads `1.234,56` style text as the value the comma-decimal reading gives |
| HistoricalDividends.InlineAgreesWithCleanFloat | calcular_dividendos_historicos.py:55 | on text with a comma, the inline rule and `clean_float` agree |
| HistoricalDividends.InlineDropsEveryPoint | calcular_dividendos_historicos.py:55 | without a comma, the inline rule deletes every point and reads the digits as a whole number |
| HistoricalDividends.RulesDisagreeOnPoint | calcular_dividendos_historicos.py:55 | on `"1.957"` the inline rule gives 1957.0 where `clean_float` gives 1.957 |
| HistoricalDividends.EmptyCellIsNaN | calcular_dividendos_historicos.py:55 | the text `nan` of an empty numeric cell loads as NaN rather than failing the run |
| HistoricalDividends.NanCellLoads | calcular_dividendos_historicos.py:55 | any cell whose cleaned text spells NaN (any case, signed or padded) loads as NaN |
| HistoricalDividends.LoadSpec | calcular_dividendos_historicos.py:49-57 | the ledger loads exactly when every row does; it then keeps the rows in order with their ticker, type and date, and each quantity is what the inline rule reads from its cell |
| HistoricalDividends.BadCellAbortsLoad | calcular_dividendos_historicos.py:49-62 | one numeric cell the rule cannot read, or one date that does not parse, ends the run with nothing written |
| HistoricalDividends.NormalizeSpec | calcular_dividendos_historicos.py:11-16 | the symbol starts with the upper-cased, stripped ticker and has no ASCII lower-case letter; it ends in `.SA` exactly when that ticker already does or ends in 11, 3, 4, 5 or 6; a ticker ending in `.SA` is left as it is; the symbol is the ticker itself or the ticker followed by exactly `.SA` |
| HistoricalDividends.NormalizeIdempotent | calcular_dividendos_historicos.py:11-16 | normalising twice is normalising once |
| HistoricalDividends.QuantityRaisesIff | calcular_dividendos_historicos.py:31-33 | the quantity is undefined (the `.upper()` raises) exactly when a row in scope has a blank type |
| HistoricalDividends.QuantityNonNegative | calcular_dividendos_historicos.py:42 | a defined quantity is never negative |
| HistoricalDividends.NothingInScopeIsZero | calcular_dividendos_historicos.py:24-28 | with no transaction of the ticker up to the cutoff, the quantity is 0 |
| HistoricalDividends.OtherKindIgnored | calcular_dividendos_historicos.py:36-40 | a row whose type is neither an entry nor an exit kind, inserted anywhere in the ledger, leaves the quantity unchanged |
| HistoricalDividends.OtherTickersIgnored | calcular_dividendos_historicos.py:24 | rows of other tickers, inserted anywhere in the ledger, leave the holding unchanged |
| HistoricalDividends.NotANumberSticks | calcular_dividendos_historicos.py:31-40 | a buy or sell row in scope whose quantity is NaN makes the running total NaN from then on |
| HistoricalDividends.EmptyQuantityCountsZero | calcular_dividendos_historicos.py:31-42 | such a row makes the quantity 0, because `max(0.0, nan)` is 0.0 |
| HistoricalDividends.QuantityOnDate | calcular_dividendos_historicos.py:19-42 | the loop computes the specified quantity, failing exactly when a type is blank |
| HistoricalDividends.ProcessTicker | calcular_dividendos_historicos.py:93-118 | the loop keeps the receipts of the scan; `total_ativo` is the sum of their totals and the count is their number |
| HistoricalDividends.ScanSound | calcular_dividendos_historicos.py:100-116 | every receipt has positive quantity, total = quantity × rate, record day = ex-date − 1 and payment = ex-date + 15 |
| HistoricalDividends.ScanStopsAtFirstFailure | calcular_dividendos_historicos.py:93-124 | an exception keeps the receipts appended before it and drops the rest of the ticker |
| HistoricalDividends.ScanComplete | calcular_dividendos_historicos.py:102-107 | an event with a positive holding before any failure produces a receipt |
| HistoricalDividends.CalculateHistory | calcular_dividendos_historicos.py:44-146 | the CSV rows written are the run as written: nothing when loading fails, when a ticker cell is blank, or when no receipt exists; otherwise every receipt newest first |
| HistoricalDividends.GatherReceipts | calcular_dividendos_historicos.py:65-126 | the loop over tickers collects the receipts of the loop as written, and stops with nothing at the first blank ticker cell |
| HistoricalDividends.TickerStep | calcular_dividendos_historicos.py:69-126 | one ticker: it raises exactly on a blank cell, and otherwise yields that ticker's receipts |
| HistoricalDividends.AllReceiptsWellAttributed | calcular_dividendos_historicos.py:68-118 | every collected receipt satisfies the attribution rules |
| HistoricalDividends.OutputNewestFirst | calcular_dividendos_historicos.py:138 | the output is ordered by ex-date descending and is a permutation of the receipts |
| HistoricalDividends.NamedTickersKept | calcular_dividendos_historicos.py:68-118 | every receipt of each ticker in the list reaches the combined list |
| HistoricalDividends.BlankTickerLosesEverything | calcular_dividendos_historicos.py:70 | as written, a blank ticker anywhere in the list makes the loop raise, so no receipts are collected |
| HistoricalDividends.BlankCellWritesNothing | calcular_dividendos_historicos.py:70 | a loaded ledger row with an empty ticker cell means no file is written, whatever the other rows hold |
| HistoricalDividends.AsWrittenFoundAll | calcular_dividendos_historicos.py:65-126 | when the loop as written completes, it has gathered exactly the receipts of the corrected loop |
| HistoricalDividends.AsWrittenAgreesWithoutBlanks | calcular_dividendos_historicos.py:70 | without blank tickers, the loop as written and the corrected loop give the same receipts |
| HistoricalDividends.CorrectedAgreesWithoutBlanks | calcular_dividendos_historicos.py:70 | without blank ticker cells, the run as written and the corrected run write the same rows |
| HistoricalDividends.BlankTickerSkipped | calcular_dividendos_historicos.py:70-71 | corrected: a blank ticker is skipped and the other tickers' receipts are kept |
| HistoricalDividends.CorrectedKeepsOthers | calcular_dividendos_historicos.py:65-138 | corrected: every receipt of every listed ticker reaches the written file |
| MarketData.TickersOfSpec | update_market_data.py:34-35 | a ticker is on the list exactly when an asset of one of the kinds has it |
| MarketData.YahooPrices | update_market_data.py:39-46 | after a download, a Yahoo-kind ticker with a close holds it, and one whose lookup raised holds 0.0; every other key, including a ticker whose close is null, is left as it was |
| MarketData.FillYahoo | update_market_data.py:37-46 | the dict's new state is the Yahoo pass applied to the old one |
| MarketData.RegisteredIff | update_market_data.py:52-54 | a fund is registered exactly when its stripped cell holds at most 14 digits; its key is then those digits with zeros in front |
| MarketData.FundTableTickers | update_market_data.py:49-54 | each registered key maps to the ticker of some FUNDO asset |
| MarketData.FundTableComplete | update_market_data.py:49-54 | a key is in the fund map exactly when some FUNDO asset's registered CNPJ reads as it, and it then maps to the ticker of the last such asset |
| MarketData.BuildFundMap | update_market_data.py:49-54 | the loop builds the specified fund map |
| MarketData.PriceFunds | update_market_data.py:68-69 | every registered fund with a quota in the report gets that quota, in fund-map order |
| MarketData.FillCvm | update_market_data.py:56-71 | the dict's new state is the CVM pass over the first month that loads, and unchanged when none loads |
| MarketData.CvmPrices | update_market_data.py:56-70 | a ticker registered under one fund key is priced with the latest quota for that key in the first month that loads |
| MarketData.CvmUnloaded | update_market_data.py:56-71 | when no month of the four loads, the CVM pass changes nothing |
| MarketData.CvmOnlyFundTickers | update_market_data.py:68-69 | the CVM pass leaves alone any key that no fund-map entry names |
| MarketData.MaxBase | update_market_data.py:84 | the latest base date is at least every row's base date and is one of them |
| MarketData.FirstTargetSpec | update_market_data.py:91-95 | on a base date, the first IPCA bond maturing in 2029 is chosen, and none exactly when there is no such bond |
| MarketData.BondPriceSpec | update_market_data.py:84-96 | a price is the unit price of the first target bond on the latest base date; there is none only when every target bond has an older base date |
| MarketData.TesouroPrices | update_market_data.py:74-99 | every TESOURO asset receives the same bond price, and nothing changes when there is none or the download failed |
| MarketData.FillTesouro | update_market_data.py:74-99 | the dict's new state is the Tesouro pass applied to the old one |
| MarketData.FinalizedKeys | update_market_data.py:102-103 | after finalisation the keys are the old keys and the listed tickers |
| MarketData.FinalizedKeeps | update_market_data.py:102-103 | a price already present is kept |
| MarketData.FinalizedSentinel | update_market_data.py:102-103 | a ticker without a price receives 1.0 |
| MarketData.Finalize | update_market_data.py:102-103 | the dict's new state is the finalisation applied to the old one |
| MarketData.MarketRowsSpec | update_market_data.py:108 | every key is written once with its price, NaN and infinities as 0.0, and nothing else is written |
| MarketData.UpdateAllMarketData | update_market_data.py:23-109 | the rows written are the four passes over an empty dict, finalised and sanitised |
| MarketData.EveryAssetPriced | update_market_data.py:102-108 | every asset's stripped ticker appears in the written rows |
| MarketData.DownstreamKeeps | update_market_data.py:48-99 | a key that is the ticker of no FUNDO or TESOURO asset is left as it was by the CVM and Tesouro passes |
| MarketData.YahooThenRest | update_market_data.py:43-103 | a stripped ticker of no FUNDO or TESOURO asset reaches the sheet with the value the Yahoo pass gave it, or 1.0 when that pass gave none |
| MarketData.RaisedIsZero | update_market_data.py:45 | a Yahoo-kind ticker whose lookup raised reaches the sheet as 0.0 |
| MarketData.NullIsSentinel | update_market_data.py:44 | a Yahoo-kind ticker with a null close and no other price reaches the sheet as 1.0 |
| Funds.ValidCnpjs | update_funds.py:36-40 | every kept ticker is 14 digits |
| Funds.ValidCnpjsComplete | update_funds.py:37-40 | every ticker that reads as a CNPJ after removing `.`, `/` and `-` is kept, in that form |
| Funds.ValidCnpjsSound | update_funds.py:37-40 | every kept CNPJ comes from a ticker that reads as one |
| Funds.CollectCnpjs | update_funds.py:36-40 | the loop collects exactly the specified CNPJ list |
| Funds.SeparatorsRemoved | update_funds.py:38 | on text of digits, `.`, `/` and `-`, removing the three separators yields exactly its digits |
| Funds.PunctuatedCnpj | update_funds.py:38-39 | 14 digits written with `.`, `/` and `-` are a CNPJ that reduces to those digits, and the market-data script registers it under the same digits |
| Funds.SeededSpec | update_funds.py:68 | the seed holds exactly the sheet's tickers, each valued by the close of its last row |
| Funds.MergedSpec | update_funds.py:70-80 | after the merge, a traded CNPJ holds its truthy quota, else its old price, else 1.0; every other key is unchanged |
| Funds.MergeOneSpec | update_funds.py:72-80 | one CNPJ step: a truthy quota overwrites, otherwise an existing price stays and a missing one becomes 1.0 |
| Funds.ZeroQuotaNeverOverwrites | update_funds.py:73-80 | a zero quota never replaces a fund's existing price; a fund without one gets 1.0 |
| Funds.MergeInto | update_funds.py:72-80 | the dict's new state is one merge step applied to the old one |
| Funds.Merge | update_funds.py:70-80 | the dict's new state is the whole merge applied to the old one |
| Funds.UpdateFunds | update_funds.py:32-84 | the rows written are the run as written: nothing without CNPJs or a loaded month, else the merged table's items, with quotas looked up under the raw `CNPJ_FUNDO` text |
| Funds.QuotaReachesSheet | update_funds.py:60-84 | as written: a traded CNPJ whose text is spelled exactly so in its latest report row, with a truthy quota, reaches the sheet with that quota |
| Funds.IndexedQuotaReachesSheet | update_funds.py:70-84 | whatever the index is keyed by, a traded CNPJ with a truthy indexed quota reaches the sheet with that quota |
| Funds.CorrectedQuotaReachesSheet | update_funds.py:60-84 | corrected: the truthy quota of the latest row whose `CNPJ_FUNDO` reduces to the traded CNPJ reaches the sheet |
| Funds.OtherRowsKept | update_funds.py:68-84 | a market row that is not a traded CNPJ reaches the sheet unchanged |
| Funds.AsWrittenNeverFindsQuota | update_funds.py:60-61 | as written, with a punctuated CNPJ column no traded CNPJ is found, so each keeps its old price or 1.0 |
| Funds.CorrectedFindsPunctuated | update_funds.py:60-61 | corrected: a punctuated CNPJ row is found under its digits, with its latest date |
| DividendCalendar.Payers | update_dividends.py:36 | `unique()`: no payer is listed twice |
| DividendCalendar.PickSpec | update_dividends.py:46-73 | a calendar with a date gives a confirmed row with its date and value (0.0 when none); otherwise the row of the last historical dividend, with its date and rate, status historical and the run time as "Consultado em"; nothing exactly when the calendar raises, or there is no date and the history raises or is empty |
| DividendCalendar.PayoutsSpec | update_dividends.py:41-77 | a ticker has a row exactly when it is a payer whose reply yields one, and that row is what its own reply yields |
| DividendCalendar.PayoutsTickers | update_dividends.py:41-77 | every row's ticker is one of the payers |
| DividendCalendar.OneRowPerTicker | update_dividends.py:41-77 | no ticker receives two rows |
| DividendCalendar.CollectPayouts | update_dividends.py:38-77 | the loop collects exactly the specified rows |
| DividendCalendar.StatusKeyOrder | update_dividends.py:85 | the numeric sort key orders two rows exactly as Python's `<` orders their status texts |
| DividendCalendar.SortByStatus | update_dividends.py:85 | every confirmed row comes before every historical row, each group keeping its order, and nothing is lost |
| DividendCalendar.UpdateDividends | update_dividends.py:32-89 | the rows written are the specified calendar |
| DividendCalendar.CalendarSpec | update_dividends.py:83-89 | without rows one placeholder row with the run timestamp is written; otherwise the rows sorted by status |
| DividendCalendar.TickerListedIff | update_dividends.py:35-77 | a ticker appears on the calendar exactly when it is a payer whose calendar lookup did not raise and that has a confirmed date or a readable, non-empty history |

## Left out

- Google Sheets, BRAPI, Yahoo Finance, the CVM and Tesouro downloads, the CSV files and authentication are not modelled. Their replies are parameters, with a failed call as `None`.
- Console output, `time.sleep` and the exit codes are not modelled, because they do not affect what is written.
- `datetime.now()` and `date.today()` are parameters, because clocks cannot be modelled.
- The month strings built from `today` (lines 59-60 of `update_market_data.py` and 49-51 of `update_funds.py`) are reduced to a month index, because the downloads themselves are parameters.
- Date parsing (`pd.to_datetime`, `dayfirst`, coercion to NaT) is not modelled. Dates are whole days or `None`.
- Time zones (`tz_localize`) and `strftime` are not modelled. The date-string sorts (line 222 of `update_dividend_history.py`, line 138 of `calcular_dividendos_historicos.py`) are modelled as ordering by day, which ISO `%Y-%m-%d` text preserves.
- Number formatting is not modelled: the `.8f`/`.4f`/`.2f` rounding of written values, and the comma formatting at lines 133-135 of `calcular_dividendos_historicos.py`. Values are exact reals.
- PyFloat: `float()` is modelled on plain decimal text only. Exponents, `inf`/`infinity` spellings and underscores are treated as failures; a `nan` spelling is treated as a failure too, except in the historical loader, where it is read as NaN.
- Text.Strip: `strip` is exact for characters below U+0100 only. Other Unicode whitespace is not modelled.
- Text.Upper: `str.upper()` is modelled on ASCII letters only. Accented Latin-1 letters, `ß`, `µ` and every other non-ASCII case mapping are left unchanged.
- Text.DigitsOf: `str.isdigit` is modelled as ASCII `0`-`9` only. Superscript digits such as `²` and other Unicode digits are not counted as digits.
- DividendHistory.NoDigitIsZero: it holds of the model only. Python's `float()` accepts `nan`, `inf` and `infinity` spellings, which have no digit, and `clean_float` then returns NaN or an infinity, not 0.0.
- The dtype pandas infers for a column is not inferred: a cell is given already tagged (`Number` or `Str` in DividendHistory, `Named` or `Blank` for a ledger ticker in HistoricalDividends).
- HistoricalDividends.OutputNewestFirst: `sort_values` at calcular_dividendos_historicos.py:138 uses pandas' default quicksort, which fixes no order among receipts with the same ex-date. The model sorts them stably with `Common.SortBy`, so only the order by ex-date and the permutation are claimed for that file. The `list.sort` at update_dividend_history.py:222 is stable, and `Common.SortByStable` states it.
- Quotas.LatestIsLatest: the kept row is claimed only to carry the latest date, because pandas does not fix which of several rows with the same date survives `drop_duplicates`.
- The single-ticker access path at line 43 of `update_market_data.py` (`len(tickers_yahoo) > 1`) is folded into the per-ticker lookup parameter.
- A CVM report whose `CNPJ_FUNDO` column is missing, so that the column lookup at line 64 of `update_market_data.py` raises, is modelled as a month that failed to load.
- Funds.UpdateFunds: a report that loads but lacks `CNPJ_FUNDO`, `DT_COMPTC` or `VL_QUOTA` raises `KeyError` at lines 60-61 of `update_funds.py`, outside any `try`, so nothing is written. The model assumes the report has the three columns.
- Funds.QuotaIndexAsWritten: `CNPJ_FUNDO` cells are taken as text. A column of bare digits that pandas reads as integers, which would also miss every lookup by text, is not modelled.
- HistoricalDividends.Load: a numeric cell is given as its `astype(str)` text, so an empty cell arrives as `nan`. A ticker cell that pandas reads as NaN (empty, `NA`, `N/A`, `NULL`, `nan`, `None` and the other default NA spellings) is `Blank`.
- Quotas in CVM and Tesouro rows are taken as already-parsed `Float` values. A non-numeric `VL_QUOTA` that makes `float()` raise is not modelled.
- The `Ano`/`Mes` columns and the formatted total of `calcular_dividendos_historicos.py` (lines 114-115, 135) are not modelled, because they are derived from fields the model keeps.
- The `Dividend` value of a calendar entry (line 54 of `update_dividends.py`) is kept as an optional number. Other types the calendar might carry are not modelled.
- `update_prices.py`, `app.py` and `teste_brapi.py` are not part of this model.

## Findings

| source | as written | input that shows it | evidently intended | confidence | as-written member | corrected member |
|---|---|---|---|---|---|---|
| calcular_dividendos_historicos.py:70 | `"FUNDO" in ticker` runs outside the `try`, on a ticker pandas reads as NaN (a float) | a ledger row with an empty ticker cell: `in` on a float raises `TypeError`, the run ends, and no CSV is written | skip a blank ticker like the `'nan'` placeholder and process the others | not executed | HistoricalDividends.BlankTickerLosesEverything | HistoricalDividends.BlankTickerSkipped |
| update_funds.py:60-61 | `price_dict` is keyed by the raw `CNPJ_FUNDO` cell, while line 72 looks up the 14 bare digits of line 38 | a report spelling the fund as `12.345.678/0001-90` and a ticker `12345678000190`: the lookup misses, so the fund keeps its old price or gets 1.0 | key the quotas by the CNPJ's digits, as `update_market_data.py:65` does | not executed | Funds.AsWrittenNeverFindsQuota | Funds.CorrectedFindsPunctuated |
