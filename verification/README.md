# Interactive Brokers trades with yen rates: a Dafny model

The Go program reads an Interactive Brokers activity statement, which is a CSV
file of many sections. It groups the rows by their first column ("Trades",
"Dividends", ...). It decodes each order row of the "Trades" section into a
`Trade`. Each trade carries the USD/JPY rate of its day and its proceeds in yen.
An exchange-rate service holds one table of daily closing rates per currency.
The table is read from a rate file with `MM/DD/YYYY` dates and quoted closes.
A lookup takes the exact day, or else steps back up to ten days to cover
weekends and holidays.

The model has these modules:

- `Csv`: the grouping loop of both `ReadCSV` functions. The loop of
  utils/filereader.go and the one of filereader/filereader.go are the same,
  so `Csv.GroupRecords` models both.
- `Calendar`: days, leap years, the previous day, stepping back, and day
  numbers (`Ordinal`). These are the `time.Time` arithmetic the lookup needs.
- `Digits` and `DateText`: the fixed-width fields of Go's `time.Parse`,
  `strconv.ParseInt` syntax, the `01/02/2006`, `2006-01-02` and
  `2006-01-02, 15:04:05` layouts, and `utils.ParseDate`.
- `ExchangeRates`: the service state (`NewService`, `HasCurrency`,
  `AddCurrency`), the loader `loadExchangeRates` (`LoadRates`), and the lookup
  `GetRate`. It has both the documented lookup and the body as written.
- `Trades`: `parseAction`, `parseDate`, `parseInt`, `parseFloat`, `NewTrade`
  and `ProcessTrades`.
- `ExchangeRateScenarios` and `TradeScenarios`: the rows and lookups from the
  source's comments and test, stated over the model.
- `Results`: `Option` and `Result`.
- `Text`: trimming a repeated character from either end of a text. This is
  `strings.Trim` with one quote character, and the space skip of `time.Parse`.
- `Sequences`: mapping a function over a sequence. The loader and the batch
  loop use it to classify every row.

Go reports failures in three ways: a returned `error`, a `panic`, and
`log.Fatalf`. In the model all three are error values. `Trades.TradeError.IsFatal`
separates the ones that end the process from the ones that are returned.

Parameters stand in for what the model does not define:

- `strconv.ParseFloat` is the parameter `parseFloat: string -> Option<real>`.
- The rate lookup that `NewTrade` makes through the package-level service is
  the parameter `rateFor: Timestamp -> Option<real>`.
- The CSV reader is the sequence of records it delivers (`seq<Record>`, or
  `seq<Read>` where a read can fail).

## Model

| member | source | states |
|---|---|---|
| Csv.WithKey | utils/filereader.go:25-32 | the group of a key holds only records of the input whose first field is that key, and is non-empty exactly when some record has that key |
| Csv.GroupByFirstField | utils/filereader.go:19-33 | a key is in the grouped map exactly when some record's first field is that key |
| Csv.GroupsAreWithKey | utils/filereader.go:27-32 | every group is exactly the records with its key, in reading order, and no group is empty |
| Csv.WithKeyAppend | utils/filereader.go:32 | appending keeps reading order: the group of records read in two stretches is the first stretch's group followed by the second's |
| Csv.GroupSizesSum | utils/filereader.go:19-33 | no record is lost or duplicated: over distinct keys covering every record, the group sizes add up to the number of records |
| Csv.GroupRecords | filereader/filereader.go:15-28 | the imperative loop builds exactly the grouping of the records read before end of file |
| Digits.ParseDecimal | models/trades.go:124 | base-10 `ParseInt` syntax: an optional sign and at least one digit are accepted, with the digits' value, negated after '-' |
| Digits.DecimalRoundTrip | models/trades.go:124 | every integer's decimal text parses back to that integer |
| Calendar.PrevDay | services/exchangerateservice.go:148 | `AddDate(0, 0, -1)`: a valid day whose next day is the given day |
| Calendar.PrevDayIsOneDayEarlier | services/exchangerateservice.go:146-148 | the previous day is exactly one day number earlier, across month ends, year ends and leap days |
| Calendar.StepBackOrdinal | services/exchangerateservice.go:146-149 | stepping back k times lowers the day number by exactly k |
| Calendar.StepBackReaches | services/exchangerateservice.go:146-149 | every valid earlier day is reached by stepping back the difference of day numbers |
| DateText.ParseUsDate | services/exchangerateservice.go:99 | a day accepted by the `01/02/2006` layout is valid and formats back to the same text |
| DateText.UsDateRoundTrip | services/exchangerateservice.go:98-99 | the `01/02/2006` layout accepts exactly the texts that are the formatting of a day, and yields that day |
| DateText.FormatIsoDate | services/exchangerateservice.go:112 | the `2006-01-02` key is ten characters: a four-digit year, a dash, a two-digit month, a dash and a two-digit day |
| DateText.ParseIsoDate | utils/dateparser.go:11 | a day accepted by the `2006-01-02` layout is valid and formats back to the same text |
| DateText.IsoDateRoundTrip | services/exchangerateservice.go:112 | the `2006-01-02` key format and parse are inverse on days with four-digit years |
| DateText.IsoKeyInjective | services/exchangerateservice.go:112 | distinct days get distinct `2006-01-02` keys, so keying the table by the day is the same map |
| DateText.UsToIsoKey | services/exchangerateservice.go:97-112 | a row dated `MM/DD/YYYY` is stored under the `YYYY-MM-DD` key of the same day |
| DateText.ParseIsoDateTime | utils/dateparser.go:8 | a time accepted by the date-time layout is valid, and its first ten characters are its day in the `2006-01-02` layout |
| DateText.DateTimeRoundTrip | utils/dateparser.go:8 | parsing the date-time layout inverts formatting in it |
| DateText.ParseDate | utils/dateparser.go:7-18 | the date-time layout is tried first and the date-only layout gives midnight; it fails exactly when neither matches, and then gives the zero time |
| DateText.LayoutsDisjoint | utils/dateparser.go:8-11 | no text matches both layouts, so the order they are tried in cannot change the result |
| DateText.ShortTextIsDateOnly | utils/dateparser.go:8-14 | a text of at most ten characters can only match the date-only layout, and then gives midnight of that day |
| DateText.ParseDateRoundTrip | utils/dateparser.go:7-18 | `ParseDate` reads back a time written in either layout |
| ExchangeRates.NewService | services/exchangerateservice.go:29-33 | a new service has no currency |
| ExchangeRates.AddCurrency | services/exchangerateservice.go:39-42 | afterwards the currency is present; a new currency gets an empty table; existing tables and other currencies are untouched |
| ExchangeRates.HasCurrencyIffAdded | services/exchangerateservice.go:35-37 | on a new service, `HasCurrency` holds for a currency exactly when it was added |
| ExchangeRates.AddCurrencyIdempotent | services/exchangerateservice.go:40-42 | adding a currency twice is adding it once |
| ExchangeRates.InstallRates | services/exchangerateservice.go:65-68 | installing a loaded table: new entries win, other days and other currencies are kept |
| ExchangeRates.TrimQuotes | services/exchangerateservice.go:105 | the result is a middle slice of the text, with only quotes removed on either side, and neither starts nor ends with a quote |
| ExchangeRates.TrimQuotesIdempotent | services/exchangerateservice.go:105 | trimming twice is trimming once |
| ExchangeRates.QuotedCloseIsUnquoted | services/exchangerateservice.go:104-106 | a close written in quotes is read without them |
| ExchangeRates.ClassifyRateRow | services/exchangerateservice.go:97-109 | a row stores exactly when its date parses as `MM/DD/YYYY` and its unquoted field 4 parses; it is skipped when either fails; a missing field is a crash, and field 4 is only read after a valid date |
| ExchangeRates.DatedRowStoresClose | services/exchangerateservice.go:97-112 | a row holding the `MM/DD/YYYY` text of a day and a quoted number stores that number under that day |
| ExchangeRates.FoldVerdicts | services/exchangerateservice.go:91-113 | folding the verdicts fails exactly when one crashes, and then with the first crash's error |
| ExchangeRates.FoldedDaysAreStoredDays | services/exchangerateservice.go:111-112 | a day is in the folded table exactly when some verdict stores it |
| ExchangeRates.LastStoreWins | services/exchangerateservice.go:112 | a day holds the rate of the last verdict that stores it |
| ExchangeRates.SkipChangesNothing | services/exchangerateservice.go:100-108 | a skip verdict leaves the folded table as if it were absent |
| ExchangeRates.LoadRecords | services/exchangerateservice.go:91-113 | loading the data rows fails exactly when some row crashes, with the first crash's error; every key of a loaded table is a valid day |
| ExchangeRates.LoadedDaysAreStoredDays | services/exchangerateservice.go:111-112 | a day is in the loaded table exactly when some row stores it |
| ExchangeRates.LastRecordWins | services/exchangerateservice.go:111-112 | a later row for the same day overwrites an earlier one |
| ExchangeRates.SkippedRecordChangesNothing | services/exchangerateservice.go:97-109 | a row with an unparsable date or close leaves the table as if it were absent |
| ExchangeRates.RecordsBeforeError | services/exchangerateservice.go:91-95 | the rows folded are exactly those read before the reader's first error |
| ExchangeRates.LoadRates | services/exchangerateservice.go:74-116 | the load fails with the header error exactly when not even the header can be read; a loaded table holds only valid days; once the header is read, the result is `LoadRecords` of the records after it, up to the reader's first error |
| ExchangeRates.LoadIgnoresHeader | services/exchangerateservice.go:83-87 | the header's contents never change the result |
| ExchangeRates.LoadStopsAtFirstError | services/exchangerateservice.go:91-95 | a reader error ends the load without an error; nothing after it is read |
| ExchangeRates.FirstQuoted | services/exchangerateservice.go:140-153 | finds the fewest steps back, within the budget, to a quoted day; it finds none only when no day in the window is quoted |
| ExchangeRates.LookupRate | services/exchangerateservice.go:118-119 | the exact day's rate when quoted; otherwise the rate of the nearest quoted day at most ten days back; it fails only when none of those eleven days is quoted |
| ExchangeRates.LookupIsLatestQuoteInWindow | services/exchangerateservice.go:118-119 | on the calendar: it succeeds exactly when some quoted day lies within ten days before the date, and returns the rate of the latest quoted day on or before it |
| ExchangeRates.GetRate | services/exchangerateservice.go:120-156 | an unknown currency fails with "currency not found"; otherwise the currency's own table is searched, with success exactly when some day of the window is quoted, and the rate returned is that of the nearest quoted day, the requested one first |
| ExchangeRates.GetRateIsLatestQuote | services/exchangerateservice.go:118-156 | on the calendar: a lookup in a known currency succeeds exactly when a day at most ten days back is quoted, and returns the latest quote on or before the requested day |
| ExchangeRates.GetRateIgnoresTimeOfDay | services/exchangerateservice.go:121 | only the calendar day of the requested time matters |
| ExchangeRates.GetRateAsWritten | services/exchangerateservice.go:120-156 | the live body always fails; the error is "currency not found" exactly when the currency has no table |
| ExchangeRates.AsWrittenMissesQuotedDay | services/exchangerateservice.go:139-156 | on every quoted day the documented lookup returns the stored rate while the live body fails |
| ExchangeRateScenarios.ExampleRowStores | services/exchangerateservice.go:17-27 | the rows for 10/24/2024 and 10/25/2024 with quoted closes store those closes under those days |
| ExchangeRateScenarios.ExampleRateFileLoads | services/exchangerateservice.go:17-22 | a header and those two rows load into the table {2024-10-24: 152.25, 2024-10-25: 152.30} |
| ExchangeRateScenarios.ExampleRateLookups | services/exchangerateservice_test.go:33-40 | with that table for "USD": 2024-10-25 gives 152.30 at any time of day, the Sunday after gives it too, and an unloaded currency fails |
| ExchangeRateScenarios.ZeroTimeHasNoRate | services/exchangerateservice_test.go:44-50 | the zero time finds no rate in a table of later days |
| Trades.ParseAction | models/trades.go:90-99 | "BUY" exactly when the proceeds text starts with '-' |
| Trades.ActionFollowsSign | models/trades.go:91-96 | on the decimal text of a number, the text test is the sign test |
| Trades.ParseTradeDate | models/trades.go:107-118 | fewer than ten characters is the slice panic; otherwise success exactly when the first ten characters are a `2006-01-02` day, giving midnight of that day |
| Trades.TradeDatePrefixOnly | models/trades.go:108 | only the first ten characters matter |
| Trades.TradeDateDropsClock | models/trades.go:105-108 | a time written in the statement's date-time layout reads back as midnight of its day |
| Trades.ParseIntField | models/trades.go:120-130 | the empty text is its own error; otherwise success exactly for sign-and-digits text whose value fits in 32 bits |
| Trades.IntFieldRoundTrip | models/trades.go:124 | every 32-bit value reads back from its decimal text |
| Trades.IntFieldOutOfRange | models/trades.go:124 | a well-formed number just outside the 32-bit range is refused |
| Trades.ParseFloatField | models/trades.go:132-142 | the empty text is its own error; other text succeeds exactly when the number parser accepts it |
| Trades.RateOn | models/trades.go:57-60 | a failed rate lookup is the fatal error |
| Trades.ParseAmounts | models/trades.go:71-75 | the five amount columns decode left to right, and the first failing column decides the error |
| Trades.NewTrade | models/trades.go:43-53 | the checks come in the source's order: an empty row panics on its first field, a row of another section is an error, then a wrong field count; only a row passing all three can decode |
| Trades.DecodeOrderRow | models/trades.go:55-60 | success exactly when every column decodes and the day has a rate, and then the trade is what the row says; every failure ends the process: a bad date is the date parser's panic (line 114), a day without a rate is the `log.Fatalf` (line 59), and a dated row is decoded by `DecodeDated` |
| Trades.DecodeDated | models/trades.go:62-87 | success exactly when the quantity and the five amounts parse; text columns are copied verbatim, numbers are the parsers' values, the action follows column 9 and the yen proceeds are proceeds times the rate; a failure is fatal and is the quantity's error, else the first failing amount's |
| Trades.TradeRowRoundTrip | models/trades.go:62-85 | writing a trade as a statement row and decoding it with `NewTrade` gives the trade back, given a number formatter whose text of each of the trade's five amounts `parseFloat` reads back |
| Trades.ClassifyTradeRow | models/trades.go:152-165 | header and subtotal rows are skipped; "Data"/"Order" rows are orders; rows too short for the indexed fields panic |
| Trades.RowStep | models/trades.go:149-165 | header and subtotal rows pass; an order row is collected when `NewTrade` succeeds; a failing order row abandons the batch on a returned error (line 159) and crashes it on a fatal one; a short row or any other row crashes it (line 164) |
| Trades.RunSteps | models/trades.go:149-167 | the batch completes exactly when no step stops it, and otherwise ends as the first stopping step dictates |
| Trades.DoneCollectsInOrder | models/trades.go:161 | a completed batch holds the trade of every collecting step, in order |
| Trades.PassChangesNothing | models/trades.go:152-154 | a passing step changes no outcome |
| Trades.StopEndsRun | models/trades.go:155-165 | nothing after the first stopping step is looked at |
| Trades.ProcessTrades | models/trades.go:145-175 | the batch completes exactly when no row stops it; otherwise the first stopping row decides; a completed batch holds the collected trades in order |
| Trades.SkippedRowChangesNothing | models/trades.go:152-154 | removing a header or subtotal row changes no outcome |
| Trades.StopsAtFirstFailure | models/trades.go:156-160 | a failing row decides the outcome, whatever rows follow |
| TradeScenarios.ExampleActions | models/trades.go:92-93 | proceeds "-1900" are a buy and "1250" a sale |
| TradeScenarios.ExampleTradeDate | models/trades.go:92 | "2024-01-12, 16:20:00" reads as midnight of 2024-01-12 |
| TradeScenarios.ExampleQuantity | models/trades.go:92 | the quantity "200" reads as 200 |
| TradeScenarios.ExampleOrderRow | models/trades.go:92 | the SOFI order row decodes to a buy of 200 at 9.5 with yen proceeds -1900 times the day's rate |
| TradeScenarios.ExampleBatch | models/trades.go:145-175 | a header row, any one row and a subtotal row end as that row alone decides: a completed batch of its trade, the same halt, or an empty batch |
| TradeScenarios.BetweenPasses | models/trades.go:149-167 | two skipped rows around one step leave the run's outcome to that step |

## Left out

- File access: `os.Open`, `os.ReadDir` and the directory listing in `LoadExchangeRates` (services/exchangerateservice.go:48-71). That function never calls the loader, so `AddCurrency` leaves a new currency's table empty. `InstallRates` is the explicit step that installs a table `LoadRates` produced.
- CSV tokenising (`encoding/csv`): the model starts from the records the reader delivers. Records without fields never occur, which is the `Csv.AllNonEmpty` requirement.
- Csv.GroupRecords: read errors other than end of file are not modelled separately. Both loops test only for `io.EOF`. So a record that comes back with an error is grouped like any other, and the record sequence covers it. Such records are one of a different width (`ErrFieldCount`, since `FieldsPerRecord` is left at 0) or the partial record of a parse error. Only an error that comes with no record, or a record without fields, makes `record[0]` panic; this is the `AllNonEmpty` requirement.
- Console output (`fmt.Println`, `fmt.Printf`) and the list of trades printed at models/trades.go:168-173.
- `strconv.ParseFloat` is a parameter, and amounts are exact reals. Rounding of `float64`, including in `getJPYProceeds`, is not modelled.
- The package-level `rateService` in models/trades.go:41: its constructor call passes an argument that `NewExchangeRateService` does not take, and `GetRate` is called without a currency. `NewTrade` takes the rate lookup as the parameter `rateFor` instead.
- The `s.rates == nil` guard of `GetRate` (services/exchangerateservice.go:126-129): a `Service` always has a map.
- `HasCurrency` tests for a non-nil table. No operation here stores a nil table, so membership is the same test.
- main.go's command dispatch and flag handling.
- Time zones, fractional seconds and Go's `Format` of years beyond four digits are not modelled. Days have four-digit years wherever text is involved.
- Go slices strings by bytes and the model slices by characters. The two agree on the ASCII text of statements and rate files.
- Error message texts are not modelled, including the message at models/trades.go:52, which reports `len(data[0])` rather than the row length. The model keeps only which error occurs.
- The warning printed by `parseDate` for short text (models/trades.go:109-111) is never reached, because the slice `dateStr[:10]` panics first. The model reports the panic as `DateTooShort`.
- Trades.ProcessTrades: the source returns 0 on every path. The model returns the `Outcome` (the collected trades, or how the batch halted) instead.
- `ProcessTrades` does not register currencies with the rate service, and neither does the model.
- Go's zero values returned next to an error (for example `0.00` from `GetRate`) are not modelled.

## Findings

| source | as written | input that shows it | evidently intended | confidence | as-written member | corrected member |
|---|---|---|---|---|---|---|
| services/exchangerateservice.go:120-156 | the exact-day and step-back lookups are commented out, so every lookup of a currency that has a table returns "No exchange rate found" | "USD" table holding 2024-10-25 → 152.30; `GetRate("USD", 2024-10-25)` | the documented lookup that the test at services/exchangerateservice_test.go:33-40 expects: the exact day, else up to ten days back, in the currency's own table | high; not executed | ExchangeRates.GetRateAsWritten | ExchangeRates.GetRate |

`ExchangeRates.AsWrittenMissesQuotedDay` proves the discrepancy. On every day the table quotes, `GetRate` returns the stored rate and `GetRateAsWritten` fails. `ExchangeRateScenarios.ExampleRateLookups` gives 152.30 for the test's date. The disabled step-back loop also looks the key up in the outer currency map (line 150) instead of `ratesForCurrency`. The corrected `GetRate` searches the currency's own table. `ExchangeRates.LookupIsLatestQuoteInWindow` proves it returns the latest quote within the ten-day window.
