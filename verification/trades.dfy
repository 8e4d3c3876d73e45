/** Trade rows of an Interactive Brokers activity statement (models/trades.go):
    the decoding of one `Trades,Data,Order,...` row into a `Trade`, the field
    parsers it uses, and the batch loop that skips header and subtotal rows,
    builds one trade per order row and stops at the first failure.

    Go reports failure three ways here: a returned `error`, a `panic`, and
    `log.Fatalf`. All three are values of `TradeError`; `IsFatal` tells the
    two that end the process from the two that are returned. */
module Trades {
  import opened Results
  import opened Digits
  import opened Calendar
  import opened DateText
  import opened Csv
  import opened Sequences

  /** `CalculatedData.Action`: "BUY" or "SELL". */
  datatype Action = Buy | Sell

  /** The computed part of a trade. Basis and P/L in yen are never filled in
      and keep Go's zero value. */
  datatype CalculatedData = CalculatedData(action: Action, jpyRate: real, proceedsJpy: real,
                                           basisJpy: real, plJpy: real)

  /** `Trade`: fourteen decoded columns plus the computed `Extra`. */
  datatype Trade = Trade(
    category: string,
    header: string,
    dataDiscriminator: string,
    assetCategory: string,
    currency: string,
    symbol: string,
    dateTime: Timestamp,
    quantity: int,
    transactionPrice: real,
    proceeds: real,
    commFee: real,
    basis: real,
    realizedPL: real,
    code: string,
    extra: CalculatedData)

  /** Struct fields of `Trade`, as `reflect.TypeOf(Trade{}).NumField()` counts them. */
  const TradeStructFields: nat := 15

  /** Columns a trade row must have: every struct field but `Extra`. */
  const TradeFieldCount: nat := TradeStructFields - 1

  datatype TradeError =
    | NotTrades          // field 0 is not "Trades" (returned error)
    | WrongFieldCount    // not exactly `TradeFieldCount` fields (returned error)
    | MissingField       // a field index past the end of the row (panic)
    | DateTooShort       // `dateStr[:10]` on fewer than ten characters (panic)
    | BadDate            // neither date layout matches (panic)
    | NoRate             // the rate lookup failed (`log.Fatalf`)
    | EmptyInt           // `parseInt("")` (panic)
    | BadInt             // `strconv.ParseInt` failed (panic)
    | EmptyFloat         // `parseFloat("")` (panic)
    | BadFloat           // `strconv.ParseFloat` failed (panic)
  {
    /** Whether the failure ends the process instead of being returned. */
    predicate IsFatal() {
      !(NotTrades? || WrongFieldCount?)
    }
  }

  // ---------------------------------------------------------------------------
  // Field parsers

  /** `parseAction`: negative proceeds mean the shares were bought. The test is
      on the text, a leading '-'. */
  function ParseAction(proceeds: string): (a: Action)
    ensures a == Buy <==> |proceeds| > 0 && proceeds[0] == '-'
  {
    if "-" <= proceeds then Buy else Sell
  }

  /** On the decimal text of a number the textual test is the sign test. */
  lemma ActionFollowsSign(n: int)
    ensures ParseAction(FormatInt(n)) == (if n < 0 then Buy else Sell)
  {
    if n >= 0 {
      assert IsDigit(FormatInt(n)[0]);
    }
  }

  /** `parseDate`: only the first ten characters are parsed, so a date-time
      text gives midnight of its day. Fewer than ten characters make the
      slice panic; text the date parser refuses panics too. */
  function ParseTradeDate(s: string): (r: Result<Timestamp, TradeError>)
    ensures r.Failure? ==> r.error == DateTooShort || r.error == BadDate
    ensures r == Failure(DateTooShort) <==> |s| < 10
    ensures |s| >= 10 ==> (r.Success? <==> ParseIsoDate(s[..10]).Some?)
    ensures r.Success? ==> ValidTimestamp(r.value) && FourDigitYear(r.value.date)
    ensures r.Success? ==> r.value == Midnight(r.value.date) && FormatIsoDate(r.value.date) == s[..10]
  {
    if |s| < 10 then Failure(DateTooShort)
    else
      var p := ParseDate(s[..10]);
      ShortTextIsDateOnly(s[..10]);
      if p.ok then Success(p.time) else Failure(BadDate)
  }

  /** Only the first ten characters matter. */
  lemma TradeDatePrefixOnly(s: string, u: string)
    requires |s| >= 10 && |u| >= 10 && s[..10] == u[..10]
    ensures ParseTradeDate(s) == ParseTradeDate(u)
  {
  }

  /** A timestamp written in the statement's date-time layout is read back as
      midnight of its day: the clock is dropped. */
  lemma TradeDateDropsClock(t: Timestamp)
    requires ValidTimestamp(t) && FourDigitYear(t.date)
    ensures ParseTradeDate(FormatDateTime(t)) == Success(Midnight(t.date))
  {
    var s := FormatDateTime(t);
    assert s[..10] == FormatIsoDate(t.date);
    IsoDateRoundTrip(t.date, s[..10]);
  }

  /** `parseInt`: the empty text is an error of its own, never zero; otherwise
      `strconv.ParseInt(value, 10, 32)`, which accepts an optional sign and
      decimal digits and refuses values outside the signed 32-bit range. */
  function ParseIntField(s: string): (r: Result<int, TradeError>)
    ensures s == "" ==> r == Failure(EmptyInt)
    ensures s != "" && r.Failure? ==> r.error == BadInt
    ensures r.Success? <==> ParseDecimal(s).Some? && MinInt32 <= ParseDecimal(s).value <= MaxInt32
    ensures r.Success? ==> Some(r.value) == ParseDecimal(s)
  {
    if s == "" then Failure(EmptyInt)
    else
      match ParseDecimal(s)
      case None => Failure(BadInt)
      case Some(n) => if MinInt32 <= n <= MaxInt32 then Success(n) else Failure(BadInt)
  }

  /** Every signed 32-bit value survives formatting and `parseInt`. */
  lemma IntFieldRoundTrip(n: int)
    requires MinInt32 <= n <= MaxInt32
    ensures ParseIntField(FormatInt(n)) == Success(n)
  {
    DecimalRoundTrip(n);
  }

  /** Just past either end of the 32-bit range the field is refused, although
      the text is a well-formed number. */
  lemma IntFieldOutOfRange(n: int)
    requires n == MaxInt32 + 1 || n == MinInt32 - 1
    ensures ParseDecimal(FormatInt(n)) == Some(n)
    ensures ParseIntField(FormatInt(n)) == Failure(BadInt)
  {
    DecimalRoundTrip(n);
  }

  /** `parseFloat`: the empty text is an error of its own, never zero; other
      text goes to the number parser `parseFloat` (`strconv.ParseFloat`). */
  function ParseFloatField(s: string, parseFloat: string -> Option<real>): (r: Result<real, TradeError>)
    ensures s == "" ==> r == Failure(EmptyFloat)
    ensures s != "" ==> (r.Success? <==> parseFloat(s).Some?)
    ensures s != "" && r.Failure? ==> r.error == BadFloat
    ensures r.Success? ==> Some(r.value) == parseFloat(s)
  {
    if s == "" then Failure(EmptyFloat)
    else
      match parseFloat(s)
      case None => Failure(BadFloat)
      case Some(v) => Success(v)
  }

  // ---------------------------------------------------------------------------
  // One row

  /** The rate lookup as a `Result`: `log.Fatalf` when it fails. */
  function RateOn(rateFor: Timestamp -> Option<real>, t: Timestamp): (r: Result<real, TradeError>)
    ensures r.Success? <==> rateFor(t).Some?
    ensures r.Success? ==> r.value == rateFor(t).value
    ensures r.Failure? ==> r.error == NoRate
  {
    match rateFor(t)
    case None => Failure(NoRate)
    case Some(v) => Success(v)
  }

  /** Columns 8 to 12 (price, proceeds, commission, basis, realised P/L) all parse. */
  predicate AmountsParse(row: Record, parseFloat: string -> Option<real>)
    requires |row| == TradeFieldCount
  {
    forall i :: 8 <= i <= 12 ==> ParseFloatField(row[i], parseFloat).Success?
  }

  /** The five money columns of a trade row. */
  datatype Amounts = Amounts(price: real, proceeds: real, commFee: real, basis: real, realizedPL: real)

  /** Columns 8 to 12 decoded left to right: the first column that fails
      decides the error. */
  function ParseAmounts(row: Record, parseFloat: string -> Option<real>): (r: Result<Amounts, TradeError>)
    requires |row| == TradeFieldCount
    ensures r.Success? <==> AmountsParse(row, parseFloat)
    ensures r.Success? ==>
              && Some(r.value.price) == parseFloat(row[8]) && Some(r.value.proceeds) == parseFloat(row[9])
              && Some(r.value.commFee) == parseFloat(row[10]) && Some(r.value.basis) == parseFloat(row[11])
              && Some(r.value.realizedPL) == parseFloat(row[12])
    ensures r.Failure? ==> r.error == EmptyFloat || r.error == BadFloat
    ensures r.Failure? ==> exists i :: 8 <= i <= 12 && ParseFloatField(row[i], parseFloat) == Failure(r.error)
                                       && forall j :: 8 <= j < i ==> ParseFloatField(row[j], parseFloat).Success?
  {
    var price :- ParseFloatField(row[8], parseFloat);
    var proceeds :- ParseFloatField(row[9], parseFloat);
    var commFee :- ParseFloatField(row[10], parseFloat);
    var basis :- ParseFloatField(row[11], parseFloat);
    var realizedPL :- ParseFloatField(row[12], parseFloat);
    Success(Amounts(price, proceeds, commFee, basis, realizedPL))
  }

  /** `t` is what a trade row says once its day and that day's rate are
      known: its text columns verbatim, its quantity and amounts as the
      parsers read them, its action from the proceeds column, and the proceeds
      in yen as proceeds times the rate (basis and P/L in yen stay zero). */
  predicate ReadAfterDate(t: Trade, row: Record, date: Timestamp, rate: real, parseFloat: string -> Option<real>)
    requires |row| == TradeFieldCount
  {
    && t.category == row[0] && t.header == row[1] && t.dataDiscriminator == row[2]
    && t.assetCategory == row[3] && t.currency == row[4] && t.symbol == row[5]
    && t.code == row[13]
    && t.dateTime == date
    && Success(t.quantity) == ParseIntField(row[7])
    && Some(t.transactionPrice) == parseFloat(row[8])
    && Some(t.proceeds) == parseFloat(row[9])
    && Some(t.commFee) == parseFloat(row[10])
    && Some(t.basis) == parseFloat(row[11])
    && Some(t.realizedPL) == parseFloat(row[12])
    && t.extra.action == ParseAction(row[9])
    && t.extra.jpyRate == rate
    && t.extra.proceedsJpy == t.proceeds * rate
    && t.extra.basisJpy == 0.0 && t.extra.plJpy == 0.0
  }

  /** `t` is what a trade row says: its date as the date parser reads it, the
      rate `rateFor` gives for that day, and the rest as `ReadAfterDate`. */
  predicate ReadFrom(t: Trade, row: Record, rateFor: Timestamp -> Option<real>, parseFloat: string -> Option<real>)
    requires |row| == TradeFieldCount
  {
    && Success(t.dateTime) == ParseTradeDate(row[6])
    && Some(t.extra.jpyRate) == rateFor(t.dateTime)
    && ReadAfterDate(t, row, t.dateTime, t.extra.jpyRate, parseFloat)
  }

  /** The decoding half of `NewTrade`, on a row that passed its checks: the
      date first, then the day's rate from `rateFor` (a failed lookup is the
      `log.Fatalf`), then the rest by `DecodeDated`. Every failure here ends
      the process, and the first column that fails decides which. */
  function DecodeOrderRow(row: Record, rateFor: Timestamp -> Option<real>, parseFloat: string -> Option<real>)
    : (r: Result<Trade, TradeError>)
    requires |row| == TradeFieldCount
    ensures r.Success? <==>
              && ParseTradeDate(row[6]).Success?
              && rateFor(ParseTradeDate(row[6]).value).Some?
              && ParseIntField(row[7]).Success?
              && AmountsParse(row, parseFloat)
    ensures r.Success? ==> ReadFrom(r.value, row, rateFor, parseFloat)
    ensures r.Failure? ==> r.error.IsFatal()
    ensures ParseTradeDate(row[6]).Failure? ==> r == Failure(ParseTradeDate(row[6]).error)
    ensures ParseTradeDate(row[6]).Success? && rateFor(ParseTradeDate(row[6]).value).None? ==> r == Failure(NoRate)
    ensures ParseTradeDate(row[6]).Success? && rateFor(ParseTradeDate(row[6]).value).Some? ==>
              r == DecodeDated(row, ParseTradeDate(row[6]).value, rateFor(ParseTradeDate(row[6]).value).value, parseFloat)
  {
    var date :- ParseTradeDate(row[6]);
    var rate :- RateOn(rateFor, date);
    DecodeDated(row, date, rate, parseFloat)
  }

  /** The rest of the decode once the day and its rate are known: the
      quantity, then the five amounts left to right (Go evaluates the struct
      literal's fields in order), then the computed part. */
  function DecodeDated(row: Record, date: Timestamp, rate: real, parseFloat: string -> Option<real>)
    : (r: Result<Trade, TradeError>)
    requires |row| == TradeFieldCount
    ensures r.Success? <==> ParseIntField(row[7]).Success? && AmountsParse(row, parseFloat)
    ensures r.Success? ==> ReadAfterDate(r.value, row, date, rate, parseFloat)
    ensures r.Failure? ==> r.error.IsFatal()
    ensures ParseIntField(row[7]).Failure? ==> r == Failure(ParseIntField(row[7]).error)
    ensures ParseIntField(row[7]).Success? && !AmountsParse(row, parseFloat)
            ==> r == Failure(ParseAmounts(row, parseFloat).error)
  {
    var quantity :- ParseIntField(row[7]);
    var a :- ParseAmounts(row, parseFloat);
    var extra := CalculatedData(ParseAction(row[9]), rate, a.proceeds * rate, 0.0, 0.0);
    var t := Trade(row[0], row[1], row[2], row[3], row[4], row[5], date, quantity,
                   a.price, a.proceeds, a.commFee, a.basis, a.realizedPL, row[13], extra);
    Success(t)
  }

  /** `NewTrade`: the checks in the order the source makes them (an empty row
      panics on its first field, a row of another section is an error, then
      the field count), and a row that passes them is decoded by
      `DecodeOrderRow`. */
  function NewTrade(row: Record, rateFor: Timestamp -> Option<real>, parseFloat: string -> Option<real>)
    : (r: Result<Trade, TradeError>)
    ensures |row| == 0 ==> r == Failure(MissingField)
    ensures |row| > 0 && row[0] != "Trades" ==> r == Failure(NotTrades)
    ensures |row| > 0 && row[0] == "Trades" && |row| != TradeFieldCount ==> r == Failure(WrongFieldCount)
    ensures r.Success? ==> |row| == TradeFieldCount && row[0] == "Trades"
    ensures |row| == TradeFieldCount && row[0] == "Trades" ==> r == DecodeOrderRow(row, rateFor, parseFloat)
  {
    if |row| == 0 then Failure(MissingField)
    else if row[0] != "Trades" then Failure(NotTrades)
    else if |row| != TradeFieldCount then Failure(WrongFieldCount)
    else DecodeOrderRow(row, rateFor, parseFloat)
  }

  /** A trade the statement could contain: its category is "Trades", it
      happened at midnight of a day with a four-digit year, its quantity fits
      in 32 bits, and its computed part is what `NewTrade` computes from the
      written proceeds and the day's rate. */
  /** `formatFloat` writes `x` as a non-empty text that `parseFloat` reads back as `x`. */
  predicate ReadsBack(x: real, formatFloat: real -> string, parseFloat: string -> Option<real>) {
    formatFloat(x) != "" && parseFloat(formatFloat(x)) == Some(x)
  }

  /** The five amounts of `t` each read back from their written text. */
  predicate AmountsReadBack(t: Trade, formatFloat: real -> string, parseFloat: string -> Option<real>) {
    && ReadsBack(t.transactionPrice, formatFloat, parseFloat) && ReadsBack(t.proceeds, formatFloat, parseFloat)
    && ReadsBack(t.commFee, formatFloat, parseFloat) && ReadsBack(t.basis, formatFloat, parseFloat)
    && ReadsBack(t.realizedPL, formatFloat, parseFloat)
  }

  predicate Writable(t: Trade, formatFloat: real -> string, rateFor: Timestamp -> Option<real>) {
    && t.category == "Trades"
    && ValidTimestamp(t.dateTime) && FourDigitYear(t.dateTime.date)
    && t.dateTime == Midnight(t.dateTime.date)
    && MinInt32 <= t.quantity <= MaxInt32
    && t.extra.action == ParseAction(formatFloat(t.proceeds))
    && rateFor(t.dateTime) == Some(t.extra.jpyRate)
    && t.extra.proceedsJpy == t.proceeds * t.extra.jpyRate
    && t.extra.basisJpy == 0.0 && t.extra.plJpy == 0.0
  }

  /** A trade written out as a statement row, its time in the date-time
      layout and its amounts by `formatFloat`. */
  function TradeRow(t: Trade, formatFloat: real -> string): (row: Record)
    requires ValidTimestamp(t.dateTime) && FourDigitYear(t.dateTime.date)
    ensures |row| == TradeFieldCount
  {
    [t.category, t.header, t.dataDiscriminator, t.assetCategory, t.currency, t.symbol,
     FormatDateTime(t.dateTime), FormatInt(t.quantity),
     formatFloat(t.transactionPrice), formatFloat(t.proceeds), formatFloat(t.commFee),
     formatFloat(t.basis), formatFloat(t.realizedPL), t.code]
  }

  /** Round trip: with a number formatter the number parser inverts, writing a
      trade as a row and decoding it with `NewTrade` gives the trade back. */
  lemma TradeRowRoundTrip(t: Trade, formatFloat: real -> string, parseFloat: string -> Option<real>,
                          rateFor: Timestamp -> Option<real>)
    requires Writable(t, formatFloat, rateFor)
    requires AmountsReadBack(t, formatFloat, parseFloat)
    ensures NewTrade(TradeRow(t, formatFloat), rateFor, parseFloat) == Success(t)
  {
    var row := TradeRow(t, formatFloat);
    RowFieldsRead(t, formatFloat, parseFloat);
    DecodesTo(row, t, rateFor, parseFloat);
  }

  /** A "Trades" row whose amount columns parse and which `t` is read from
      decodes to `t`. */
  lemma DecodesTo(row: Record, t: Trade, rateFor: Timestamp -> Option<real>, parseFloat: string -> Option<real>)
    requires |row| == TradeFieldCount && row[0] == "Trades"
    requires AmountsParse(row, parseFloat) && ReadFrom(t, row, rateFor, parseFloat)
    ensures NewTrade(row, rateFor, parseFloat) == Success(t)
  {
    var r := NewTrade(row, rateFor, parseFloat);
    assert r.Success?;
    ReadFromDetermines(r.value, t, row, rateFor, parseFloat);
  }

  /** A row determines the trade read from it. */
  lemma ReadFromDetermines(d: Trade, t: Trade, row: Record, rateFor: Timestamp -> Option<real>,
                           parseFloat: string -> Option<real>)
    requires |row| == TradeFieldCount
    requires ReadFrom(d, row, rateFor, parseFloat) && ReadFrom(t, row, rateFor, parseFloat)
    ensures d == t
  {
    assert d.dateTime == ParseTradeDate(row[6]).value == t.dateTime;
    assert d.quantity == ParseIntField(row[7]).value == t.quantity;
    assert Some(d.transactionPrice) == Some(t.transactionPrice) && Some(d.proceeds) == Some(t.proceeds);
    assert Some(d.commFee) == Some(t.commFee) && Some(d.basis) == Some(t.basis);
    assert Some(d.realizedPL) == Some(t.realizedPL) && Some(d.extra.jpyRate) == Some(t.extra.jpyRate);
  }

  /** The date, quantity and amount columns of a written trade read back as
      the trade's own values. */
  lemma RowFieldsRead(t: Trade, formatFloat: real -> string, parseFloat: string -> Option<real>)
    requires ValidTimestamp(t.dateTime) && FourDigitYear(t.dateTime.date)
    requires t.dateTime == Midnight(t.dateTime.date) && MinInt32 <= t.quantity <= MaxInt32
    requires AmountsReadBack(t, formatFloat, parseFloat)
    ensures var row := TradeRow(t, formatFloat);
            && ParseTradeDate(row[6]) == Success(t.dateTime)
            && ParseIntField(row[7]) == Success(t.quantity)
            && AmountsParse(row, parseFloat)
            && parseFloat(row[8]) == Some(t.transactionPrice) && parseFloat(row[9]) == Some(t.proceeds)
            && parseFloat(row[10]) == Some(t.commFee) && parseFloat(row[11]) == Some(t.basis)
            && parseFloat(row[12]) == Some(t.realizedPL)
  {
    TradeDateDropsClock(t.dateTime);
    IntFieldRoundTrip(t.quantity);
    AmountColumnsRead(TradeRow(t, formatFloat), t, formatFloat, parseFloat);
  }

  /** The amount columns of a written trade read back as its amounts. */
  lemma AmountColumnsRead(row: Record, t: Trade, formatFloat: real -> string, parseFloat: string -> Option<real>)
    requires |row| == TradeFieldCount
    requires row[8] == formatFloat(t.transactionPrice) && row[9] == formatFloat(t.proceeds)
    requires row[10] == formatFloat(t.commFee) && row[11] == formatFloat(t.basis)
    requires row[12] == formatFloat(t.realizedPL)
    requires AmountsReadBack(t, formatFloat, parseFloat)
    ensures AmountsParse(row, parseFloat)
    ensures parseFloat(row[8]) == Some(t.transactionPrice) && parseFloat(row[9]) == Some(t.proceeds)
    ensures parseFloat(row[10]) == Some(t.commFee) && parseFloat(row[11]) == Some(t.basis)
    ensures parseFloat(row[12]) == Some(t.realizedPL)
  {
    assert ParseFloatField(row[8], parseFloat) == Success(t.transactionPrice);
    assert ParseFloatField(row[9], parseFloat) == Success(t.proceeds);
    assert ParseFloatField(row[10], parseFloat) == Success(t.commFee);
    assert ParseFloatField(row[11], parseFloat) == Success(t.basis);
    assert ParseFloatField(row[12], parseFloat) == Success(t.realizedPL);
  }

  // ---------------------------------------------------------------------------
  // The batch

  /** What `ProcessTrades` does with one row, before any trade is built. */
  datatype RowKind =
    | TooShort     // field 1, or field 2 of a "Data" row, is missing (panic)
    | Skipped      // a "Header" or "SubTotal" row
    | OrderRow     // a "Data" row whose discriminator is "Order"
    | NotATrade    // anything else (panic)

  function ClassifyTradeRow(line: Record): (k: RowKind)
    ensures k == Skipped <==> |line| >= 2 && (line[1] == "Header" || line[1] == "SubTotal")
    ensures k == OrderRow <==> |line| >= 3 && line[1] == "Data" && line[2] == "Order"
    ensures k == TooShort <==> |line| < 2 || (|line| == 2 && line[1] == "Data")
  {
    if |line| < 2 then TooShort
    else if line[1] == "Header" || line[1] == "SubTotal" then Skipped
    else if line[1] == "Data" && |line| < 3 then TooShort
    else if line[1] == "Data" && line[2] == "Order" then OrderRow
    else NotATrade
  }

  /** Why a batch ended the process. */
  datatype Crash = RowTooShort | NotATradeRow | TradeFailed(error: TradeError)

  /** How a batch stops early: abandoned at a returned `NewTrade` error (the
      function returns and the trades so far are dropped), or the process ends. */
  datatype Halt = Abandoned(error: TradeError) | Crashed(crash: Crash)

  /** How a batch ends: every row handled and the trades collected, or halted. */
  datatype Outcome = Done(trades: seq<Trade>) | Halted(halt: Halt)

  /** One row's effect on the batch. */
  datatype Step = Pass | Collect(trade: Trade) | Stop(halt: Halt)

  function RowStep(line: Record, rateFor: Timestamp -> Option<real>, parseFloat: string -> Option<real>)
    : (s: Step)
    ensures s == Pass <==> ClassifyTradeRow(line) == Skipped
    ensures s.Collect? <==> ClassifyTradeRow(line) == OrderRow && NewTrade(line, rateFor, parseFloat).Success?
    ensures s.Collect? ==> s.trade == NewTrade(line, rateFor, parseFloat).value
    ensures s.Stop? && s.halt.Abandoned? ==> !s.halt.error.IsFatal()
    ensures s.Stop? && s.halt.Crashed? && s.halt.crash.TradeFailed? ==> s.halt.crash.error.IsFatal()
    ensures ClassifyTradeRow(line) == TooShort ==> s == Stop(Crashed(RowTooShort))
    ensures ClassifyTradeRow(line) == NotATrade ==> s == Stop(Crashed(NotATradeRow))
    ensures ClassifyTradeRow(line) == OrderRow && NewTrade(line, rateFor, parseFloat).Failure? ==>
              var e := NewTrade(line, rateFor, parseFloat).error;
              s == Stop(if e.IsFatal() then Crashed(TradeFailed(e)) else Abandoned(e))
  {
    match ClassifyTradeRow(line)
    case TooShort => Stop(Crashed(RowTooShort))
    case Skipped => Pass
    case NotATrade => Stop(Crashed(NotATradeRow))
    case OrderRow =>
      match NewTrade(line, rateFor, parseFloat)
      case Success(t) => Collect(t)
      case Failure(e) => if e.IsFatal() then Stop(Crashed(TradeFailed(e))) else Stop(Abandoned(e))
  }

  /** The trades of the collecting steps, in order. */
  function Collected(steps: seq<Step>): (ts: seq<Trade>)
    ensures |ts| <= |steps|
  {
    if |steps| == 0 then []
    else Collected(steps[..|steps| - 1])
         + (if steps[|steps| - 1].Collect? then [steps[|steps| - 1].trade] else [])
  }

  /** The loop of `ProcessTrades` over the rows' steps, in order. It completes
      exactly when no step stops it, and otherwise ends as the FIRST stopping
      step dictates, whatever follows. */
  function RunSteps(steps: seq<Step>): (o: Outcome)
    ensures o.Done? <==> forall i :: 0 <= i < |steps| ==> !steps[i].Stop?
    ensures o.Halted? ==> exists i :: 0 <= i < |steps| && steps[i] == Stop(o.halt)
                                     && forall j :: 0 <= j < i ==> !steps[j].Stop?
    decreases |steps|
  {
    if |steps| == 0 then Done([])
    else
      var init := steps[..|steps| - 1];
      assert forall i :: 0 <= i < |init| ==> init[i] == steps[i];
      match RunSteps(init)
      case Done(ts) =>
        (match steps[|steps| - 1]
         case Pass => Done(ts)
         case Collect(t) => Done(ts + [t])
         case Stop(h) => Halted(h))
      case o => o
  }

  /** A completed run holds the trade of every collecting step, in order. */
  lemma {:induction false} DoneCollectsInOrder(steps: seq<Step>)
    requires RunSteps(steps).Done?
    ensures RunSteps(steps).trades == Collected(steps)
    decreases |steps|
  {
    if |steps| > 0 {
      var init := steps[..|steps| - 1];
      assert forall i :: 0 <= i < |init| ==> init[i] == steps[i];
      DoneCollectsInOrder(init);
    }
  }

  /** A passing step contributes nothing: removing it changes no outcome. */
  lemma {:induction false} PassChangesNothing(pre: seq<Step>, post: seq<Step>)
    ensures RunSteps(pre + [Pass] + post) == RunSteps(pre + post)
    decreases |post|
  {
    if |post| == 0 {
      assert (pre + [Pass] + post)[..|pre| + 1 - 1] == pre;
      assert pre + post == pre;
    } else {
      var init := post[..|post| - 1];
      assert (pre + [Pass] + post)[..|pre + [Pass] + post| - 1] == pre + [Pass] + init;
      assert (pre + post)[..|pre + post| - 1] == pre + init;
      PassChangesNothing(pre, init);
    }
  }

  /** Nothing after the first stopping step is looked at. */
  lemma {:induction false} StopEndsRun(pre: seq<Step>, h: Halt, post: seq<Step>)
    requires RunSteps(pre).Done?
    ensures RunSteps(pre + [Stop(h)] + post) == Halted(h)
    decreases |post|
  {
    if |post| == 0 {
      assert (pre + [Stop(h)] + post)[..|pre| + 1 - 1] == pre;
    } else {
      var init := post[..|post| - 1];
      assert (pre + [Stop(h)] + post)[..|pre + [Stop(h)] + post| - 1] == pre + [Stop(h)] + init;
      StopEndsRun(pre, h, init);
    }
  }

  /** `RowStep` with the batch's lookup and number parser fixed. */
  function StepOf(rateFor: Timestamp -> Option<real>, parseFloat: string -> Option<real>): Record -> Step {
    line => RowStep(line, rateFor, parseFloat)
  }

  /** The steps of a batch, row by row. */
  function Steps(rows: seq<Record>, rateFor: Timestamp -> Option<real>, parseFloat: string -> Option<real>)
    : (s: seq<Step>)
    ensures |s| == |rows|
    ensures forall i :: 0 <= i < |rows| ==> s[i] == RowStep(rows[i], rateFor, parseFloat)
  {
    Map(StepOf(rateFor, parseFloat), rows)
  }

  /** The steps of rows read in stretches are the stretches' steps. */
  lemma StepsAppend(a: seq<Record>, b: seq<Record>, rateFor: Timestamp -> Option<real>,
                    parseFloat: string -> Option<real>)
    ensures Steps(a + b, rateFor, parseFloat) == Steps(a, rateFor, parseFloat) + Steps(b, rateFor, parseFloat)
  {
    MapAppend(StepOf(rateFor, parseFloat), a, b);
  }

  /** `ProcessTrades` over the rows of the "Trades" group. */
  function ProcessTrades(rows: seq<Record>, rateFor: Timestamp -> Option<real>, parseFloat: string -> Option<real>)
    : (o: Outcome)
    ensures o.Done? <==> forall i :: 0 <= i < |rows| ==> !RowStep(rows[i], rateFor, parseFloat).Stop?
    ensures o.Halted? ==> exists i :: 0 <= i < |rows| && RowStep(rows[i], rateFor, parseFloat) == Stop(o.halt)
                                     && forall j :: 0 <= j < i ==> !RowStep(rows[j], rateFor, parseFloat).Stop?
    ensures o.Done? ==> o.trades == Collected(Steps(rows, rateFor, parseFloat))
  {
    var steps := Steps(rows, rateFor, parseFloat);
    var o := RunSteps(steps);
    assert o.Done? ==> o.trades == Collected(steps) by {
      if o.Done? {
        DoneCollectsInOrder(steps);
      }
    }
    o
  }

  /** Header and subtotal rows contribute nothing: removing one changes no outcome. */
  lemma SkippedRowChangesNothing(pre: seq<Record>, skipped: Record, post: seq<Record>,
                                 rateFor: Timestamp -> Option<real>, parseFloat: string -> Option<real>)
    requires ClassifyTradeRow(skipped) == Skipped
    ensures ProcessTrades(pre + [skipped] + post, rateFor, parseFloat) == ProcessTrades(pre + post, rateFor, parseFloat)
  {
    StepsAppend(pre + [skipped], post, rateFor, parseFloat);
    StepsAppend(pre, [skipped], rateFor, parseFloat);
    StepsAppend(pre, post, rateFor, parseFloat);
    assert Steps([skipped], rateFor, parseFloat) == [Pass];
    PassChangesNothing(Steps(pre, rateFor, parseFloat), Steps(post, rateFor, parseFloat));
  }

  /** A row that stops the batch decides its outcome, whatever rows follow. */
  lemma StopsAtFirstFailure(pre: seq<Record>, bad: Record, post: seq<Record>,
                            rateFor: Timestamp -> Option<real>, parseFloat: string -> Option<real>)
    requires ProcessTrades(pre, rateFor, parseFloat).Done?
    requires RowStep(bad, rateFor, parseFloat).Stop?
    ensures ProcessTrades(pre + [bad] + post, rateFor, parseFloat) == Halted(RowStep(bad, rateFor, parseFloat).halt)
  {
    StepsAppend(pre + [bad], post, rateFor, parseFloat);
    StepsAppend(pre, [bad], rateFor, parseFloat);
    assert Steps([bad], rateFor, parseFloat) == [RowStep(bad, rateFor, parseFloat)];
    StopEndsRun(Steps(pre, rateFor, parseFloat), RowStep(bad, rateFor, parseFloat).halt,
                Steps(post, rateFor, parseFloat));
  }
}
