/** The statement rows quoted in the comment of `parseAction`
    (models/trades.go), stated over the model: the buy of 200 SOFI on
    2024-01-12 and the subtotal row that follows the orders. */
module TradeScenarios {
  import opened Results
  import opened Digits
  import opened Calendar
  import opened DateText
  import opened Csv
  import opened Trades

  /** Proceeds "-1900" are a buy, proceeds "1250" a sale. */
  lemma ExampleActions()
    ensures ParseAction("-1900") == Buy
    ensures ParseAction("1250") == Sell
  {
  }

  /** The date-time column of the example rows gives midnight of its day. */
  lemma ExampleTradeDate(s: string)
    requires s == "2024-01-12, 16:20:00"
    ensures ParseTradeDate(s) == Success(Midnight(Date(2024, 1, 12)))
  {
    var t := Timestamp(Date(2024, 1, 12), 16, 20, 0);
    assert FormatIsoDate(t.date) == "2024-01-12";
    assert FormatClock(16, 20, 0) == "16:20:00";
    assert FormatDateTime(t) == s;
    TradeDateDropsClock(t);
  }

  /** The quantity column "200". */
  lemma ExampleQuantity(s: string)
    requires s == "200"
    ensures ParseIntField(s) == Success(200)
  {
    assert FormatInt(200) == s;
    IntFieldRoundTrip(200);
  }

  /** `Trades,Data,Order,Stocks,USD,SOFI,"2024-01-12, 16:20:00",200,9.5,-1900,0,1900,0,A;O`
      decodes to a buy of 200 shares at midnight of 2024-01-12, its proceeds
      converted at the rate of that day. */
  lemma ExampleOrderRow(row: Record, rateFor: Timestamp -> Option<real>, parseFloat: string -> Option<real>, rate: real)
    requires row == ["Trades", "Data", "Order", "Stocks", "USD", "SOFI", "2024-01-12, 16:20:00",
                     "200", "9.5", "-1900", "0", "1900", "0", "A;O"]
    requires parseFloat("9.5") == Some(9.5) && parseFloat("-1900") == Some(-1900.0)
    requires parseFloat("0") == Some(0.0) && parseFloat("1900") == Some(1900.0)
    requires rateFor(Midnight(Date(2024, 1, 12))) == Some(rate)
    ensures NewTrade(row, rateFor, parseFloat)
            == Success(Trade("Trades", "Data", "Order", "Stocks", "USD", "SOFI", Midnight(Date(2024, 1, 12)),
                             200, 9.5, -1900.0, 0.0, 1900.0, 0.0, "A;O",
                             CalculatedData(Buy, rate, -1900.0 * rate, 0.0, 0.0)))
  {
    ExampleOrderColumns(row, parseFloat);
    var t := Trade("Trades", "Data", "Order", "Stocks", "USD", "SOFI", Midnight(Date(2024, 1, 12)),
                   200, 9.5, -1900.0, 0.0, 1900.0, 0.0, "A;O",
                   CalculatedData(Buy, rate, -1900.0 * rate, 0.0, 0.0));
    DecodesTo(row, t, rateFor, parseFloat);
  }

  /** The date, quantity, proceeds and amount columns of that row. */
  lemma ExampleOrderColumns(row: Record, parseFloat: string -> Option<real>)
    requires |row| == TradeFieldCount
    requires row[6] == "2024-01-12, 16:20:00" && row[7] == "200"
    requires row[8] == "9.5" && row[9] == "-1900" && row[10] == "0" && row[11] == "1900" && row[12] == "0"
    requires parseFloat("9.5") == Some(9.5) && parseFloat("-1900") == Some(-1900.0)
    requires parseFloat("0") == Some(0.0) && parseFloat("1900") == Some(1900.0)
    ensures ParseTradeDate(row[6]) == Success(Midnight(Date(2024, 1, 12)))
    ensures ParseIntField(row[7]) == Success(200)
    ensures ParseAction(row[9]) == Buy
    ensures AmountsParse(row, parseFloat)
  {
    ExampleTradeDate(row[6]);
    ExampleQuantity(row[7]);
    ExampleActions();
  }

  /** A batch of a header row, one more row and a subtotal row ends as that
      row's step dictates: with its trade when it decodes, halted as it halts
      otherwise, and empty when it is skipped too. */
  lemma ExampleBatch(header: Record, order: Record, subtotal: Record, rateFor: Timestamp -> Option<real>,
                     parseFloat: string -> Option<real>)
    requires |header| >= 2 && header[1] == "Header"
    requires |subtotal| >= 2 && subtotal[1] == "SubTotal"
    ensures var step := RowStep(order, rateFor, parseFloat);
            ProcessTrades([header, order, subtotal], rateFor, parseFloat)
            == (match step
                case Pass => Done([])
                case Collect(t) => Done([t])
                case Stop(h) => Halted(h))
  {
    var step := RowStep(order, rateFor, parseFloat);
    assert RowStep(header, rateFor, parseFloat) == Pass;
    assert RowStep(subtotal, rateFor, parseFloat) == Pass;
    assert Steps([header, order, subtotal], rateFor, parseFloat) == [Pass, step, Pass];
    BetweenPasses(step);
  }

  /** One step between two passing ones decides the run alone. */
  lemma BetweenPasses(step: Step)
    ensures RunSteps([Pass, step, Pass])
            == (match step
                case Pass => Done([])
                case Collect(t) => Done([t])
                case Stop(h) => Halted(h))
  {
    assert [Pass][..0] == [];
    assert RunSteps([Pass]) == Done([]);
    assert [Pass, step][..1] == [Pass];
    assert [Pass, step, Pass][..2] == [Pass, step];
  }
}
