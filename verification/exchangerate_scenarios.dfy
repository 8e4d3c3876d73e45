/** The scenario of services/exchangerateservice_test.go, stated over the
    model: a "USD" rate file with closes for 2024-10-24 and 2024-10-25, the
    lookup of 2024-10-25, and the lookup of the zero time. */
module ExchangeRateScenarios {
  import opened Results
  import opened Calendar
  import opened DateText
  import opened Csv
  import opened ExchangeRates

  /** One data row of the example file stores its unquoted close under its day. */
  lemma ExampleRowStores(row: Record, parseFloat: string -> Option<real>, d: Date, text: string, close: string, v: real)
    requires (d == Date(2024, 10, 24) && text == "10/24/2024") || (d == Date(2024, 10, 25) && text == "10/25/2024")
    requires |row| >= 5 && row[0] == text && row[4] == "\"" + close + "\""
    requires close == "152.25" || close == "152.30"
    requires parseFloat(close) == Some(v)
    ensures ClassifyRateRow(row, parseFloat) == Store(d, v)
  {
    UsDateText(d, text);
    DatedRowStoresClose(row, parseFloat, d, close);
  }

  /** A rate file whose data rows store 152.25 for 10/24/2024 and 152.30 for
      10/25/2024 (as `ExampleRowStores` shows the rows of the example file do)
      loads into one entry per day, whatever its header. */
  lemma ExampleRateFileLoads(header: Record, oct24Row: Record, oct25Row: Record, parseFloat: string -> Option<real>)
    requires ClassifyRateRow(oct24Row, parseFloat) == Store(Date(2024, 10, 24), 152.25)
    requires ClassifyRateRow(oct25Row, parseFloat) == Store(Date(2024, 10, 25), 152.30)
    ensures LoadRates([Row(header), Row(oct24Row), Row(oct25Row)], parseFloat)
            == Success(map[Date(2024, 10, 24) := 152.25, Date(2024, 10, 25) := 152.30])
  {
    StreamOfThreeRows(header, oct24Row, oct25Row);
    assert [header, oct24Row, oct25Row][1..] == [oct24Row, oct25Row];
    TwoStoredRowsLoad(oct24Row, oct25Row, parseFloat);
  }

  /** The `MM/DD/YYYY` texts of the two days of the example file. */
  lemma UsDateText(d: Date, s: string)
    requires (d == Date(2024, 10, 24) && s == "10/24/2024") || (d == Date(2024, 10, 25) && s == "10/25/2024")
    ensures ValidDate(d) && FourDigitYear(d) && FormatUsDate(d) == s
  {
  }

  /** A stream of three readable records and no error delivers all three. */
  lemma StreamOfThreeRows(h: Record, r1: Record, r2: Record)
    ensures RecordsBeforeError([Row(h), Row(r1), Row(r2)]) == [h, r1, r2]
  {
    var stream := [Row(h), Row(r1), Row(r2)];
    assert stream[1..] == [Row(r1), Row(r2)];
    assert stream[1..][1..] == [Row(r2)];
  }

  /** Two records that both store fold into a table holding both, the second
      written last. */
  lemma TwoStoredRowsLoad(r1: Record, r2: Record, parseFloat: string -> Option<real>)
    requires ClassifyRateRow(r1, parseFloat).Store? && ClassifyRateRow(r2, parseFloat).Store?
    ensures var v1, v2 := ClassifyRateRow(r1, parseFloat), ClassifyRateRow(r2, parseFloat);
            LoadRecords([r1, r2], parseFloat) == Success(map[v1.date := v1.rate][v2.date := v2.rate])
  {
    var v1, v2 := ClassifyRateRow(r1, parseFloat), ClassifyRateRow(r2, parseFloat);
    var vs := Verdicts([r1, r2], parseFloat);
    assert vs == [v1, v2];
    assert vs[..1] == [v1];
    assert [v1][..0] == [];
    assert FoldVerdicts([v1]) == Success(map[v1.date := v1.rate]);
  }


  /** With that table installed for "USD": 2024-10-25 gives 152.30 whatever the
      time of day, so does the following Sunday (stepping back to Friday), and
      a currency with no table fails. */
  lemma ExampleRateLookups(t: RateTable)
    requires t == map[Date(2024, 10, 24) := 152.25, Date(2024, 10, 25) := 152.30]
    ensures var s := InstallRates(AddCurrency(NewService(), "USD"), "USD", t);
            && GetRate(s, "USD", Timestamp(Date(2024, 10, 25), 0, 0, 0)) == Success(152.30)
            && GetRate(s, "USD", Timestamp(Date(2024, 10, 25), 16, 20, 0)) == Success(152.30)
            && GetRate(s, "USD", Timestamp(Date(2024, 10, 27), 9, 30, 0)) == Success(152.30)
            && GetRate(s, "CAD", Timestamp(Date(2024, 10, 25), 0, 0, 0)) == Failure(CurrencyNotFound)
  {
    var s := InstallRates(AddCurrency(NewService(), "USD"), "USD", t);
    assert s.rates["USD"] == t;
    assert StepBack(Date(2024, 10, 27), 2) == Date(2024, 10, 25);
  }

  /** The zero time (0001-01-01) finds no rate in a table whose days all come
      after it. */
  lemma ZeroTimeHasNoRate(s: Service, c: string)
    requires HasCurrency(s, c) && TableDatesValid(s.rates[c])
    requires forall e :: e in s.rates[c] ==> Before(ZeroTime.date, e)
    ensures GetRate(s, c, ZeroTime) == Failure(NoRateFound)
  {
    var t := s.rates[c];
    LookupIsLatestQuoteInWindow(t, ZeroTime.date);
    forall e | e in t
      ensures Ordinal(ZeroTime.date) < Ordinal(e)
    {
      OrdinalMonotone(ZeroTime.date, e);
    }
  }
}
