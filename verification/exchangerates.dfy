/** The exchange-rate service of services/exchangerateservice.go: a map from
    currency code to a per-day table of closing rates, the loader that turns
    the records of a rate file into one table, and the rate lookup that takes
    the exact day or steps back up to ten days. */
module ExchangeRates {
  import opened Results
  import opened Calendar
  import opened DateText
  import opened Csv
  import opened Sequences
  import opened Text

  /** Closing rate per calendar day. The source keys by the day's `YYYY-MM-DD`
      text; `DateText.IsoKeyInjective` shows that keying by the day itself
      is the same map. */
  type RateTable = map<Date, real>

  /** One call of the CSV reader: a record, or an error (end of file included). */
  datatype Read = Row(fields: Record) | ReadFailed

  /** Why a load fails: the header could not be read (a returned error), or a
      record lacks the field the loader indexes (an index-out-of-range panic). */
  datatype LoadError = HeaderUnreadable | MissingDateField | MissingCloseField

  datatype RateError = CurrencyNotFound | NoRateFound

  /** Currency code to that currency's table. */
  datatype Service = Service(rates: map<string, RateTable>)

  /** Days `GetRate` may step back from the requested day. */
  const BacktrackDays: nat := 10

  /** Every key of the table is a real day with a four-digit year. */
  predicate TableDatesValid(t: RateTable) {
    forall d :: d in t ==> ValidDate(d) && FourDigitYear(d)
  }

  predicate ServiceDatesValid(s: Service) {
    forall c :: c in s.rates ==> TableDatesValid(s.rates[c])
  }

  // ---------------------------------------------------------------------------
  // Service state

  /** `NewExchangeRateService`: no currency has a table yet. */
  function NewService(): (s: Service)
    ensures forall c :: !HasCurrency(s, c)
    ensures ServiceDatesValid(s)
  {
    Service(map[])
  }

  /** `HasCurrency`: whether a table exists for `c`. */
  predicate HasCurrency(s: Service, c: string) {
    c in s.rates
  }

  /** The service after registering each of `cs` in turn. */
  function AddCurrencies(s: Service, cs: seq<string>): Service {
    if |cs| == 0 then s else AddCurrency(AddCurrencies(s, cs[..|cs| - 1]), cs[|cs| - 1])
  }

  /** A fresh service has a table for a currency exactly when that currency
      was registered. */
  lemma {:induction false} HasCurrencyIffAdded(cs: seq<string>, c: string)
    ensures HasCurrency(AddCurrencies(NewService(), cs), c) <==> c in cs
    decreases |cs|
  {
    if |cs| > 0 {
      HasCurrencyIffAdded(cs[..|cs| - 1], c);
      assert cs == cs[..|cs| - 1] + [cs[|cs| - 1]];
    }
  }

  /** `AddCurrency`: gives `c` an empty table unless it already has one. The
      directory listing it then performs changes no state. */
  function AddCurrency(s: Service, c: string): (s': Service)
    ensures HasCurrency(s', c)
    ensures s'.rates.Keys == s.rates.Keys + {c}
    ensures forall k :: k in s.rates ==> s'.rates[k] == s.rates[k]
    ensures !HasCurrency(s, c) ==> s'.rates[c] == map[]
    ensures ServiceDatesValid(s) ==> ServiceDatesValid(s')
  {
    if c in s.rates then s else Service(s.rates[c := map[]])
  }

  /** A second `AddCurrency` for the same code changes nothing. */
  lemma AddCurrencyIdempotent(s: Service, c: string)
    ensures AddCurrency(AddCurrency(s, c), c) == AddCurrency(s, c)
  {
  }

  /** Installs a loaded table for `c`, merged over whatever `c` already has:
      entries of the new table win, other days are kept, other currencies
      are untouched. */
  function InstallRates(s: Service, c: string, t: RateTable): (s': Service)
    ensures HasCurrency(s', c)
    ensures s'.rates.Keys == s.rates.Keys + {c}
    ensures forall k :: k in s.rates && k != c ==> s'.rates[k] == s.rates[k]
    ensures forall d :: d in s'.rates[c] <==> d in t || (c in s.rates && d in s.rates[c])
    ensures forall d :: d in t ==> s'.rates[c][d] == t[d]
    ensures c in s.rates ==> forall d :: d in s.rates[c] && d !in t ==> s'.rates[c][d] == s.rates[c][d]
    ensures ServiceDatesValid(s) && TableDatesValid(t) ==> ServiceDatesValid(s')
  {
    var current := if c in s.rates then s.rates[c] else map[];
    Service(s.rates[c := current + t])
  }

  // ---------------------------------------------------------------------------
  // Loading a rate file

  /** `strings.Trim(s, "\"")`: the middle of `s` left after removing every
      leading and every trailing double quote. */
  function TrimQuotes(s: string): (r: string)
    ensures exists i, j :: (0 <= i <= j <= |s| && r == s[i..j]
                            && (forall k :: 0 <= k < i ==> s[k] == '"')
                            && (forall k :: j <= k < |s| ==> s[k] == '"'))
    ensures |r| > 0 ==> r[0] != '"' && r[|r| - 1] != '"'
  {
    TrimBothIsSpan(s, '"');
    TrimRight(TrimLeft(s, '"'), '"')
  }

  /** Trimming twice is trimming once. */
  lemma TrimQuotesIdempotent(s: string)
    ensures TrimQuotes(TrimQuotes(s)) == TrimQuotes(s)
  {
    var r := TrimQuotes(s);
    assert TrimLeft(r, '"') == r;
    assert TrimRight(r, '"') == r;
  }

  /** What the loader does with one data record. */
  datatype RowVerdict = Store(date: Date, rate: real) | Skip | Crash(error: LoadError)

  /** One data record of a rate file: field 0 must be a `MM/DD/YYYY` day and
      field 4, stripped of quotes, a number; a record failing either is
      skipped. Field 4 is only looked at once the day has parsed, so a short
      record crashes only when its day is valid. */
  function ClassifyRateRow(rec: Record, parseFloat: string -> Option<real>): (v: RowVerdict)
    ensures v.Store? <==> |rec| >= 5 && ParseUsDate(rec[0]).Some? && parseFloat(TrimQuotes(rec[4])).Some?
    ensures v.Store? ==> Some(v.date) == ParseUsDate(rec[0]) && Some(v.rate) == parseFloat(TrimQuotes(rec[4]))
    ensures v.Skip? <==> |rec| >= 1 && (ParseUsDate(rec[0]).None? || (|rec| >= 5 && parseFloat(TrimQuotes(rec[4])).None?))
    ensures v.Crash? ==> v.error != HeaderUnreadable
  {
    if |rec| == 0 then Crash(MissingDateField)
    else
      match ParseUsDate(rec[0])
      case None => Skip
      case Some(d) =>
        if |rec| < 5 then Crash(MissingCloseField)
        else
          match parseFloat(TrimQuotes(rec[4]))
          case None => Skip
          case Some(v) => Store(d, v)
  }

  /** Record `rec` stores a rate for day `d`. */
  predicate StoresDay(rec: Record, parseFloat: string -> Option<real>, d: Date) {
    var v := ClassifyRateRow(rec, parseFloat);
    v.Store? && v.date == d
  }

  /** `ClassifyRateRow` with the number parser fixed. */
  function VerdictOf(parseFloat: string -> Option<real>): Record -> RowVerdict {
    rec => ClassifyRateRow(rec, parseFloat)
  }

  /** The verdicts on a file's data records, in reading order. */
  function Verdicts(recs: seq<Record>, parseFloat: string -> Option<real>): (vs: seq<RowVerdict>)
    ensures |vs| == |recs|
    ensures forall i :: 0 <= i < |recs| ==> vs[i] == ClassifyRateRow(recs[i], parseFloat)
  {
    Map(VerdictOf(parseFloat), recs)
  }

  /** The verdicts of records read in stretches are the stretches' verdicts. */
  lemma VerdictsAppend(a: seq<Record>, b: seq<Record>, parseFloat: string -> Option<real>)
    ensures Verdicts(a + b, parseFloat) == Verdicts(a, parseFloat) + Verdicts(b, parseFloat)
  {
    MapAppend(VerdictOf(parseFloat), a, b);
  }

  /** Every stored day is a real day with a four-digit year. */
  predicate StoredDatesValid(vs: seq<RowVerdict>) {
    forall i :: 0 <= i < |vs| && vs[i].Store? ==> ValidDate(vs[i].date) && FourDigitYear(vs[i].date)
  }

  /** Verdicts folded into a table in reading order. The fold fails exactly
      when some verdict crashes, and then with the error of the first one. */
  function FoldVerdicts(vs: seq<RowVerdict>): (r: Result<RateTable, LoadError>)
    ensures r.Success? <==> forall i :: 0 <= i < |vs| ==> !vs[i].Crash?
    ensures r.Failure? ==> exists i :: 0 <= i < |vs| && vs[i] == Crash(r.error)
                                       && forall j :: 0 <= j < i ==> !vs[j].Crash?
    ensures r.Success? && StoredDatesValid(vs) ==> TableDatesValid(r.value)
    decreases |vs|
  {
    if |vs| == 0 then Success(map[])
    else
      var init := vs[..|vs| - 1];
      assert forall i :: 0 <= i < |init| ==> init[i] == vs[i];
      match FoldVerdicts(init)
      case Failure(e) => Failure(e)
      case Success(t) =>
        match vs[|vs| - 1]
        case Store(d, v) => Success(t[d := v])
        case Skip => Success(t)
        case Crash(e) => Failure(e)
  }

  /** A day is in the folded table exactly when some verdict stores it. */
  lemma {:induction false} FoldedDaysAreStoredDays(vs: seq<RowVerdict>, d: Date)
    requires FoldVerdicts(vs).Success?
    ensures d in FoldVerdicts(vs).value <==> exists i :: 0 <= i < |vs| && vs[i].Store? && vs[i].date == d
    decreases |vs|
  {
    if |vs| > 0 {
      var init := vs[..|vs| - 1];
      assert forall i :: 0 <= i < |init| ==> init[i] == vs[i];
      FoldedDaysAreStoredDays(init, d);
    }
  }

  /** Each day holds the rate of the LAST verdict that stores it. */
  lemma {:induction false} LastStoreWins(vs: seq<RowVerdict>, i: nat, d: Date)
    requires FoldVerdicts(vs).Success?
    requires i < |vs| && vs[i].Store? && vs[i].date == d
    requires forall j :: i < j < |vs| ==> !(vs[j].Store? && vs[j].date == d)
    ensures d in FoldVerdicts(vs).value && FoldVerdicts(vs).value[d] == vs[i].rate
    decreases |vs|
  {
    var init := vs[..|vs| - 1];
    assert forall j :: 0 <= j < |init| ==> init[j] == vs[j];
    if i < |vs| - 1 {
      LastStoreWins(init, i, d);
    }
  }

  /** A skip verdict leaves the folded table exactly as if it were absent. */
  lemma {:induction false} SkipChangesNothing(pre: seq<RowVerdict>, post: seq<RowVerdict>)
    ensures FoldVerdicts(pre + [Skip] + post) == FoldVerdicts(pre + post)
    decreases |post|
  {
    if |post| == 0 {
      assert (pre + [Skip] + post)[..|pre| + 1 - 1] == pre;
      assert pre + post == pre;
    } else {
      var init := post[..|post| - 1];
      assert (pre + [Skip] + post)[..|pre + [Skip] + post| - 1] == pre + [Skip] + init;
      assert (pre + post)[..|pre + post| - 1] == pre + init;
      SkipChangesNothing(pre, init);
    }
  }

  /** The data records of one file folded into a table in reading order. It
      fails exactly when some record crashes, and then with the error of the
      first crashing record. */
  function LoadRecords(recs: seq<Record>, parseFloat: string -> Option<real>): (r: Result<RateTable, LoadError>)
    ensures r.Success? <==> forall i :: 0 <= i < |recs| ==> !ClassifyRateRow(recs[i], parseFloat).Crash?
    ensures r.Failure? ==> exists i :: 0 <= i < |recs| && ClassifyRateRow(recs[i], parseFloat) == Crash(r.error)
                                       && forall j :: 0 <= j < i ==> !ClassifyRateRow(recs[j], parseFloat).Crash?
    ensures r.Success? ==> TableDatesValid(r.value)
  {
    var vs := Verdicts(recs, parseFloat);
    assert StoredDatesValid(vs);
    FoldVerdicts(vs)
  }

  /** A day is in the loaded table exactly when some record stores it: there is
      no entry without a record behind it. */
  lemma LoadedDaysAreStoredDays(recs: seq<Record>, parseFloat: string -> Option<real>, d: Date)
    requires LoadRecords(recs, parseFloat).Success?
    ensures d in LoadRecords(recs, parseFloat).value <==> exists i :: 0 <= i < |recs| && StoresDay(recs[i], parseFloat, d)
  {
    var vs := Verdicts(recs, parseFloat);
    FoldedDaysAreStoredDays(vs, d);
    assert forall i :: 0 <= i < |recs| ==> (StoresDay(recs[i], parseFloat, d) <==> vs[i].Store? && vs[i].date == d);
  }

  /** Each day holds the rate of the LAST record that stores it: a later record
      for the same day overwrites an earlier one. */
  lemma LastRecordWins(recs: seq<Record>, parseFloat: string -> Option<real>, i: nat, d: Date)
    requires LoadRecords(recs, parseFloat).Success?
    requires i < |recs| && StoresDay(recs[i], parseFloat, d)
    requires forall j :: i < j < |recs| ==> !StoresDay(recs[j], parseFloat, d)
    ensures d in LoadRecords(recs, parseFloat).value
    ensures LoadRecords(recs, parseFloat).value[d] == ClassifyRateRow(recs[i], parseFloat).rate
  {
    LastStoreWins(Verdicts(recs, parseFloat), i, d);
  }

  /** The records the reader delivers before its first error; reading stops there. */
  function RecordsBeforeError(stream: seq<Read>): (recs: seq<Record>)
    ensures |recs| <= |stream|
    ensures forall i :: 0 <= i < |recs| ==> stream[i] == Row(recs[i])
    ensures |recs| < |stream| ==> stream[|recs|].ReadFailed?
  {
    if |stream| == 0 || stream[0].ReadFailed? then []
    else [stream[0].fields] + RecordsBeforeError(stream[1..])
  }

  /** `loadExchangeRates` on the stream of one file: the first record is a header
      and is discarded unread; the load fails with an error only when even that
      record cannot be read; the records after it are folded by `LoadRecords`
      up to the reader's first error, which ends the load without an error. */
  function LoadRates(stream: seq<Read>, parseFloat: string -> Option<real>): (r: Result<RateTable, LoadError>)
    ensures r == Failure(HeaderUnreadable) <==> |stream| == 0 || stream[0].ReadFailed?
    ensures r.Success? ==> TableDatesValid(r.value)
    ensures |stream| > 0 && stream[0].Row? ==> r == LoadRecords(RecordsBeforeError(stream[1..]), parseFloat)
  {
    var recs := RecordsBeforeError(stream);
    if |recs| == 0 then Failure(HeaderUnreadable) else LoadRecords(recs[1..], parseFloat)
  }

  /** The header's contents never matter. */
  lemma LoadIgnoresHeader(h1: Record, h2: Record, rest: seq<Read>, parseFloat: string -> Option<real>)
    ensures LoadRates([Row(h1)] + rest, parseFloat) == LoadRates([Row(h2)] + rest, parseFloat)
  {
    assert ([Row(h1)] + rest)[1..] == rest;
    assert ([Row(h2)] + rest)[1..] == rest;
  }

  lemma {:induction false} RecordsBeforeErrorCut(pre: seq<Read>, post: seq<Read>)
    ensures RecordsBeforeError(pre + [ReadFailed] + post) == RecordsBeforeError(pre)
    decreases |pre|
  {
    if |pre| > 0 && pre[0].Row? {
      assert (pre + [ReadFailed] + post)[1..] == pre[1..] + [ReadFailed] + post;
      RecordsBeforeErrorCut(pre[1..], post);
    }
  }

  /** A reader error ends the load: what follows it is never read, and the
      rows accumulated before it are returned as if the file had ended there. */
  lemma LoadStopsAtFirstError(pre: seq<Read>, post: seq<Read>, parseFloat: string -> Option<real>)
    ensures LoadRates(pre + [ReadFailed] + post, parseFloat) == LoadRates(pre, parseFloat)
  {
    RecordsBeforeErrorCut(pre, post);
  }

  /** A skipped record leaves the loaded table exactly as if it were absent. */
  lemma SkippedRecordChangesNothing(pre: seq<Record>, bad: Record, post: seq<Record>,
                                    parseFloat: string -> Option<real>)
    requires ClassifyRateRow(bad, parseFloat).Skip?
    ensures LoadRecords(pre + [bad] + post, parseFloat) == LoadRecords(pre + post, parseFloat)
  {
    VerdictsAppend(pre + [bad], post, parseFloat);
    VerdictsAppend(pre, [bad], parseFloat);
    VerdictsAppend(pre, post, parseFloat);
    assert Verdicts([bad], parseFloat) == [Skip];
    SkipChangesNothing(Verdicts(pre, parseFloat), Verdicts(post, parseFloat));
  }

  // ---------------------------------------------------------------------------
  // Rate lookup

  /** The least `k <= budget` such that the day `k` days before `d` has a rate. */
  function FirstQuoted(t: RateTable, d: Date, budget: nat): (r: Option<nat>)
    requires ValidDate(d)
    ensures r.Some? ==> r.value <= budget && StepBack(d, r.value) in t
    ensures r.Some? ==> forall j :: 0 <= j < r.value ==> StepBack(d, j) !in t
    ensures r.None? ==> forall j :: 0 <= j <= budget ==> StepBack(d, j) !in t
    decreases budget
  {
    if d in t then Some(0)
    else if budget == 0 then None
    else
      match FirstQuoted(t, PrevDay(d), budget - 1)
      case Some(k) => Some(k + 1)
      case None => None
  }

  /** The rate for day `d`: the exact day first, then one day back at a time,
      for at most `BacktrackDays` days. */
  function LookupRate(t: RateTable, d: Date): (r: Result<real, RateError>)
    requires ValidDate(d)
    ensures d in t ==> r == Success(t[d])
    ensures r.Success? ==> exists k :: 0 <= k <= BacktrackDays && StepBack(d, k) in t
                                       && r.value == t[StepBack(d, k)]
                                       && forall j :: 0 <= j < k ==> StepBack(d, j) !in t
    ensures r.Failure? ==> r.error == NoRateFound
                           && forall k :: 0 <= k <= BacktrackDays ==> StepBack(d, k) !in t
  {
    match FirstQuoted(t, d, BacktrackDays)
    case Some(k) => Success(t[StepBack(d, k)])
    case None => Failure(NoRateFound)
  }

  /** The lookup stated on the calendar: it succeeds exactly when some day from
      `d - 10` to `d` has a rate, and then returns the rate of the LATEST day on
      or before `d` that has one, never a rate from a later day. */
  lemma LookupIsLatestQuoteInWindow(t: RateTable, d: Date)
    requires ValidDate(d) && TableDatesValid(t)
    ensures LookupRate(t, d).Success? <==>
              exists e :: e in t && Ordinal(d) - BacktrackDays <= Ordinal(e) <= Ordinal(d)
    ensures LookupRate(t, d).Success? ==>
              exists e :: e in t && Ordinal(d) - BacktrackDays <= Ordinal(e) <= Ordinal(d)
                          && LookupRate(t, d).value == t[e]
                          && forall e' :: e' in t && Ordinal(e') <= Ordinal(d) ==> Ordinal(e') <= Ordinal(e)
  {
    match FirstQuoted(t, d, BacktrackDays)
    case Some(k) =>
      var e := StepBack(d, k);
      StepBackOrdinal(d, k);
      forall e' | e' in t && Ordinal(e') <= Ordinal(d)
        ensures Ordinal(e') <= Ordinal(e)
      {
        StepBackReaches(d, e');
      }
    case None =>
      forall e | e in t && Ordinal(e) <= Ordinal(d)
        ensures Ordinal(e) < Ordinal(d) - BacktrackDays
      {
        StepBackReaches(d, e);
      }
  }

  /** `GetRate` as its documentation and its test describe it: a currency with
      no table fails whatever the date; otherwise the currency's own table is
      searched from the calendar day of `t`, ignoring the time of day. */
  function GetRate(s: Service, c: string, t: Timestamp): (r: Result<real, RateError>)
    requires ValidDate(t.date)
    ensures !HasCurrency(s, c) ==> r == Failure(CurrencyNotFound)
    ensures r.Success? ==> HasCurrency(s, c)
    ensures HasCurrency(s, c) && t.date in s.rates[c] ==> r == Success(s.rates[c][t.date])
    ensures HasCurrency(s, c) ==> (r.Success? <==> exists k :: 0 <= k <= BacktrackDays && StepBack(t.date, k) in s.rates[c])
    ensures r.Failure? && HasCurrency(s, c) ==> r.error == NoRateFound
    ensures r.Success? ==> exists k :: 0 <= k <= BacktrackDays && StepBack(t.date, k) in s.rates[c]
                                       && r.value == s.rates[c][StepBack(t.date, k)]
                                       && forall j :: 0 <= j < k ==> StepBack(t.date, j) !in s.rates[c]
  {
    if c !in s.rates then Failure(CurrencyNotFound)
    else
      var r := LookupRate(s.rates[c], t.date);
      assert r.Success? ==> exists k :: 0 <= k <= BacktrackDays && StepBack(t.date, k) in s.rates[c];
      r
  }

  /** On the calendar: a currency's lookup succeeds exactly when a day at most
      `BacktrackDays` before the requested one is quoted, and then returns the
      rate of the latest quoted day on or before it. */
  lemma GetRateIsLatestQuote(s: Service, c: string, t: Timestamp)
    requires ValidDate(t.date) && HasCurrency(s, c) && TableDatesValid(s.rates[c])
    ensures GetRate(s, c, t).Success? <==>
              exists e :: e in s.rates[c] && Ordinal(t.date) - BacktrackDays <= Ordinal(e) <= Ordinal(t.date)
    ensures GetRate(s, c, t).Success? ==>
              exists e :: e in s.rates[c] && Ordinal(t.date) - BacktrackDays <= Ordinal(e) <= Ordinal(t.date)
                          && GetRate(s, c, t).value == s.rates[c][e]
                          && forall e' :: e' in s.rates[c] && Ordinal(e') <= Ordinal(t.date) ==> Ordinal(e') <= Ordinal(e)
  {
    LookupIsLatestQuoteInWindow(s.rates[c], t.date);
  }

  /** Only the calendar day of the requested time matters. */
  lemma GetRateIgnoresTimeOfDay(s: Service, c: string, t: Timestamp, u: Timestamp)
    requires ValidDate(t.date) && t.date == u.date
    ensures GetRate(s, c, t) == GetRate(s, c, u)
  {
  }

  /** `GetRate` as its live body stands: a currency without a table fails, and
      every other lookup falls through to the final "no rate" error, because
      the exact-day and step-back lookups are commented out. */
  function GetRateAsWritten(s: Service, c: string, t: Timestamp): (r: Result<real, RateError>)
    ensures r.Failure?
    ensures r.error == CurrencyNotFound <==> !HasCurrency(s, c)
  {
    if c !in s.rates then Failure(CurrencyNotFound) else Failure(NoRateFound)
  }

  /** The two disagree on every day the table quotes: the live body fails where
      the documented lookup returns the stored rate. */
  lemma AsWrittenMissesQuotedDay(s: Service, c: string, t: Timestamp)
    requires ValidDate(t.date) && HasCurrency(s, c) && t.date in s.rates[c]
    ensures GetRate(s, c, t) == Success(s.rates[c][t.date])
    ensures GetRateAsWritten(s, c, t) == Failure(NoRateFound)
  {
  }

  /** A close written in double quotes is read without them. */
  lemma QuotedCloseIsUnquoted(close: string)
    requires |close| > 0 ==> close[0] != '"' && close[|close| - 1] != '"'
    ensures TrimQuotes("\"" + close + "\"") == close
  {
    var s := "\"" + close + "\"";
    if close == [] {
      assert s == "\"\"";
    } else {
      assert s[1..] == close + "\"";
      assert TrimLeft(s, '"') == close + "\"";
      assert (close + "\"")[..|close|] == close;
    }
  }

  /** Round trip of one rate-file row: a row whose field 0 is the `MM/DD/YYYY`
      text of day `d` and whose field 4 is a quoted number stores that number
      under `d`. */
  lemma DatedRowStoresClose(rec: Record, parseFloat: string -> Option<real>, d: Date, close: string)
    requires ValidDate(d) && FourDigitYear(d)
    requires |rec| >= 5 && rec[0] == FormatUsDate(d) && rec[4] == "\"" + close + "\""
    requires |close| > 0 ==> close[0] != '"' && close[|close| - 1] != '"'
    requires parseFloat(close).Some?
    ensures ClassifyRateRow(rec, parseFloat) == Store(d, parseFloat(close).value)
  {
    UsDateRoundTrip(d, rec[0]);
    QuotedCloseIsUnquoted(close);
  }
}
