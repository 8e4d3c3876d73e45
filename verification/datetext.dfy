/** The three Go time layouts the source uses, parsed as Go's `time.Parse`
    parses them, and their formatting partners:
    - `01/02/2006`           month/day/year of the rate files (services/exchangerateservice.go),
    - `2006-01-02`           the ISO 8601 extended calendar date (section 4.1.2.2 of
                             ISO 8601:2004), used as the rate-table key and as the
                             date-only ledger layout,
    - `2006-01-02, 15:04:05` the ledger's date-time layout (utils/dateparser.go).
    `01` and `02` take exactly two digits, `2006` exactly four, `15` one or two;
    a space in a layout matches one or more spaces; the day must exist in its
    month; nothing may follow the last field. */
module DateText {
  import opened Results
  import opened Digits
  import opened Calendar
  import opened Text

  /** Years that a four-digit field can write. */
  predicate FourDigitYear(d: Date) {
    0 <= d.year <= 9999
  }

  /** `date.Format("01/02/2006")`. */
  function FormatUsDate(d: Date): (s: string)
    requires ValidDate(d) && FourDigitYear(d)
  {
    Pad2(d.month) + "/" + Pad2(d.day) + "/" + Pad4(d.year)
  }

  /** `date.Format("2006-01-02")`. */
  function FormatIsoDate(d: Date): (s: string)
    requires ValidDate(d) && FourDigitYear(d)
    ensures |s| == 10 && s[4] == '-' && s[7] == '-'
    ensures AllDigits(s[..4]) && AllDigits(s[5..7]) && AllDigits(s[8..])
  {
    Pad4(d.year) + "-" + Pad2(d.month) + "-" + Pad2(d.day)
  }

  /** `t.Format("15:04:05")`. */
  function FormatClock(hour: int, minute: int, second: int): (s: string)
    requires 0 <= hour < 24 && 0 <= minute < 60 && 0 <= second < 60
  {
    Pad2(hour) + ":" + Pad2(minute) + ":" + Pad2(second)
  }

  /** `t.Format("2006-01-02, 15:04:05")`. */
  function FormatDateTime(t: Timestamp): (s: string)
    requires ValidTimestamp(t) && FourDigitYear(t.date)
  {
    FormatIsoDate(t.date) + ", " + FormatClock(t.hour, t.minute, t.second)
  }

  /** `time.Parse("01/02/2006", s)`: it accepts exactly the texts that are the
      formatting of some day, and yields that day. */
  function ParseUsDate(s: string): (r: Option<Date>)
    ensures r.Some? ==> ValidDate(r.value) && FourDigitYear(r.value) && FormatUsDate(r.value) == s
  {
    if |s| != 10 || s[2] != '/' || s[5] != '/' then None
    else
      match (Field2(s, 0), Field2(s, 3), Field4(s, 6))
      case (Some(m), Some(d), Some(y)) =>
        if ValidDate(Date(y, m, d)) then
          assert s == s[0..2] + "/" + s[3..5] + "/" + s[6..10];
          Some(Date(y, m, d))
        else None
      case _ => None
  }

  /** `time.Parse("2006-01-02", s)`: it accepts exactly the texts that are the
      formatting of some day, and yields that day. */
  function ParseIsoDate(s: string): (r: Option<Date>)
    ensures r.Some? ==> ValidDate(r.value) && FourDigitYear(r.value) && FormatIsoDate(r.value) == s
  {
    if |s| != 10 || s[4] != '-' || s[7] != '-' then None
    else
      match (Field4(s, 0), Field2(s, 5), Field2(s, 8))
      case (Some(y), Some(m), Some(d)) =>
        if ValidDate(Date(y, m, d)) then
          assert s == s[0..4] + "-" + s[5..7] + "-" + s[8..10];
          Some(Date(y, m, d))
        else None
      case _ => None
  }

  /** `:MM:SS` after an hour of `n` digits at the front of `t`, all in range. */
  function ClockAfterHour(hour: nat, rest: string): (r: Option<(int, int, int)>)
    ensures r.Some? ==> 0 <= r.value.0 < 24 && 0 <= r.value.1 < 60 && 0 <= r.value.2 < 60
  {
    if |rest| != 6 || rest[0] != ':' || rest[3] != ':' then None
    else
      match (Field2(rest, 1), Field2(rest, 4))
      case (Some(minute), Some(second)) =>
        if hour < 24 && minute < 60 && second < 60 then Some((hour, minute, second)) else None
      case _ => None
  }

  /** `15:04:05`: the hour takes two digits when two are present, else one. */
  function ParseClock(t: string): (r: Option<(int, int, int)>)
    ensures r.Some? ==> 0 <= r.value.0 < 24 && 0 <= r.value.1 < 60 && 0 <= r.value.2 < 60
  {
    if |t| >= 2 && IsDigit(t[0]) && IsDigit(t[1]) then ClockAfterHour(Field2(t, 0).value, t[2..])
    else if |t| >= 1 && IsDigit(t[0]) then ClockAfterHour(DigitValue(t[0]), t[1..])
    else None
  }

  /** `time.Parse("2006-01-02, 15:04:05", s)`. Its first ten characters must be a
      day in the `2006-01-02` layout, and the result is on that day. */
  function ParseIsoDateTime(s: string): (r: Option<Timestamp>)
    ensures r.Some? ==> ValidTimestamp(r.value) && FourDigitYear(r.value.date)
    ensures r.Some? ==> |s| > 10 && FormatIsoDate(r.value.date) == s[..10]
  {
    if |s| < 12 || s[10] != ',' || s[11] != ' ' then None
    else
      match ParseIsoDate(s[..10])
      case None => None
      case Some(d) =>
        var clockText := TrimLeft(s[11..], ' ');
        match ParseClock(clockText)
        case None => None
        case Some(clock) =>
          assert ValidDate(d) && FormatIsoDate(d) == s[..10];
          Some(Timestamp(d, clock.0, clock.1, clock.2))
  }

  /** Both directions of the bijection between days (years 0 to 9999) and the
      texts `time.Parse("01/02/2006", _)` accepts. */
  lemma UsDateRoundTrip(d: Date, s: string)
    requires ValidDate(d) && FourDigitYear(d)
    ensures ParseUsDate(FormatUsDate(d)) == Some(d)
    ensures ParseUsDate(s) == Some(d) <==> s == FormatUsDate(d)
  {
    var t := FormatUsDate(d);
    Field2OfPad(t, 0, d.month);
    Field2OfPad(t, 3, d.day);
    Field4OfPad(t, 6, d.year);
  }

  /** Both directions of the bijection between days (years 0 to 9999) and the
      texts `time.Parse("2006-01-02", _)` accepts; in particular distinct days
      get distinct `YYYY-MM-DD` keys. */
  lemma IsoDateRoundTrip(d: Date, s: string)
    requires ValidDate(d) && FourDigitYear(d)
    ensures ParseIsoDate(FormatIsoDate(d)) == Some(d)
    ensures ParseIsoDate(s) == Some(d) <==> s == FormatIsoDate(d)
  {
    var t := FormatIsoDate(d);
    assert t == Pad4(d.year) + "-" + Pad2(d.month) + "-" + Pad2(d.day);
    assert t[0..4] == Pad4(d.year) && t[5..7] == Pad2(d.month) && t[8..10] == Pad2(d.day);
    Field4OfPad(t, 0, d.year);
    Field2OfPad(t, 5, d.month);
    Field2OfPad(t, 8, d.day);
  }

  /** Distinct days never share a `YYYY-MM-DD` key. */
  lemma IsoKeyInjective(a: Date, b: Date)
    requires ValidDate(a) && FourDigitYear(a) && ValidDate(b) && FourDigitYear(b)
    requires FormatIsoDate(a) == FormatIsoDate(b)
    ensures a == b
  {
    IsoDateRoundTrip(a, FormatIsoDate(b));
    IsoDateRoundTrip(b, FormatIsoDate(b));
  }

  /** Re-keying a `MM/DD/YYYY` text as `YYYY-MM-DD` moves its three digit
      fields verbatim. */
  lemma UsToIsoKey(s: string)
    requires ParseUsDate(s).Some?
    ensures FormatIsoDate(ParseUsDate(s).value) == s[6..10] + "-" + s[0..2] + "-" + s[3..5]
  {
    var d := ParseUsDate(s).value;
    var t := FormatUsDate(d);
    assert t[0..2] == Pad2(d.month);
    assert t[3..5] == Pad2(d.day);
    assert t[6..10] == Pad4(d.year);
  }

  /** Formatting a timestamp in the date-time layout and parsing it back gives
      the same timestamp. */
  lemma DateTimeRoundTrip(t: Timestamp)
    requires ValidTimestamp(t) && FourDigitYear(t.date)
    ensures ParseIsoDateTime(FormatDateTime(t)) == Some(t)
  {
    var s := FormatDateTime(t);
    DateTimeParts(t);
    IsoDateRoundTrip(t.date, s[..10]);
    ClockRoundTrip(t.hour, t.minute, t.second);
  }

  /** Where the date-time layout puts its parts. */
  lemma DateTimeParts(t: Timestamp)
    requires ValidTimestamp(t) && FourDigitYear(t.date)
    ensures var s := FormatDateTime(t);
            && |s| == 20 && s[10] == ',' && s[11] == ' '
            && s[..10] == FormatIsoDate(t.date)
            && TrimLeft(s[11..], ' ') == FormatClock(t.hour, t.minute, t.second)
  {
    var s := FormatDateTime(t);
    var clock := FormatClock(t.hour, t.minute, t.second);
    assert s[11..] == " " + clock;
    assert TrimLeft(clock, ' ') == clock by {
      assert IsDigit(Pad2(t.hour)[0]);
      assert clock[0] == Pad2(t.hour)[0];
    }
    assert (" " + clock)[1..] == clock;
  }

  /** `15:04:05` reads back a clock written with two-digit fields. */
  lemma ClockRoundTrip(hour: int, minute: int, second: int)
    requires 0 <= hour < 24 && 0 <= minute < 60 && 0 <= second < 60
    ensures ParseClock(FormatClock(hour, minute, second)) == Some((hour, minute, second))
  {
    var clock := FormatClock(hour, minute, second);
    Field2OfPad(clock, 0, hour);
    assert clock[2..] == ":" + Pad2(minute) + ":" + Pad2(second);
    Field2OfPad(clock[2..], 1, minute);
    Field2OfPad(clock[2..], 4, second);
  }

  /** The result of `utils.ParseDate`: the parsed time, or the zero time
      together with an error. */
  datatype DateParse = DateParse(time: Timestamp, ok: bool)

  /** `utils.ParseDate`: the date-time layout first, the date-only layout as the
      fallback (midnight of that day), else the zero time and an error. */
  function ParseDate(s: string): (r: DateParse)
    ensures !r.ok ==> r.time == ZeroTime
    ensures r.ok <==> ParseIsoDateTime(s).Some? || ParseIsoDate(s).Some?
    ensures r.ok ==> ValidTimestamp(r.time) && FourDigitYear(r.time.date)
    ensures r.ok ==> |s| >= 10 && FormatIsoDate(r.time.date) == s[..10]
    ensures ParseIsoDateTime(s).Some? ==> r.time == ParseIsoDateTime(s).value
    ensures ParseIsoDateTime(s).None? && r.ok ==> r.time == Midnight(r.time.date)
  {
    match ParseIsoDateTime(s)
    case Some(t) => DateParse(t, true)
    case None =>
      match ParseIsoDate(s)
      case Some(d) =>
        assert s[..10] == s;
        DateParse(Midnight(d), true)
      case None => DateParse(ZeroTime, false)
  }

  /** No text matches both layouts, so the order in which `ParseDate` tries them
      never changes its result. */
  lemma LayoutsDisjoint(s: string)
    ensures !(ParseIsoDateTime(s).Some? && ParseIsoDate(s).Some?)
  {
  }

  /** A text of at most ten characters never matches the date-time layout. */
  lemma ShortTextIsDateOnly(s: string)
    requires |s| <= 10
    ensures ParseIsoDateTime(s) == None
    ensures ParseDate(s).ok ==> ParseIsoDate(s).Some? && ParseDate(s).time == Midnight(ParseIsoDate(s).value)
  {
  }

  /** `ParseDate` accepts both layouts as `Format` writes them. */
  lemma ParseDateRoundTrip(t: Timestamp)
    requires ValidTimestamp(t) && FourDigitYear(t.date)
    ensures ParseDate(FormatDateTime(t)) == DateParse(t, true)
    ensures ParseDate(FormatIsoDate(t.date)) == DateParse(Midnight(t.date), true)
  {
    DateTimeRoundTrip(t);
    IsoDateRoundTrip(t.date, FormatIsoDate(t.date));
  }
}
