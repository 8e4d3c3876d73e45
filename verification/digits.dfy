/** Decimal digit text: the fixed-width fields of Go's time layouts and the
    base-10 integers of `strconv.ParseInt`. */
module Digits {
  import opened Results

  predicate IsDigit(c: char) {
    '0' <= c <= '9'
  }

  predicate AllDigits(s: string) {
    forall i :: 0 <= i < |s| ==> IsDigit(s[i])
  }

  function DigitValue(c: char): (v: nat)
    requires IsDigit(c)
    ensures v < 10
  {
    c as int - '0' as int
  }

  function DigitChar(v: nat): (c: char)
    requires v < 10
    ensures IsDigit(c) && DigitValue(c) == v
  {
    ('0' as int + v) as char
  }

  function Pow10(n: nat): (p: nat)
    ensures p >= 1
  {
    if n == 0 then 1 else 10 * Pow10(n - 1)
  }

  /** The number a string of decimal digits denotes, most significant digit first. */
  function DigitsValue(s: string): (v: nat)
    requires AllDigits(s)
    ensures v < Pow10(|s|)
  {
    if |s| == 0 then 0
    else DigitsValue(s[..|s| - 1]) * 10 + DigitValue(s[|s| - 1])
  }

  /** `n` as exactly two digits, padded with a leading zero (Go's `appendInt(b, n, 2)`). */
  function Pad2(n: nat): (s: string)
    requires n < 100
    ensures |s| == 2 && AllDigits(s)
  {
    [DigitChar(n / 10), DigitChar(n % 10)]
  }

  /** `n` as exactly four digits, padded with leading zeros (Go's `appendInt(b, n, 4)`). */
  function Pad4(n: nat): (s: string)
    requires n < 10000
    ensures |s| == 4 && AllDigits(s)
  {
    [DigitChar(n / 1000), DigitChar(n / 100 % 10), DigitChar(n / 10 % 10), DigitChar(n % 10)]
  }

  /** The two-digit field `s[i..i+2]`, if both characters are digits. */
  function Field2(s: string, i: nat): (r: Option<nat>)
    requires i + 2 <= |s|
    ensures r.Some? <==> AllDigits(s[i..i + 2])
    ensures r.Some? ==> r.value < 100 && Pad2(r.value) == s[i..i + 2]
  {
    if IsDigit(s[i]) && IsDigit(s[i + 1]) then
      var n := 10 * DigitValue(s[i]) + DigitValue(s[i + 1]);
      assert Pad2(n) == s[i..i + 2] by {
        assert Pad2(n)[0] == s[i] && Pad2(n)[1] == s[i + 1];
      }
      Some(n)
    else
      assert !IsDigit(s[i..i + 2][0]) || !IsDigit(s[i..i + 2][1]);
      None
  }

  /** The four-digit field `s[i..i+4]`, if all four characters are digits. */
  function Field4(s: string, i: nat): (r: Option<nat>)
    requires i + 4 <= |s|
    ensures r.Some? <==> AllDigits(s[i..i + 4])
    ensures r.Some? ==> r.value < 10000 && Pad4(r.value) == s[i..i + 4]
  {
    if IsDigit(s[i]) && IsDigit(s[i + 1]) && IsDigit(s[i + 2]) && IsDigit(s[i + 3]) then
      var a, b, c, d := DigitValue(s[i]), DigitValue(s[i + 1]), DigitValue(s[i + 2]), DigitValue(s[i + 3]);
      var n := 1000 * a + 100 * b + 10 * c + d;
      FourDigits(a, b, c, d);
      assert Pad4(n) == s[i..i + 4] by {
        assert Pad4(n)[0] == s[i] && Pad4(n)[1] == s[i + 1];
        assert Pad4(n)[2] == s[i + 2] && Pad4(n)[3] == s[i + 3];
      }
      Some(n)
    else
      var f := s[i..i + 4];
      assert !IsDigit(f[0]) || !IsDigit(f[1]) || !IsDigit(f[2]) || !IsDigit(f[3]);
      None
  }

  /** The digits of a four-digit number, read back by division. */
  lemma FourDigits(a: nat, b: nat, c: nat, d: nat)
    requires a < 10 && b < 10 && c < 10 && d < 10
    ensures var n := 1000 * a + 100 * b + 10 * c + d;
      n / 1000 == a && n / 100 % 10 == b && n / 10 % 10 == c && n % 10 == d
  {
    var n := 1000 * a + 100 * b + 10 * c + d;
    var m := 100 * a + 10 * b + c;
    assert n == 10 * m + d;
    assert n / 10 == m && n % 10 == d;
    var k := 10 * a + b;
    assert m == 10 * k + c;
    assert m / 10 == k && m % 10 == c;
    assert n / 100 == k by {
      assert n == 100 * k + (10 * c + d);
    }
    assert n / 1000 == a by {
      assert n == 1000 * a + (100 * b + 10 * c + d);
    }
  }

  /** A two-digit field holding a padded number reads back as that number. */
  lemma Field2OfPad(s: string, i: nat, n: nat)
    requires n < 100 && i + 2 <= |s| && s[i..i + 2] == Pad2(n)
    ensures Field2(s, i) == Some(n)
  {
    assert s[i] == Pad2(n)[0] && s[i + 1] == Pad2(n)[1];
  }

  /** A four-digit field holding a padded number reads back as that number. */
  lemma Field4OfPad(s: string, i: nat, n: nat)
    requires n < 10000 && i + 4 <= |s| && s[i..i + 4] == Pad4(n)
    ensures Field4(s, i) == Some(n)
  {
    assert s[i] == Pad4(n)[0] && s[i + 1] == Pad4(n)[1];
    assert s[i + 2] == Pad4(n)[2] && s[i + 3] == Pad4(n)[3];
    Recompose4(n);
  }

  /** The four digits `Pad4` writes add back up to the number. */
  lemma Recompose4(n: nat)
    requires n < 10000
    ensures 1000 * (n / 1000) + 100 * (n / 100 % 10) + 10 * (n / 10 % 10) + n % 10 == n
  {
    var q1, r1 := n / 10, n % 10;
    var q2, r2 := q1 / 10, q1 % 10;
    var q3, r3 := q2 / 10, q2 % 10;
    assert n == 10 * q1 + r1;
    assert q1 == 10 * q2 + r2;
    assert q2 == 10 * q3 + r3;
    assert n == 100 * q2 + (10 * r2 + r1);
    assert n / 100 == q2;
    assert n == 1000 * q3 + (100 * r3 + 10 * r2 + r1);
    assert n / 1000 == q3;
  }

  /** Shortest decimal text of `n`: no leading zero except for `n == 0` itself. */
  function FormatNat(n: nat): (s: string)
    ensures |s| >= 1 && AllDigits(s)
    ensures DigitsValue(s) == n
    ensures |s| > 1 ==> s[0] != '0'
  {
    if n < 10 then [DigitChar(n)]
    else
      var init := FormatNat(n / 10);
      assert DigitsValue(init + [DigitChar(n % 10)]) == DigitsValue(init) * 10 + n % 10 by {
        assert (init + [DigitChar(n % 10)])[..|init|] == init;
      }
      init + [DigitChar(n % 10)]
  }

  /** The syntax `strconv.ParseInt(s, 10, _)` accepts: an optional `+` or `-`
      followed by at least one decimal digit (base 10 given explicitly, so no
      underscores and no prefix), read as an unbounded integer. */
  function ParseDecimal(s: string): (r: Option<int>)
    ensures r.Some? <==>
              (|s| >= 1 && AllDigits(s)) ||
              (|s| >= 2 && (s[0] == '+' || s[0] == '-') && AllDigits(s[1..]))
    ensures r.Some? && AllDigits(s) ==> r.value == DigitsValue(s)
    ensures r.Some? && s[0] == '-' ==> r.value == -(DigitsValue(s[1..]) as int)
    ensures r.Some? && s[0] == '+' ==> r.value == DigitsValue(s[1..])
  {
    if |s| == 0 then None
    else if s[0] == '+' || s[0] == '-' then
      var body := s[1..];
      if |body| >= 1 && AllDigits(body) then
        Some(if s[0] == '-' then -(DigitsValue(body) as int) else DigitsValue(body) as int)
      else None
    else if AllDigits(s) then Some(DigitsValue(s))
    else None
  }

  /** Decimal text of an integer, with a leading `-` when negative
      (the inverse partner of `ParseDecimal`). */
  function FormatInt(n: int): string {
    if n < 0 then "-" + FormatNat(-n) else FormatNat(n)
  }

  lemma DecimalRoundTrip(n: int)
    ensures ParseDecimal(FormatInt(n)) == Some(n)
  {
    if n < 0 {
      var digits := FormatNat(-n);
      assert FormatInt(n)[1..] == digits;
    }
  }

  /** Bounds of Go's `int32`, the `bitSize` 32 passed to `strconv.ParseInt`. */
  const MinInt32: int := -0x8000_0000
  const MaxInt32: int := 0x7FFF_FFFF
}
