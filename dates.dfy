/**
 * Calendar dates as the tracker stores them: the `date` column of an expense
 * (a `datetime.date`), its ISO text form `YYYY-MM-DD`, the parser applied to
 * the `date` field of an add request (`strptime` with the format `%Y-%m-%d`),
 * and the year-month key `YYYY-MM` the statistics group by.
 */
module Dates {
  import opened Wrappers

  datatype Date = Date(year: int, month: int, day: int)

  predicate IsLeapYear(y: int) {
    y % 4 == 0 && (y % 100 != 0 || y % 400 == 0)
  }

  /** Days in month `m` of year `y` in the proleptic Gregorian calendar. */
  function DaysInMonth(y: int, m: int): (n: int)
    requires 1 <= m <= 12
    ensures 28 <= n <= 31
    ensures n == 29 <==> m == 2 && IsLeapYear(y)
  {
    if m == 2 then (if IsLeapYear(y) then 29 else 28)
    else if m == 4 || m == 6 || m == 9 || m == 11 then 30
    else 31
  }

  /** A date the date type can hold: years 1 to 9999, a real day of a real month. */
  predicate ValidDate(d: Date) {
    1 <= d.year <= 9999 && 1 <= d.month <= 12 && 1 <= d.day <= DaysInMonth(d.year, d.month)
  }

  /** `a` is on or before `b` in the calendar. */
  predicate NotAfter(a: Date, b: Date) {
    a.year < b.year
    || (a.year == b.year && (a.month < b.month || (a.month == b.month && a.day <= b.day)))
  }

  // ---------------------------------------------------------------------------
  // Decimal digits

  predicate IsDigit(c: char) {
    '0' <= c <= '9'
  }

  predicate AllDigits(s: string) {
    forall i :: 0 <= i < |s| ==> IsDigit(s[i])
  }

  function DigitValue(c: char): nat
    requires IsDigit(c)
  {
    c as int - '0' as int
  }

  function DigitChar(n: nat): (c: char)
    requires n < 10
    ensures IsDigit(c) && DigitValue(c) == n
  {
    ('0' as int + n) as char
  }

  function Pow10(n: nat): (p: nat)
    ensures p >= 1
  {
    if n == 0 then 1 else 10 * Pow10(n - 1)
  }

  /** The number a string of decimal digits denotes (the empty string denotes 0). */
  function DigitsValue(s: string): nat
    requires AllDigits(s)
  {
    if s == [] then 0 else 10 * DigitsValue(s[..|s| - 1]) + DigitValue(s[|s| - 1])
  }

  /** `n` written with exactly `width` digits, zero-padded on the left (the `%04d` and `%02d` of the ISO form). */
  function PadDigits(n: nat, width: nat): (s: string)
    ensures |s| == width && AllDigits(s)
  {
    if width == 0 then "" else PadDigits(n / 10, width - 1) + [DigitChar(n % 10)]
  }

  /** Reading back a zero-padded number gives the number, when it fits the width. */
  lemma {:induction false} PadDigitsValue(n: nat, width: nat)
    requires n < Pow10(width)
    ensures DigitsValue(PadDigits(n, width)) == n
  {
    if width > 0 {
      var p := Pow10(width - 1);
      assert Pow10(width) == 10 * p;
      assert n / 10 < p;
      PadDigitsValue(n / 10, width - 1);
      var s := PadDigits(n, width);
      assert s[..|s| - 1] == PadDigits(n / 10, width - 1);
      assert DigitValue(s[|s| - 1]) == n % 10;
      assert DigitsValue(s) == 10 * (n / 10) + n % 10;
    }
  }

  /** Writing out the value of a digit string at its own width gives the string back. */
  lemma {:induction false} DigitsPadValue(s: string)
    requires AllDigits(s)
    ensures PadDigits(DigitsValue(s), |s|) == s
  {
    if s != [] {
      var init, last := s[..|s| - 1], s[|s| - 1];
      DigitsPadValue(init);
      var v := DigitsValue(s);
      assert v / 10 == DigitsValue(init) && v % 10 == DigitValue(last);
      assert s == init + [last];
    }
  }

  // ---------------------------------------------------------------------------
  // Text forms

  /** The ISO form `YYYY-MM-DD` that the date column is stored and serialized in. */
  function IsoFormat(d: Date): (s: string)
    requires ValidDate(d)
    ensures |s| == 10 && s[4] == '-' && s[7] == '-'
  {
    PadDigits(d.year, 4) + "-" + PadDigits(d.month, 2) + "-" + PadDigits(d.day, 2)
  }

  /** The key `YYYY-MM` under which monthly totals are reported. */
  function MonthKey(d: Date): (s: string)
    requires ValidDate(d)
    ensures |s| == 7 && s[4] == '-'
    ensures s == IsoFormat(d)[..7]
  {
    PadDigits(d.year, 4) + "-" + PadDigits(d.month, 2)
  }

  /** Two dates share a month key exactly when they lie in the same month of the same year. */
  lemma MonthKeyInjective(a: Date, b: Date)
    requires ValidDate(a) && ValidDate(b)
    ensures MonthKey(a) == MonthKey(b) <==> a.year == b.year && a.month == b.month
  {
    if MonthKey(a) == MonthKey(b) {
      assert PadDigits(a.year, 4) == MonthKey(a)[..4] == MonthKey(b)[..4] == PadDigits(b.year, 4);
      assert PadDigits(a.month, 2) == MonthKey(a)[5..] == MonthKey(b)[5..] == PadDigits(b.month, 2);
      PadDigitsValue(a.year, 4);
      PadDigitsValue(b.year, 4);
      PadDigitsValue(a.month, 2);
      PadDigitsValue(b.month, 2);
    }
  }

  // ---------------------------------------------------------------------------
  // Parsing `%Y-%m-%d`

  /** What the `%m` directive matches: `1[0-2]`, `0[1-9]` or `[1-9]`. */
  predicate IsMonthToken(t: string) {
    (|t| == 1 && '1' <= t[0] <= '9')
    || (|t| == 2 && t[0] == '0' && '1' <= t[1] <= '9')
    || (|t| == 2 && t[0] == '1' && '0' <= t[1] <= '2')
  }

  /** What the `%d` directive matches: `3[01]`, `[12]\d`, `0[1-9]`, `[1-9]` or a space then `[1-9]`. */
  predicate IsDayToken(t: string) {
    (|t| == 1 && '1' <= t[0] <= '9')
    || (|t| == 2 && t[0] == '3' && (t[1] == '0' || t[1] == '1'))
    || (|t| == 2 && (t[0] == '1' || t[0] == '2') && IsDigit(t[1]))
    || (|t| == 2 && t[0] == '0' && '1' <= t[1] <= '9')
    || (|t| == 2 && t[0] == ' ' && '1' <= t[1] <= '9')
  }

  /** The number a day token stands for; a leading space is ignored. */
  function DayValue(t: string): nat
    requires IsDayToken(t)
  {
    if t[0] == ' ' then DigitsValue(t[1..]) else DigitsValue(t)
  }

  /**
   * Parses a date in the format `%Y-%m-%d`: exactly four digits of year, a
   * dash, a one- or two-digit month, a dash and a one- or two-digit day, with
   * nothing left over; the result must then be a real calendar date.
   * `None` stands for the `ValueError` the parser raises.
   */
  function ParseDate(s: string): (r: Option<Date>)
    ensures r.Some? ==> ValidDate(r.value)
    ensures r.Some? ==> |s| >= 8 && s[4] == '-' && AllDigits(s[..4]) && r.value.year == DigitsValue(s[..4])
  {
    if |s| < 7 || !AllDigits(s[..4]) || s[4] != '-' then None
    else
      // the month is the text between the first dash and the next one
      var j := if s[6] == '-' then 6 else 7;
      if j >= |s| || s[j] != '-' then None
      else
        var monthText, dayText := s[5..j], s[j + 1..];
        if !IsMonthToken(monthText) || !IsDayToken(dayText) then None
        else
          var d := Date(DigitsValue(s[..4]), DigitsValue(monthText), DayValue(dayText));
          if ValidDate(d) then Some(d) else None
  }

  /** Where the parts of the ISO form sit. */
  lemma IsoFormatParts(d: Date)
    requires ValidDate(d)
    ensures var s := IsoFormat(d);
      && s[..4] == PadDigits(d.year, 4) && s[4] == '-'
      && s[5..7] == PadDigits(d.month, 2) && s[6] != '-' && s[7] == '-'
      && s[8..] == PadDigits(d.day, 2)
  {
  }

  /** A ten-character string with the fields of `d` in place of year, month and day parses to `d`. */
  lemma ParseTenCharacters(s: string, d: Date)
    requires ValidDate(d) && |s| == 10 && s[4] == '-' && s[6] != '-' && s[7] == '-'
    requires AllDigits(s[..4]) && DigitsValue(s[..4]) == d.year
    requires IsMonthToken(s[5..7]) && DigitsValue(s[5..7]) == d.month
    requires IsDayToken(s[8..]) && DayValue(s[8..]) == d.day
    ensures ParseDate(s) == Some(d)
  {
  }

  /** A month written with two digits is a month token for that month. */
  lemma MonthFieldParses(month: nat)
    requires 1 <= month <= 12
    ensures IsMonthToken(PadDigits(month, 2)) && DigitsValue(PadDigits(month, 2)) == month
  {
    PadDigitsValue(month, 2);
  }

  /** A day written with two digits is a day token for that day. */
  lemma DayFieldParses(day: nat)
    requires 1 <= day <= 31
    ensures IsDayToken(PadDigits(day, 2)) && DayValue(PadDigits(day, 2)) == day
  {
    PadDigitsValue(day, 2);
    assert IsDigit(PadDigits(day, 2)[0]);
  }

  /** Every date's ISO form parses back to that date. */
  lemma ParseIsoFormat(d: Date)
    requires ValidDate(d)
    ensures ParseDate(IsoFormat(d)) == Some(d)
  {
    var s := IsoFormat(d);
    IsoFormatParts(d);
    MonthFieldParses(d.month);
    DayFieldParses(d.day);
    PadDigitsValue(d.year, 4);
    ParseTenCharacters(s, d);
  }

  /**
   * The parser is more lenient than the ISO form: it also accepts one-digit
   * months and days and a space before a one-digit day. A string it accepts is
   * the ISO form of the parsed date exactly when it is ten characters long and
   * holds no space.
   */
  lemma ParsedIsCanonical(s: string)
    requires ParseDate(s).Some?
    ensures IsoFormat(ParseDate(s).value) == s <==> |s| == 10 && ' ' !in s
  {
    var d := ParseDate(s).value;
    if |s| == 10 && ' ' !in s {
      assert s[6] != '-';
      var monthText, dayText := s[5..7], s[8..];
      assert dayText[0] != ' ' by { assert dayText[0] == s[8]; }
      DigitsPadValue(s[..4]);
      DigitsPadValue(monthText);
      DigitsPadValue(dayText);
      assert s == s[..4] + "-" + monthText + "-" + dayText;
    }
  }

  /**
   * The parser reads any year of four digits, month token and day token
   * joined by dashes (the one-digit and space-padded forms included) as that
   * year, month and day, and accepts the result exactly when it is a real date.
   */
  lemma ParseDateTokens(y: string, mt: string, dt: string)
    requires |y| == 4 && AllDigits(y) && IsMonthToken(mt) && IsDayToken(dt)
    ensures var d := Date(DigitsValue(y), DigitsValue(mt), DayValue(dt));
      ParseDate(y + "-" + mt + "-" + dt) == if ValidDate(d) then Some(d) else None
  {
    var s := y + "-" + mt + "-" + dt;
    var j := 5 + |mt|;
    assert s[..4] == y && s[4] == '-';
    assert s[5..j] == mt && s[j] == '-' && s[j + 1..] == dt;
    if |mt| == 2 {
      assert s[6] == mt[1];
    }
  }

  /**
   * Conversely, every string the parser accepts is a four-digit year, a month
   * token and a day token joined by dashes, and the date is read from them.
   */
  lemma ParsedDateTokens(s: string)
    requires ParseDate(s).Some?
    ensures exists y, mt, dt ::
      && |y| == 4 && AllDigits(y) && IsMonthToken(mt) && IsDayToken(dt)
      && s == y + "-" + mt + "-" + dt
      && ParseDate(s).value == Date(DigitsValue(y), DigitsValue(mt), DayValue(dt))
  {
    var j := if s[6] == '-' then 6 else 7;
    var y, mt, dt := s[..4], s[5..j], s[j + 1..];
    assert s == y + "-" + mt + "-" + dt;
  }
}
