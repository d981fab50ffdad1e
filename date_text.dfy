/**
 * The textual date and time formats of the attendance store.
 *
 * Dates are read with `strptime(text, '%d-%m-%Y')` and written with
 * `strftime('%d-%m-%Y')`; times are only checked with
 * `strptime(text, '%H:%M')` and kept as the text the user typed.
 * Each directive is modelled by the alternatives of the pattern that
 * Python's `_strptime` compiles it to, tried in the same order; the whole
 * text must be consumed, and the parsed day, month and year must then form
 * a real Gregorian date with a year from 1 to 9999, as `datetime.date`
 * demands.
 */
module DateText {
  import opened Wrappers

  /** A calendar date: the fields of a `datetime.date`. */
  datatype Date = Date(day: int, month: int, year: int)

  predicate IsLeapYear(year: int) {
    year % 4 == 0 && (year % 100 != 0 || year % 400 == 0)
  }

  /** The number of days of a month in the proleptic Gregorian calendar. */
  function DaysInMonth(month: int, year: int): (n: int)
    requires 1 <= month <= 12
    ensures 28 <= n <= 31
    ensures n == 29 <==> month == 2 && IsLeapYear(year)
  {
    if month == 2 then (if IsLeapYear(year) then 29 else 28)
    else if month == 4 || month == 6 || month == 9 || month == 11 then 30
    else 31
  }

  /** The dates `datetime.date` can represent. */
  predicate ValidDate(d: Date) {
    1 <= d.year <= 9999 && 1 <= d.month <= 12 && 1 <= d.day <= DaysInMonth(d.month, d.year)
  }

  type CalDate = d: Date | ValidDate(d) witness Date(1, 1, 1)

  // ---------------------------------------------------------------------
  // Decimal digits

  predicate IsDigit(c: char) { '0' <= c <= '9' }

  predicate IsNonZeroDigit(c: char) { '1' <= c <= '9' }

  function DigitValue(c: char): (n: nat)
    requires IsDigit(c)
    ensures n < 10
  {
    c as int - '0' as int
  }

  function DigitChar(n: nat): (c: char)
    requires n < 10
    ensures IsDigit(c) && DigitValue(c) == n
  {
    ('0' as int + n) as char
  }

  lemma DigitCharOfValue(c: char)
    requires IsDigit(c)
    ensures DigitChar(DigitValue(c)) == c
  {
  }

  /** Two decimal digits with a leading zero, as `%d`, `%m`, `%H` and `%M` are written. */
  function Pad2(n: nat): (s: string)
    requires n < 100
    ensures |s| == 2 && IsDigit(s[0]) && IsDigit(s[1])
    ensures 10 * DigitValue(s[0]) + DigitValue(s[1]) == n
  {
    [DigitChar(n / 10), DigitChar(n % 10)]
  }

  /** Four decimal digits with leading zeros, as `%Y` is written. */
  function Pad4(n: nat): (s: string)
    requires n < 10000
    ensures |s| == 4 && AllDigits(s) && DigitsValue(s) == n
  {
    var r1 := n / 10;
    var r2 := r1 / 10;
    var s := [DigitChar(r2 / 10), DigitChar(r2 % 10), DigitChar(r1 % 10), DigitChar(n % 10)];
    DigitsValueOfFour(s);
    s
  }

  predicate AllDigits(s: string) {
    forall i :: 0 <= i < |s| ==> IsDigit(s[i])
  }

  /** The number a string of digits denotes, most significant digit first. */
  function DigitsValue(s: string): (n: nat)
    requires AllDigits(s)
  {
    if s == [] then 0 else 10 * DigitsValue(s[..|s| - 1]) + DigitValue(s[|s| - 1])
  }

  /** The value of a four-digit text, digit by digit. */
  lemma DigitsValueOfFour(s: string)
    requires |s| == 4 && AllDigits(s)
    ensures DigitsValue(s) == 1000 * DigitValue(s[0]) + 100 * DigitValue(s[1]) + 10 * DigitValue(s[2]) + DigitValue(s[3])
    ensures DigitsValue(s) < 10000
  {
    var s3 := s[..3];
    var s2 := s3[..2];
    var s1 := s2[..1];
    assert s1[..0] == [];
    assert DigitsValue(s1) == DigitValue(s[0]);
    assert DigitsValue(s2) == 10 * DigitValue(s[0]) + DigitValue(s[1]);
    assert DigitsValue(s3) == 100 * DigitValue(s[0]) + 10 * DigitValue(s[1]) + DigitValue(s[2]);
  }

  /** A four-digit year text is the padded rendering of the number it denotes. */
  lemma Pad4OfDigits(s: string)
    requires |s| == 4 && AllDigits(s)
    ensures DigitsValue(s) < 10000 && Pad4(DigitsValue(s)) == s
  {
    DigitsValueOfFour(s);
    var n := DigitsValue(s);
    var r1 := 100 * DigitValue(s[0]) + 10 * DigitValue(s[1]) + DigitValue(s[2]);
    var r2 := 10 * DigitValue(s[0]) + DigitValue(s[1]);
    assert n == 10 * r1 + DigitValue(s[3]);
    assert n / 10 == r1 && n % 10 == DigitValue(s[3]);
    assert r1 == 10 * r2 + DigitValue(s[2]);
    assert r1 / 10 == r2 && r1 % 10 == DigitValue(s[2]);
    assert r2 / 10 == DigitValue(s[0]) && r2 % 10 == DigitValue(s[1]);
    DigitCharOfValue(s[0]);
    DigitCharOfValue(s[1]);
    DigitCharOfValue(s[2]);
    DigitCharOfValue(s[3]);
  }

  // ---------------------------------------------------------------------
  // The directives of the formats, as prefixes of the text

  /** `%d`, the pattern `3[01]|[12]\d|0[1-9]|[1-9]| [1-9]`: the day and the number of characters it takes. */
  function DayField(s: string): (r: Option<(nat, nat)>)
    ensures r.Some? ==> 1 <= r.value.0 <= 31 && 1 <= r.value.1 <= 2 && r.value.1 <= |s|
  {
    if |s| >= 2 && s[0] == '3' && (s[1] == '0' || s[1] == '1') then Some((30 + DigitValue(s[1]), 2))
    else if |s| >= 2 && (s[0] == '1' || s[0] == '2') && IsDigit(s[1]) then Some((10 * DigitValue(s[0]) + DigitValue(s[1]), 2))
    else if |s| >= 2 && s[0] == '0' && IsNonZeroDigit(s[1]) then Some((DigitValue(s[1]), 2))
    else if |s| >= 1 && IsNonZeroDigit(s[0]) then Some((DigitValue(s[0]), 1))
    else if |s| >= 2 && s[0] == ' ' && IsNonZeroDigit(s[1]) then Some((DigitValue(s[1]), 2))
    else None
  }

  /** `%m`, the pattern `1[0-2]|0[1-9]|[1-9]`. */
  function MonthField(s: string): (r: Option<(nat, nat)>)
    ensures r.Some? ==> 1 <= r.value.0 <= 12 && 1 <= r.value.1 <= 2 && r.value.1 <= |s|
  {
    if |s| >= 2 && s[0] == '1' && '0' <= s[1] <= '2' then Some((10 + DigitValue(s[1]), 2))
    else if |s| >= 2 && s[0] == '0' && IsNonZeroDigit(s[1]) then Some((DigitValue(s[1]), 2))
    else if |s| >= 1 && IsNonZeroDigit(s[0]) then Some((DigitValue(s[0]), 1))
    else None
  }

  /** `%H`, the pattern `2[0-3]|[0-1]\d|\d`. */
  function HourField(s: string): (r: Option<(nat, nat)>)
    ensures r.Some? ==> r.value.0 <= 23 && 1 <= r.value.1 <= 2 && r.value.1 <= |s|
  {
    if |s| >= 2 && s[0] == '2' && '0' <= s[1] <= '3' then Some((20 + DigitValue(s[1]), 2))
    else if |s| >= 2 && (s[0] == '0' || s[0] == '1') && IsDigit(s[1]) then Some((10 * DigitValue(s[0]) + DigitValue(s[1]), 2))
    else if |s| >= 1 && IsDigit(s[0]) then Some((DigitValue(s[0]), 1))
    else None
  }

  /** `%M`, the pattern `[0-5]\d|\d`. */
  function MinuteField(s: string): (r: Option<(nat, nat)>)
    ensures r.Some? ==> r.value.0 <= 59 && 1 <= r.value.1 <= 2 && r.value.1 <= |s|
  {
    if |s| >= 2 && '0' <= s[0] <= '5' && IsDigit(s[1]) then Some((10 * DigitValue(s[0]) + DigitValue(s[1]), 2))
    else if |s| >= 1 && IsDigit(s[0]) then Some((DigitValue(s[0]), 1))
    else None
  }

  // ---------------------------------------------------------------------
  // Parsing and rendering

  /**
   * `datetime.strptime(s, '%d-%m-%Y').date()`: `None` where Python raises
   * `ValueError` (the text does not match, text is left over, or the fields
   * do not form a date).
   */
  function ParseDate(s: string): (r: Option<CalDate>)
    ensures r.Some? ==> 6 <= |s| <= 10 && s[|s| - 5] == '-'
    ensures r.Some? ==> AllDigits(s[|s| - 4..]) && DigitsValue(s[|s| - 4..]) == r.value.year
  {
    match DayField(s)
    case None => None
    case Some((day, k)) =>
      if |s| <= k || s[k] != '-' then None
      else
        var rest := s[k + 1..];
        match MonthField(rest)
        case None => None
        case Some((month, j)) =>
          if |rest| <= j || rest[j] != '-' then None
          else
            var yearText := rest[j + 1..];
            if |yearText| != 4 || !AllDigits(yearText) then None
            else
              assert yearText == s[|s| - 4..] && s[|s| - 5] == rest[j];
              var d := Date(day, month, DigitsValue(yearText));
              if ValidDate(d) then Some(d) else None
  }

  /** `date.strftime('%d-%m-%Y')`: day and month in two digits, the year in four. */
  function RenderDate(d: CalDate): (r: string)
    ensures |r| == 10 && r[2] == '-' && r[5] == '-'
    ensures IsDigit(r[0]) && IsDigit(r[1]) && 10 * DigitValue(r[0]) + DigitValue(r[1]) == d.day
    ensures IsDigit(r[3]) && IsDigit(r[4]) && 10 * DigitValue(r[3]) + DigitValue(r[4]) == d.month
    ensures AllDigits(r[6..]) && DigitsValue(r[6..]) == d.year
  {
    var r := Pad2(d.day) + "-" + Pad2(d.month) + "-" + Pad4(d.year);
    assert r[6..] == Pad4(d.year);
    r
  }

  /** Whether `datetime.strptime(s, '%H:%M')` succeeds. */
  predicate ValidTime(s: string): (ok: bool)
    ensures ok ==> 3 <= |s| <= 5 && IsDigit(s[0]) && IsDigit(s[|s| - 1])
  {
    match HourField(s)
    case None => false
    case Some((_, k)) =>
      |s| > k && s[k] == ':' &&
      var rest := s[k + 1..];
      match MinuteField(rest)
      case None => false
      case Some((_, j)) => j == |rest|
  }

  // ---------------------------------------------------------------------
  // The texts each value may be written as: an independent description
  // of what the parsers accept

  /** A number written with two digits, or with one when it is below ten. */
  function NumberSpellings(n: nat): set<string>
    requires n < 100
  {
    {Pad2(n)} + (if n < 10 then {[DigitChar(n)]} else {})
  }

  /** `%d` also accepts a day below ten written with a leading space. */
  function DaySpellings(n: nat): set<string>
    requires n < 100
  {
    NumberSpellings(n) + (if n < 10 then {[' ', DigitChar(n)]} else {})
  }

  /** Every text `strptime` reads as the date `d`. */
  function DateSpellings(d: CalDate): set<string> {
    set ds, ms | ds in DaySpellings(d.day) && ms in NumberSpellings(d.month) :: ds + "-" + ms + "-" + Pad4(d.year)
  }

  /** Every text `strptime` reads as the time `hour:minute`. */
  function TimeSpellings(hour: nat, minute: nat): set<string>
    requires hour < 24 && minute < 60
  {
    set hs, ms | hs in NumberSpellings(hour) && ms in NumberSpellings(minute) :: hs + ":" + ms
  }

  ghost predicate IsTimeSpelling(s: string) {
    exists hour: nat, minute: nat :: hour < 24 && minute < 60 && s in TimeSpellings(hour, minute)
  }

  // ---------------------------------------------------------------------
  // What each directive reads

  /** Two digits are the padded rendering of the number they denote. */
  lemma Pad2OfDigits(t: string)
    requires |t| == 2 && IsDigit(t[0]) && IsDigit(t[1])
    ensures Pad2(10 * DigitValue(t[0]) + DigitValue(t[1])) == t
  {
    DigitCharOfValue(t[0]);
    DigitCharOfValue(t[1]);
  }

  lemma DigitOfSingle(t: string)
    requires |t| == 1 && IsDigit(t[0])
    ensures t == [DigitChar(DigitValue(t[0]))]
  {
    DigitCharOfValue(t[0]);
  }

  /** The characters `%d` takes are a spelling of the day it yields. */
  lemma DayFieldSpelling(s: string)
    requires DayField(s).Some?
    ensures s[..DayField(s).value.1] in DaySpellings(DayField(s).value.0)
  {
    var (n, k) := DayField(s).value;
    var t := s[..k];
    if k == 2 && s[0] != '0' && s[0] != ' ' {
      Pad2OfDigits(t);
    } else if k == 2 && s[0] == '0' {
      assert t == ['0', s[1]];
      DigitCharOfValue(s[1]);
    } else if k == 2 {
      assert t == [' ', s[1]];
      DigitCharOfValue(s[1]);
    } else {
      DigitOfSingle(t);
    }
  }

  /** `%d` reads every spelling of a day back, when a `-` follows it. */
  lemma DayFieldOfSpelling(n: nat, ds: string, rest: string)
    requires 1 <= n <= 31 && ds in DaySpellings(n)
    requires |rest| > 0 && rest[0] == '-'
    ensures DayField(ds + rest) == Some((n, |ds|))
  {
    var s := ds + rest;
    if ds == Pad2(n) {
      assert s[0] == ds[0] && s[1] == ds[1];
    } else if ds == [DigitChar(n)] {
      assert s[0] == ds[0] && s[1] == '-';
    } else {
      assert s[0] == ' ' && s[1] == ds[1];
    }
  }

  /** The characters `%m` takes are a spelling of the month it yields. */
  lemma MonthFieldSpelling(s: string)
    requires MonthField(s).Some?
    ensures s[..MonthField(s).value.1] in NumberSpellings(MonthField(s).value.0)
  {
    var (n, k) := MonthField(s).value;
    var t := s[..k];
    if k == 2 && s[0] == '1' {
      Pad2OfDigits(t);
    } else if k == 2 {
      assert t == ['0', s[1]];
      DigitCharOfValue(s[1]);
    } else {
      DigitOfSingle(t);
    }
  }

  /** `%m` reads every spelling of a month back, when a `-` follows it. */
  lemma MonthFieldOfSpelling(n: nat, ms: string, rest: string)
    requires 1 <= n <= 12 && ms in NumberSpellings(n)
    requires |rest| > 0 && rest[0] == '-'
    ensures MonthField(ms + rest) == Some((n, |ms|))
  {
    var s := ms + rest;
    if ms == Pad2(n) {
      assert s[0] == ms[0] && s[1] == ms[1];
    } else {
      assert s[0] == ms[0] && s[1] == '-';
    }
  }

  /** The characters `%H` takes are a spelling of the hour it yields. */
  lemma HourFieldSpelling(s: string)
    requires HourField(s).Some?
    ensures s[..HourField(s).value.1] in NumberSpellings(HourField(s).value.0)
  {
    var (n, k) := HourField(s).value;
    var t := s[..k];
    if k == 2 {
      Pad2OfDigits(t);
    } else {
      DigitOfSingle(t);
    }
  }

  /** `%H` reads every spelling of an hour back, when a `:` follows it. */
  lemma HourFieldOfSpelling(n: nat, hs: string, rest: string)
    requires n < 24 && hs in NumberSpellings(n)
    requires |rest| > 0 && rest[0] == ':'
    ensures HourField(hs + rest) == Some((n, |hs|))
  {
    var s := hs + rest;
    if hs == Pad2(n) {
      assert s[0] == hs[0] && s[1] == hs[1];
    } else {
      assert s[0] == hs[0] && s[1] == ':';
    }
  }

  /** The characters `%M` takes are a spelling of the minute it yields. */
  lemma MinuteFieldSpelling(s: string)
    requires MinuteField(s).Some?
    ensures s[..MinuteField(s).value.1] in NumberSpellings(MinuteField(s).value.0)
  {
    var (n, k) := MinuteField(s).value;
    var t := s[..k];
    if k == 2 {
      Pad2OfDigits(t);
    } else {
      DigitOfSingle(t);
    }
  }

  /** `%M` reads every spelling of a minute back, taking all of it. */
  lemma MinuteFieldOfSpelling(n: nat, ms: string)
    requires n < 60 && ms in NumberSpellings(n)
    ensures MinuteField(ms) == Some((n, |ms|))
  {
  }

  // ---------------------------------------------------------------------
  // The formats as a whole

  /** A text `strptime(s, '%d-%m-%Y')` reads as `d` is one of the ways of writing `d`. */
  lemma ParsedDateIsSpelling(s: string)
    requires ParseDate(s).Some?
    ensures s in DateSpellings(ParseDate(s).value)
  {
    var d := ParseDate(s).value;
    var (day, k) := DayField(s).value;
    DayFieldSpelling(s);
    var rest := s[k + 1..];
    var (month, j) := MonthField(rest).value;
    MonthFieldSpelling(rest);
    var yearText := rest[j + 1..];
    Pad4OfDigits(yearText);
    var ds, ms := s[..k], rest[..j];
    assert rest == ms + "-" + yearText;
    assert s == ds + "-" + ms + "-" + Pad4(d.year);
  }

  /** Every way of writing `d` is read as `d`. */
  lemma SpellingParsesAsDate(s: string, d: CalDate)
    requires s in DateSpellings(d)
    ensures ParseDate(s) == Some(d)
  {
    var ds, ms :| ds in DaySpellings(d.day) && ms in NumberSpellings(d.month) && s == ds + "-" + ms + "-" + Pad4(d.year);
    FieldSpellingsParse(ds, ms, d);
  }

  /** A date written with the given spellings of its day and its month is read as that date. */
  lemma FieldSpellingsParse(ds: string, ms: string, d: CalDate)
    requires ds in DaySpellings(d.day) && ms in NumberSpellings(d.month)
    ensures ParseDate(ds + "-" + ms + "-" + Pad4(d.year)) == Some(d)
  {
    var s := ds + "-" + ms + "-" + Pad4(d.year);
    var yearText := Pad4(d.year);
    var rest := ms + "-" + yearText;
    assert s == ds + ("-" + rest);
    DayFieldOfSpelling(d.day, ds, "-" + rest);
    assert s[|ds| + 1..] == rest;
    assert rest == ms + ("-" + yearText);
    MonthFieldOfSpelling(d.month, ms, "-" + yearText);
    assert rest[|ms| + 1..] == yearText;
    assert s[|ds|] == '-' && rest[|ms|] == '-';
    assert |yearText| == 4 && AllDigits(yearText) && DigitsValue(yearText) == d.year;
    assert Date(d.day, d.month, d.year) == d;
  }

  /** `strptime(s, '%d-%m-%Y')` yields `d` exactly when `s` is one of the ways of writing `d`. */
  lemma ParseDateSpellings(s: string, d: CalDate)
    ensures ParseDate(s) == Some(d) <==> s in DateSpellings(d)
  {
    if ParseDate(s) == Some(d) {
      ParsedDateIsSpelling(s);
    }
    if s in DateSpellings(d) {
      SpellingParsesAsDate(s, d);
    }
  }

  /** Rendering a date and parsing the text back gives the same date. */
  lemma ParseRenderDate(d: CalDate)
    ensures ParseDate(RenderDate(d)) == Some(d)
  {
    assert RenderDate(d) in DateSpellings(d);
    ParseDateSpellings(RenderDate(d), d);
  }

  /**
   * Parsing accepts unpadded and space-padded fields, so rendering a parsed
   * date reproduces the text exactly when the text is ten characters long
   * and does not start with a space.
   */
  lemma RenderParsedDate(s: string, d: CalDate)
    requires ParseDate(s) == Some(d)
    ensures RenderDate(d) == s <==> |s| == 10 && s[0] != ' '
  {
    ParseDateSpellings(s, d);
    var ds, ms :| ds in DaySpellings(d.day) && ms in NumberSpellings(d.month) && s == ds + "-" + ms + "-" + Pad4(d.year);
    if |s| == 10 && s[0] != ' ' {
      assert |ds| == 2 && |ms| == 2;
      assert ds[0] == s[0];
      assert ds == Pad2(d.day);
    }
  }

  /** A date is written as the text `q` exactly when `q` reads as that date, is ten characters long and does not start with a space. */
  lemma RenderedDateText(q: string, d: CalDate)
    ensures RenderDate(d) == q <==> ParseDate(q) == Some(d) && |q| == 10 && q[0] != ' '
  {
    if RenderDate(d) == q {
      ParseRenderDate(d);
    }
    if ParseDate(q) == Some(d) && |q| == 10 && q[0] != ' ' {
      RenderParsedDate(q, d);
    }
  }

  /** A text `strptime(s, '%H:%M')` accepts is one of the ways of writing a time of day. */
  lemma ValidTimeIsSpelling(s: string)
    requires ValidTime(s)
    ensures IsTimeSpelling(s)
  {
    var (hour, k) := HourField(s).value;
    HourFieldSpelling(s);
    var rest := s[k + 1..];
    var (minute, j) := MinuteField(rest).value;
    MinuteFieldSpelling(rest);
    assert rest[..j] == rest;
    assert s == s[..k] + ":" + rest;
    assert s in TimeSpellings(hour, minute);
  }

  /** Every way of writing a time of day is accepted. */
  lemma SpellingIsValidTime(s: string, hour: nat, minute: nat)
    requires hour < 24 && minute < 60 && s in TimeSpellings(hour, minute)
    ensures ValidTime(s)
  {
    var hs, ms :| hs in NumberSpellings(hour) && ms in NumberSpellings(minute) && s == hs + ":" + ms;
    assert s == hs + (":" + ms);
    HourFieldOfSpelling(hour, hs, ":" + ms);
    assert s[|hs|] == ':' && s[|hs| + 1..] == ms;
    MinuteFieldOfSpelling(minute, ms);
  }

  /** `strptime(s, '%H:%M')` succeeds exactly when `s` is one of the ways of writing a time of day. */
  lemma ValidTimeSpellings(s: string)
    ensures ValidTime(s) <==> IsTimeSpelling(s)
  {
    if ValidTime(s) {
      ValidTimeIsSpelling(s);
    }
    if IsTimeSpelling(s) {
      var hour: nat, minute: nat :| hour < 24 && minute < 60 && s in TimeSpellings(hour, minute);
      SpellingIsValidTime(s, hour, minute);
    }
  }

  // ---------------------------------------------------------------------
  // Examples

  /** Month 13 is refused. */
  lemma MonthThirteenRefused()
    ensures ParseDate("31-13-2024").None?
  {
    assert MonthField("13-2024") == Some((1, 1));
  }

  /** 29 February is refused in a common year. */
  lemma LeapDayRefused()
    ensures ParseDate("29-02-2023").None?
  {
    assert "29-02-2023"[6..] == "2023";
    DigitsValueOfFour("2023");
  }

  /** 29 February is accepted in a leap year. */
  lemma LeapDayAccepted()
    ensures ParseDate("29-02-2024") == Some(Date(29, 2, 2024))
  {
    var s := "29-02-2024";
    assert DayField(s) == Some((29, 2));
    assert s[3..] == "02-2024";
    assert MonthField("02-2024") == Some((2, 2));
    assert "02-2024"[3..] == "2024";
    DigitsValueOfFour("2024");
    assert ValidDate(Date(29, 2, 2024));
  }

  /** Year 0 is refused: `datetime.date` starts at year 1. */
  lemma YearZeroRefused()
    ensures ParseDate("01-01-0000").None?
  {
    assert "01-01-0000"[6..] == "0000";
    DigitsValueOfFour("0000");
  }

  /** An unpadded date is accepted ... */
  lemma UnpaddedDate()
    ensures ParseDate("5-3-2024") == Some(Date(5, 3, 2024))
  {
    assert DayField("5-3-2024") == Some((5, 1));
    assert "5-3-2024"[2..] == "3-2024";
    assert MonthField("3-2024") == Some((3, 1));
    assert "3-2024"[2..] == "2024";
    DigitsValueOfFour("2024");
  }

  /** ... and rendering it gives the padded text instead. */
  lemma PaddedRendering()
    ensures RenderDate(Date(5, 3, 2024)) == "05-03-2024"
  {
  }

  /** 1 January 2024 is written `01-01-2024`. */
  lemma NewYearRendering()
    ensures RenderDate(Date(1, 1, 2024)) == "01-01-2024"
  {
  }

  /** The padded text of a date reads as that date. */
  lemma PaddedDate()
    ensures ParseDate("05-03-2024") == Some(Date(5, 3, 2024))
  {
    PaddedRendering();
    ParseRenderDate(Date(5, 3, 2024));
  }

  /** Two-digit and one-digit fields are accepted. */
  lemma AcceptedTimes()
    ensures ValidTime("08:30") && ValidTime("8:30") && ValidTime("7:5")
  {
  }

  /** Hour 24 and minute 60 are refused. */
  lemma RefusedTimes()
    ensures !ValidTime("24:00") && !ValidTime("10:60")
  {
    assert HourField("24:00") == Some((2, 1));
    assert MinuteField("60") == Some((6, 1));
  }
}
