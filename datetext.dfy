/** Dates as text in the pattern `%d.%m.%Y`: what `datetime.strptime`
    accepts and what `date.strftime` writes. */
module DateText {
  import opened Text
  import opened Calendar
  import opened Results

  /** The `%d` directive: `3[01]`, `[12]` and a digit, `0[1-9]`, a single
      digit `[1-9]`, or a space followed by `[1-9]`. */
  function DayField(t: string): (r: Option<int>)
    ensures r.Some? ==> 1 <= r.value <= 31
  {
    if |t| == 1 && '1' <= t[0] <= '9' then Some(DigitValue(t[0]))
    else if |t| == 2 && t[0] == ' ' && '1' <= t[1] <= '9' then Some(DigitValue(t[1]))
    else if |t| == 2 && AllDigits(t) && 1 <= NumberValue(t) <= 31 then Some(NumberValue(t))
    else None
  }

  /** The `%m` directive: `1[0-2]`, `0[1-9]` or a single digit `[1-9]`. */
  function MonthField(t: string): (r: Option<int>)
    ensures r.Some? ==> 1 <= r.value <= 12
  {
    if |t| == 1 && '1' <= t[0] <= '9' then Some(DigitValue(t[0]))
    else if |t| == 2 && AllDigits(t) && 1 <= NumberValue(t) <= 12 then Some(NumberValue(t))
    else None
  }

  /** The `%Y` directive: exactly four digits. */
  function YearField(t: string): (r: Option<int>)
    ensures r.Some? ==> 0 <= r.value <= 9999
  {
    if |t| == 4 && AllDigits(t) then
      DigitsRoundTrip(NumberValue(t), 4);
      NumberValueRoundTrip(t);
      assert NumberValue(t) < 10000 by {
        if NumberValue(t) >= 10000 {
          assert Pow10(4) == 10000;
          LongerThanWidth(NumberValue(t), 4);
        }
      }
      Some(NumberValue(t))
    else None
  }

  /** A number of at least 10^width needs more than `width` digits. */
  lemma {:induction false} LongerThanWidth(n: nat, width: nat)
    requires n >= Pow10(width)
    ensures |Digits(n, width)| > width
    decreases width
  {
    if width > 0 {
      LongerThanWidth(n / 10, width - 1);
    }
  }

  /** Splits off the text before a '.' found at position 1 or 2: none of the
      directives reads a '.', so the field ends at the first '.', and a field
      has one or two characters. */
  function CutField(s: string): (r: Option<(string, string)>)
    ensures r.Some? ==> s == r.value.0 + "." + r.value.1
  {
    if |s| >= 2 && s[1] == '.' then Some((s[..1], s[2..]))
    else if |s| >= 3 && s[2] == '.' then Some((s[..2], s[3..]))
    else None
  }

  /** `datetime.strptime(s, "%d.%m.%Y")`: the whole string must match the
      pattern and name a date that exists (year 1 to 9999, the day within
      its month). */
  function ParseDate(s: string): (r: Option<Date>)
    ensures r.Some? ==> ValidDate(r.value) && r.value.year <= 9999
  {
    match CutField(s)
    case None => None
    case Some((dayText, rest)) =>
      match CutField(rest)
      case None => None
      case Some((monthText, yearText)) => FromFields(dayText, monthText, yearText)
  }

  /** The three directives read their fields, and the date they name must
      exist. */
  function FromFields(dayText: string, monthText: string, yearText: string): (r: Option<Date>)
    ensures r.Some? ==> ValidDate(r.value) && r.value.year <= 9999
  {
    match (DayField(dayText), MonthField(monthText), YearField(yearText))
    case (Some(d), Some(m), Some(y)) =>
      if ValidDate(Date(y, m, d)) then Some(Date(y, m, d)) else None
    case _ => None
  }

  /** A field of one character, or of two not ending in '.', is cut off at
      the '.' after it. */
  lemma CutFieldAt(f: string, rest: string)
    requires |f| == 1 || (|f| == 2 && f[1] != '.')
    ensures CutField(f + "." + rest) == Some((f, rest))
  {
    var s := f + "." + rest;
    if |f| == 1 {
      assert s[1] == '.' && s[..1] == f && s[2..] == rest;
    } else {
      assert s[1] == f[1] && s[2] == '.' && s[..2] == f && s[3..] == rest;
    }
  }

  /** Text made of a day and a month field, each of one or two characters,
      and a year field, joined by '.', is read field by field. */
  lemma ParseDateOf(dayText: string, monthText: string, yearText: string)
    requires |dayText| == 1 || (|dayText| == 2 && dayText[1] != '.')
    requires |monthText| == 1 || (|monthText| == 2 && monthText[1] != '.')
    ensures ParseDate(dayText + "." + monthText + "." + yearText)
            == FromFields(dayText, monthText, yearText)
  {
    var rest := monthText + "." + yearText;
    assert dayText + "." + monthText + "." + yearText == dayText + "." + rest;
    CutFieldAt(dayText, rest);
    CutFieldAt(monthText, yearText);
  }

  /** Text that parses holds only digits, dots and a space: in particular
      no line break. */
  lemma ParsedIsOneLine(s: string)
    requires ParseDate(s).Some?
    ensures '\n' !in s
  {
    var (dayText, rest) := CutField(s).value;
    var (monthText, yearText) := CutField(rest).value;
    FieldIsOneLine(dayText, monthText, yearText);
  }

  lemma FieldIsOneLine(dayText: string, monthText: string, yearText: string)
    requires FromFields(dayText, monthText, yearText).Some?
    ensures '\n' !in dayText && '\n' !in monthText && '\n' !in yearText
  {
    assert DayField(dayText).Some? && MonthField(monthText).Some? && YearField(yearText).Some?;
  }

  /** `date.strftime("%d.%m.%Y")`: day and month as two digits, the year as
      four, zero-padded. */
  function FormatDate(d: Date): string
    requires ValidDate(d)
  {
    Digits(d.day, 2) + "." + Digits(d.month, 2) + "." + Digits(d.year, 4)
  }

  lemma TwoDigits(n: nat)
    requires n < 100
    ensures |Digits(n, 2)| == 2 && AllDigits(Digits(n, 2)) && NumberValue(Digits(n, 2)) == n
  {
    DigitsWidth(n, 2);
    DigitsRoundTrip(n, 2);
  }

  /** A year of at most four digits, written with four, is read back. */
  lemma YearDigits(y: nat)
    requires y <= 9999
    ensures |Digits(y, 4)| == 4 && YearField(Digits(y, 4)) == Some(y)
  {
    DigitsWidth(y, 4);
    DigitsRoundTrip(y, 4);
  }

  /** Day and month written with two digits and the year with four are
      read back field by field: the text parses exactly when the date they
      name exists. */
  lemma ParseDigitFields(day: nat, month: nat, year: nat)
    requires 1 <= day <= 31 && 1 <= month <= 12 && year <= 9999
    ensures var s := Digits(day, 2) + "." + Digits(month, 2) + "." + Digits(year, 4);
            ParseDate(s) == if ValidDate(Date(year, month, day)) then Some(Date(year, month, day)) else None
  {
    var dd, mm, yy := Digits(day, 2), Digits(month, 2), Digits(year, 4);
    TwoDigits(day);
    TwoDigits(month);
    YearDigits(year);
    assert IsDigit(dd[1]) && IsDigit(mm[1]);
    ParseDateOf(dd, mm, yy);
    assert DayField(dd) == Some(day);
    assert MonthField(mm) == Some(month);
  }

  /** Every date of years 1 to 9999, written out, is read back as itself,
      in ten characters. */
  lemma FormatThenParse(d: Date)
    requires ValidDate(d) && d.year <= 9999
    ensures |FormatDate(d)| == 10
    ensures ParseDate(FormatDate(d)) == Some(d)
  {
    TwoDigits(d.day);
    TwoDigits(d.month);
    YearDigits(d.year);
    ParseDigitFields(d.day, d.month, d.year);
  }

  /** Well-formed digits naming a day that its month does not have (such
      as 29 February of a common year), or the year 0, are refused. */
  lemma ParseRefusesMissingDate(day: nat, month: nat, year: nat)
    requires 1 <= day <= 31 && 1 <= month <= 12 && year <= 9999
    requires !ValidDate(Date(year, month, day))
    ensures ParseDate(Digits(day, 2) + "." + Digits(month, 2) + "." + Digits(year, 4)) == None
  {
    ParseDigitFields(day, month, year);
  }

  /** `%d` and `%m` also take a single digit. */
  lemma ParseSingleDigits(d: Date)
    requires ValidDate(d) && d.year <= 9999 && d.day < 10 && d.month < 10
    ensures ParseDate([DigitChar(d.day)] + "." + [DigitChar(d.month)] + "." + Digits(d.year, 4)) == Some(d)
  {
    YearDigits(d.year);
    ParseDateOf([DigitChar(d.day)], [DigitChar(d.month)], Digits(d.year, 4));
  }

  /** `%d` also takes a space followed by a digit. */
  lemma ParseSpacedDay(d: Date)
    requires ValidDate(d) && d.year <= 9999 && d.day < 10
    ensures ParseDate(" " + [DigitChar(d.day)] + "." + Digits(d.month, 2) + "." + Digits(d.year, 4)) == Some(d)
  {
    var mm := Digits(d.month, 2);
    TwoDigits(d.month);
    YearDigits(d.year);
    assert IsDigit(mm[1]);
    ParseDateOf(" " + [DigitChar(d.day)], mm, Digits(d.year, 4));
    assert MonthField(mm) == Some(d.month);
  }

  /** A year field that is not four characters long is refused, so a
      two-digit year is not read. */
  lemma ParseNeedsFourDigitYear(dayText: string, monthText: string, yearText: string)
    requires |dayText| == 1 || (|dayText| == 2 && dayText[1] != '.')
    requires |monthText| == 1 || (|monthText| == 2 && monthText[1] != '.')
    requires |yearText| != 4
    ensures ParseDate(dayText + "." + monthText + "." + yearText) == None
  {
    ParseDateOf(dayText, monthText, yearText);
  }

  /** A ten-character text that parses, and does not start with the space
      `%d` allows, is exactly the formatted form of its date. */
  lemma ParseThenFormat(s: string)
    requires ParseDate(s).Some? && |s| == 10 && s[0] != ' '
    ensures FormatDate(ParseDate(s).value) == s
  {
    var d := ParseDate(s).value;
    var (dayText, rest) := CutField(s).value;
    var (monthText, yearText) := CutField(rest).value;
    assert |dayText| == 2 && |monthText| == 2 && |yearText| == 4;
    assert DayField(dayText) == Some(d.day);
    assert dayText[0] == s[0];
    assert AllDigits(dayText) && NumberValue(dayText) == d.day;
    NumberValueRoundTrip(dayText);
    assert AllDigits(monthText) && NumberValue(monthText) == d.month;
    NumberValueRoundTrip(monthText);
    NumberValueRoundTrip(yearText);
  }

  /** A day written `00` is refused. */
  lemma ParseRefusesZeroDay(monthText: string, yearText: string)
    requires |monthText| == 1 || (|monthText| == 2 && monthText[1] != '.')
    ensures ParseDate("00" + "." + monthText + "." + yearText) == None
  {
    ParseDateOf("00", monthText, yearText);
    TwoDigitValue("00");
  }
}
