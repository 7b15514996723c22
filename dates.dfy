/**
 * `normalise_date`: three `strptime` formats tried in order, the first success
 * written back as an ISO 8601 calendar date (`date.isoformat()`, YYYY-MM-DD).
 * Only the canonical spelling of each format is read: two-digit days and months,
 * four-digit years, month names in their usual capitalisation.
 */
module Dates {
  import opened Text
  import opened Digits
  import opened Wrappers
  import opened Errors

  datatype Date = Date(year: nat, month: nat, day: nat)

  /** The Gregorian leap-year rule that `datetime` applies. */
  predicate IsLeapYear(y: nat) {
    y % 4 == 0 && (y % 100 != 0 || y % 400 == 0)
  }

  function DaysInMonth(y: nat, m: nat): (n: nat)
    requires 1 <= m <= 12
    ensures 28 <= n <= 31
  {
    if m == 2 then (if IsLeapYear(y) then 29 else 28)
    else if m == 4 || m == 6 || m == 9 || m == 11 then 30
    else 31
  }

  /** A day `datetime.date` can hold: years 1 to 9999, a real month, a day that month has. */
  predicate ValidDate(d: Date) {
    1 <= d.year <= 9999 && 1 <= d.month <= 12 && 1 <= d.day <= DaysInMonth(d.year, d.month)
  }

  /** `%B` in the C locale. */
  const MonthNames: seq<string> :=
    ["January", "February", "March", "April", "May", "June",
     "July", "August", "September", "October", "November", "December"]

  /** `%b` in the C locale. */
  const MonthAbbreviations: seq<string> :=
    ["Jan", "Feb", "Mar", "Apr", "May", "Jun", "Jul", "Aug", "Sep", "Oct", "Nov", "Dec"]

  /** The month (1 to 12) whose name in `names` is `x`. */
  function MonthNumber(names: seq<string>, x: string): (r: Option<nat>)
    ensures r.Some? ==> 1 <= r.value <= |names| && names[r.value - 1] == x
    ensures r.None? ==> x !in names
  {
    if names == [] then None
    else if names[0] == x then Some(1)
    else match MonthNumber(names[1..], x)
      case None => None
      case Some(k) => Some(k + 1)
  }

  /** The date with these fields, if it exists. */
  function MakeDate(year: nat, month: Option<nat>, day: nat): (r: Option<Date>)
    ensures r.Some? ==> ValidDate(r.value)
  {
    if month.Some? && ValidDate(Date(year, month.value, day)) then Some(Date(year, month.value, day)) else None
  }

  /** `strptime(s, "%d-%b-%Y")`, e.g. "25-Jan-2025". */
  function ParseDayMonYear(s: string): (r: Option<Date>)
    ensures r.Some? ==> ValidDate(r.value)
  {
    if |s| == 11 && s[2] == '-' && s[6] == '-' && AllDigits(s[..2]) && AllDigits(s[7..]) then
      MakeDate(DigitsValue(s[7..]), MonthNumber(MonthAbbreviations, s[3..6]), DigitsValue(s[..2]))
    else None
  }

  /** `strptime(s, "%B %d, %Y")`, e.g. "January 25, 2025": a month name, then " DD, YYYY". */
  function ParseMonthDayYear(s: string): (r: Option<Date>)
    ensures r.Some? ==> ValidDate(r.value)
  {
    if |s| >= 9 then
      var name, tail := s[..|s| - 9], s[|s| - 9..];
      if tail[0] == ' ' && AllDigits(tail[1..3]) && tail[3] == ',' && tail[4] == ' ' && AllDigits(tail[5..]) then
        MakeDate(DigitsValue(tail[5..]), MonthNumber(MonthNames, name), DigitsValue(tail[1..3]))
      else None
    else None
  }

  /** `strptime(s, "%Y-%m-%d")`, e.g. "2025-01-25". */
  function ParseIsoDate(s: string): (r: Option<Date>)
    ensures r.Some? ==> ValidDate(r.value)
  {
    if |s| == 10 && s[4] == '-' && s[7] == '-' && AllDigits(s[..4]) && AllDigits(s[5..7]) && AllDigits(s[8..]) then
      MakeDate(DigitsValue(s[..4]), Some(DigitsValue(s[5..7])), DigitsValue(s[8..]))
    else None
  }

  /** `date.isoformat()`: "%04d-%02d-%02d". */
  function FormatIsoDate(d: Date): string {
    PadDigits(d.year, 4) + "-" + PadDigits(d.month, 2) + "-" + PadDigits(d.day, 2)
  }

  /** The canonical text that `strptime(..., "%d-%b-%Y")` reads: two-digit day, four-digit year. */
  function FormatDayMonYear(d: Date): string
    requires ValidDate(d)
  {
    PadDigits(d.day, 2) + "-" + MonthAbbreviations[d.month - 1] + "-" + PadDigits(d.year, 4)
  }

  /** The canonical text that `strptime(..., "%B %d, %Y")` reads: two-digit day, four-digit year. */
  function FormatMonthDayYear(d: Date): string
    requires ValidDate(d)
  {
    MonthNames[d.month - 1] + " " + PadDigits(d.day, 2) + ", " + PadDigits(d.year, 4)
  }

  /** `normalise_date`: "" and None give None; otherwise the first of the three formats that reads the text, as ISO 8601, or `ValueError`. */
  function NormaliseDate(text: Option<string>): (r: Result<Option<string>, Error>)
    ensures text.None? || text.value == "" ==> r == Ok(None)
    ensures r.Err? <==>
      (text.Some? && text.value != "" &&
       ParseDayMonYear(text.value).None? && ParseMonthDayYear(text.value).None? && ParseIsoDate(text.value).None?)
    ensures r.Err? ==> r.error == InvalidDateFormat(text.value)
    ensures r.Ok? && r.value.Some? ==> ParseIsoDate(r.value.value).Some?
  {
    if text.None? || text.value == "" then Ok(None)
    else
      var s := text.value;
      match ParseDayMonYear(s)
      case Some(d) => IsoRoundTrip(d); Ok(Some(FormatIsoDate(d)))
      case None =>
        match ParseMonthDayYear(s)
        case Some(d) => IsoRoundTrip(d); Ok(Some(FormatIsoDate(d)))
        case None =>
          match ParseIsoDate(s)
          case Some(d) => IsoRoundTrip(d); Ok(Some(FormatIsoDate(d)))
          case None => Err(InvalidDateFormat(s))
  }

  lemma IsoRoundTrip(d: Date)
    requires ValidDate(d)
    ensures ParseIsoDate(FormatIsoDate(d)) == Some(d)
  {
    var s := FormatIsoDate(d);
    assert s[..4] == PadDigits(d.year, 4);
    assert s[5..7] == PadDigits(d.month, 2);
    assert s[8..] == PadDigits(d.day, 2);
    PadDigitsValue(d.year, 4);
    PadDigitsValue(d.month, 2);
    PadDigitsValue(d.day, 2);
  }

  predicate Distinct(names: seq<string>) {
    forall i, j :: 0 <= i < j < |names| ==> names[i] != names[j]
  }

  lemma {:induction false} MonthNumberOfDistinct(names: seq<string>, k: nat)
    requires Distinct(names) && k < |names|
    ensures MonthNumber(names, names[k]) == Some(k + 1)
  {
    if k > 0 {
      assert names[k] == names[1..][k - 1];
      MonthNumberOfDistinct(names[1..], k - 1);
    }
  }

  lemma MonthNamesDistinct()
    ensures Distinct(MonthAbbreviations) && Distinct(MonthNames)
  {
    forall i, j | 0 <= i < j < 12 ensures MonthAbbreviations[i] != MonthAbbreviations[j] {
      if i == 0 { } else if i == 1 { } else if i == 2 { } else if i == 3 { }
      else if i == 4 { } else if i == 5 { } else if i == 6 { } else if i == 7 { }
      else if i == 8 { } else if i == 9 { } else { }
    }
    forall i, j | 0 <= i < j < 12 ensures MonthNames[i] != MonthNames[j] {
      assert MonthNames[i][..3] == MonthAbbreviations[i];
      assert MonthNames[j][..3] == MonthAbbreviations[j];
    }
  }

  lemma MonthNumberOfName(m: nat)
    requires 1 <= m <= 12
    ensures MonthNumber(MonthNames, MonthNames[m - 1]) == Some(m)
    ensures MonthNumber(MonthAbbreviations, MonthAbbreviations[m - 1]) == Some(m)
  {
    MonthNamesDistinct();
    MonthNumberOfDistinct(MonthNames, m - 1);
    MonthNumberOfDistinct(MonthAbbreviations, m - 1);
  }

  lemma AbbreviationLength(m: nat)
    requires 1 <= m <= 12
    ensures |MonthAbbreviations[m - 1]| == 3
  {
    if m <= 6 { } else { }
  }

  /** Every date written with `%d-%b-%Y` reads back as the same date. */
  lemma DayMonYearRoundTrip(d: Date)
    requires ValidDate(d)
    ensures ParseDayMonYear(FormatDayMonYear(d)) == Some(d)
  {
    var dd, mon, yyyy := PadDigits(d.day, 2), MonthAbbreviations[d.month - 1], PadDigits(d.year, 4);
    var s := FormatDayMonYear(d);
    AbbreviationLength(d.month);
    assert s == dd + "-" + mon + "-" + yyyy;
    assert |s| == 11 && s[2] == '-' && s[6] == '-';
    assert s[..2] == dd && s[3..6] == mon && s[7..] == yyyy;
    PadDigitsValue(d.day, 2);
    PadDigitsValue(d.year, 4);
    MonthNumberOfName(d.month);
    assert MakeDate(DigitsValue(yyyy), MonthNumber(MonthAbbreviations, mon), DigitsValue(dd)) == Some(d);
  }

  /** Every date written with `%B %d, %Y` reads back as the same date. */
  lemma MonthDayYearRoundTrip(d: Date)
    requires ValidDate(d)
    ensures ParseMonthDayYear(FormatMonthDayYear(d)) == Some(d)
  {
    var name := MonthNames[d.month - 1];
    var dd, yyyy := PadDigits(d.day, 2), PadDigits(d.year, 4);
    assert FormatMonthDayYear(d) == name + (" " + dd + ", " + yyyy);
    ParseMonthDayYearPieces(name, dd, yyyy);
    PadDigitsValue(d.day, 2);
    PadDigitsValue(d.year, 4);
    MonthNumberOfName(d.month);
  }

  /** The parser cuts "<month> DD, YYYY" at the nine characters of its tail. */
  lemma ParseMonthDayYearPieces(name: string, dd: string, yyyy: string)
    requires |dd| == 2 && |yyyy| == 4 && AllDigits(dd) && AllDigits(yyyy)
    ensures ParseMonthDayYear(name + (" " + dd + ", " + yyyy))
         == MakeDate(DigitsValue(yyyy), MonthNumber(MonthNames, name), DigitsValue(dd))
  {
    var tail := " " + dd + ", " + yyyy;
    var s := name + tail;
    assert |tail| == 9;
    assert s[..|s| - 9] == name && s[|s| - 9..] == tail;
    assert tail[1..3] == dd && tail[5..] == yyyy;
    assert tail[0] == ' ' && tail[3] == ',' && tail[4] == ' ';
  }

  /** No text is read by two of the three formats, so the order they are tried in never decides the date. */
  lemma FormatsExclusive(s: string)
    ensures ParseDayMonYear(s).Some? ==> ParseMonthDayYear(s).None? && ParseIsoDate(s).None?
    ensures ParseMonthDayYear(s).Some? ==> ParseIsoDate(s).None?
  {
    if ParseMonthDayYear(s).Some? {
      var name := s[..|s| - 9];
      assert name in MonthNames;
      assert |name| >= 3;
    }
  }

  /** A date in any of the three formats normalises to its ISO 8601 text. */
  lemma NormaliseFormattedDate(d: Date)
    requires ValidDate(d)
    ensures NormaliseDate(Some(FormatDayMonYear(d))) == Ok(Some(FormatIsoDate(d)))
    ensures NormaliseDate(Some(FormatMonthDayYear(d))) == Ok(Some(FormatIsoDate(d)))
    ensures NormaliseDate(Some(FormatIsoDate(d))) == Ok(Some(FormatIsoDate(d)))
  {
    DayMonYearRoundTrip(d);
    MonthDayYearRoundTrip(d);
    IsoRoundTrip(d);
    FormatsExclusive(FormatMonthDayYear(d));
    FormatsExclusive(FormatIsoDate(d));
    assert FormatDayMonYear(d) != "";
    assert FormatMonthDayYear(d) != "";
    assert FormatIsoDate(d) != "";
  }

  /** A normalised date normalises to itself, so normalising stored dates a second time changes nothing. */
  lemma NormaliseDateIdempotent(text: Option<string>)
    requires NormaliseDate(text).Ok? && NormaliseDate(text).value.Some?
    ensures NormaliseDate(NormaliseDate(text).value) == NormaliseDate(text)
  {
    var s := text.value;
    var d := if ParseDayMonYear(s).Some? then ParseDayMonYear(s).value
             else if ParseMonthDayYear(s).Some? then ParseMonthDayYear(s).value
             else ParseIsoDate(s).value;
    assert NormaliseDate(text) == Ok(Some(FormatIsoDate(d)));
    NormaliseFormattedDate(d);
  }

  lemma ExampleDates()
    ensures NormaliseDate(Some("25-Jan-2025")) == Ok(Some("2025-01-25"))
    ensures NormaliseDate(Some("January 25, 2025")) == Ok(Some("2025-01-25"))
  {
    var d := Date(2025, 1, 25);
    ExampleFormats();
    NormaliseFormattedDate(d);
  }

  lemma ExampleFormats()
    ensures ValidDate(Date(2025, 1, 25))
    ensures FormatDayMonYear(Date(2025, 1, 25)) == "25-Jan-2025"
    ensures FormatMonthDayYear(Date(2025, 1, 25)) == "January 25, 2025"
    ensures FormatIsoDate(Date(2025, 1, 25)) == "2025-01-25"
  {
    ExamplePadding();
  }

  lemma ExamplePadding()
    ensures PadDigits(25, 2) == "25" && PadDigits(1, 2) == "01" && PadDigits(2025, 4) == "2025"
  {
    assert DigitChar(0) == '0' && DigitChar(1) == '1' && DigitChar(2) == '2' && DigitChar(5) == '5';
    assert PadDigits(2, 1) == "2";
    assert PadDigits(0, 1) == "0";
    assert PadDigits(20, 2) == "20";
    assert PadDigits(202, 3) == "202";
  }
}
