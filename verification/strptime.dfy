/** `datetime.strptime(text, "%d%m%Y")` as CPython's `_strptime` carries it out. The three
    directives become one regular expression. It is matched at the start of the text and the first
    reading in backtracking order is taken. The call fails if characters remain after that reading,
    and `datetime` then rejects a day that the calendar does not have. */
module Strptime {
  import opened Wrappers
  import opened Text
  import opened Calendar

  datatype ParseError =
    | FormatMismatch    // "time data ... does not match format"
    | UnconvertedData   // "unconverted data remains"
    | DateOutOfRange    // `datetime` rejects the fields

  /** One way the directives read the front of a text: the field values and the widths of the day
      and month fields (`%Y` always takes four characters). */
  datatype Reading = Reading(day: nat, month: nat, year: nat, dayWidth: nat, monthWidth: nat) {
    function Width(): nat { dayWidth + monthWidth + 4 }
    function AsDate(): Date { Date(day, month, year) }
  }

  predicate NonZero(c: char) { '1' <= c <= '9' }

  function Two(a: char, b: char): nat
    requires IsDigit(a) && IsDigit(b)
  {
    10 * DigitVal(a) + DigitVal(b)
  }

  // The alternatives of each directive, in the order the regular expression lists them.

  /** `%d`'s first three alternatives: `3[01]`, `[12]\d`, `0[1-9]`. */
  predicate TwoDigitDay(s: string) {
    && |s| >= 2
    && ((s[0] == '3' && (s[1] == '0' || s[1] == '1'))
        || ((s[0] == '1' || s[0] == '2') && IsDigit(s[1]))
        || (s[0] == '0' && NonZero(s[1])))
  }

  /** `%d`'s last alternative, ` [1-9]`. */
  predicate SpacedDay(s: string) {
    |s| >= 2 && s[0] == ' ' && NonZero(s[1])
  }

  /** `%m`'s first two alternatives: `1[0-2]`, `0[1-9]`. */
  predicate TwoDigitMonth(s: string) {
    && |s| >= 2
    && ((s[0] == '1' && '0' <= s[1] <= '2') || (s[0] == '0' && NonZero(s[1])))
  }

  /** `%Y`: `\d\d\d\d`. */
  predicate FourDigits(s: string) {
    |s| >= 4 && IsDigit(s[0]) && IsDigit(s[1]) && IsDigit(s[2]) && IsDigit(s[3])
  }

  function YearValue(s: string): nat
    requires FourDigits(s)
  {
    100 * Two(s[0], s[1]) + Two(s[2], s[3])
  }

  /** The regular expression reads `s` as `r`: the fields sit where the widths say and hold the
      values the widths give them. */
  ghost predicate Reads(s: string, r: Reading) {
    && ((r.dayWidth == 2 && TwoDigitDay(s) && r.day == Two(s[0], s[1]))
        || (r.dayWidth == 1 && |s| >= 1 && NonZero(s[0]) && r.day == DigitVal(s[0]))
        || (r.dayWidth == 2 && SpacedDay(s) && r.day == DigitVal(s[1])))
    && MonthReads(s[r.dayWidth..], r)
  }

  ghost predicate MonthReads(s: string, r: Reading) {
    && ((r.monthWidth == 2 && TwoDigitMonth(s) && r.month == Two(s[0], s[1]))
        || (r.monthWidth == 1 && |s| >= 1 && NonZero(s[0]) && r.month == DigitVal(s[0])))
    && FourDigits(s[r.monthWidth..]) && r.year == YearValue(s[r.monthWidth..])
  }

  /** Position of a reading's day alternative in the `%d` alternation. */
  ghost function DayRank(s: string, r: Reading): nat {
    if r.dayWidth == 1 then 1 else if |s| > 0 && s[0] == ' ' then 2 else 0
  }

  /** The backtracking matcher tries reading `a` no later than reading `b`: first by `%d`
      alternative, then by `%m` alternative (two digits before one). */
  ghost predicate TriedNoLater(s: string, a: Reading, b: Reading) {
    || DayRank(s, a) < DayRank(s, b)
    || (DayRank(s, a) == DayRank(s, b) && a.monthWidth >= b.monthWidth)
  }

  /** `%m%Y` at the start of `s`; the day fields are left zero. */
  function MonthYear(s: string): (r: Option<Reading>)
    ensures r.Some? ==> r.value.day == 0 && r.value.dayWidth == 0 && MonthReads(s, r.value)
  {
    var two := TwoDigitMonth(s) && FourDigits(s[2..]);
    if two then Some(Reading(0, Two(s[0], s[1]), YearValue(s[2..]), 0, 2))
    else if |s| >= 1 && NonZero(s[0]) && FourDigits(s[1..]) then
      Some(Reading(0, DigitVal(s[0]), YearValue(s[1..]), 0, 1))
    else None
  }

  /** `%d%m%Y` at the start of `s`: the first reading in backtracking order. */
  function FirstReading(s: string): (r: Option<Reading>)
    ensures r.Some? ==> Reads(s, r.value)
  {
    var two := if TwoDigitDay(s) then MonthYear(s[2..]) else None;
    if two.Some? then Some(two.value.(day := Two(s[0], s[1]), dayWidth := 2))
    else
      var one := if |s| >= 1 && NonZero(s[0]) then MonthYear(s[1..]) else None;
      if one.Some? then Some(one.value.(day := DigitVal(s[0]), dayWidth := 1))
      else
        var spaced := if SpacedDay(s) then MonthYear(s[2..]) else None;
        if spaced.Some? then Some(spaced.value.(day := DigitVal(s[1]), dayWidth := 2))
        else None
  }

  lemma MonthYearIsFirst(s: string, b: Reading)
    requires MonthReads(s, b)
    ensures MonthYear(s).Some? && MonthYear(s).value.monthWidth >= b.monthWidth
  {
  }

  /** Python's choice: the reading taken is tried no later than any other reading of the text,
      and there is none exactly when the text cannot be read. */
  lemma FirstReadingIsFirst(s: string, b: Reading)
    requires Reads(s, b)
    ensures FirstReading(s).Some? && TriedNoLater(s, FirstReading(s).value, b)
  {
    MonthYearIsFirst(s[b.dayWidth..], b);
  }

  /** `rd` is the reading the matcher settles on: a reading of `s` tried no later than any
      other. */
  ghost predicate IsFirstReading(s: string, rd: Reading) {
    Reads(s, rd) && forall b :: Reads(s, b) ==> TriedNoLater(s, rd, b)
  }

  /** Two readings with the same alternatives read the same fields, so the first is unique. */
  lemma FirstReadingUnique(s: string, a: Reading, b: Reading)
    requires IsFirstReading(s, a) && IsFirstReading(s, b)
    ensures a == b
  {
    assert TriedNoLater(s, a, b) && TriedNoLater(s, b, a);
  }

  lemma FirstReadingIsTheFirst(s: string)
    requires FirstReading(s).Some?
    ensures IsFirstReading(s, FirstReading(s).value)
  {
    forall b | Reads(s, b)
      ensures TriedNoLater(s, FirstReading(s).value, b)
    {
      FirstReadingIsFirst(s, b);
    }
  }

  /** The whole call: the first reading in backtracking order must cover the text, and then name a
      day the calendar has. */
  function Parse(s: string): (r: Result<Date, ParseError>)
    ensures r.Success? ==> ValidDate(r.value)
    ensures r.Success? ==> exists rd :: IsFirstReading(s, rd) && rd.Width() == |s| && rd.AsDate() == r.value
    ensures r == Failure(FormatMismatch) <==> forall rd :: !Reads(s, rd)
    ensures r == Failure(UnconvertedData) <==> exists rd :: IsFirstReading(s, rd) && rd.Width() != |s|
    ensures r == Failure(DateOutOfRange) <==>
              exists rd :: IsFirstReading(s, rd) && rd.Width() == |s| && !ValidDate(rd.AsDate())
  {
    match FirstReading(s)
    case None => Failure(FormatMismatch)
    case Some(rd) =>
      FirstReadingIsTheFirst(s);
      assert forall b :: IsFirstReading(s, b) ==> b == rd by {
        forall b | IsFirstReading(s, b) {
          FirstReadingUnique(s, rd, b);
        }
      }
      if rd.Width() != |s| then Failure(UnconvertedData)
      else if !ValidDate(rd.AsDate()) then Failure(DateOutOfRange)
      else Success(rd.AsDate())
  }

  /** On eight digits, the shape every well-formed filename date has once its separators are
      gone, the call succeeds exactly when `ddmmyyyy` names a real day, and then returns that
      day. */
  lemma ParseEightDigits(s: string)
    requires |s| == 8 && AllDigits(s)
    ensures ValidDate(Date(Two(s[0], s[1]), Two(s[2], s[3]), YearValue(s[4..])))
            <==> Parse(s).Success?
    ensures Parse(s).Success? ==>
              Parse(s).value == Date(Two(s[0], s[1]), Two(s[2], s[3]), YearValue(s[4..]))
    ensures Parse(s).Success? ==>
              FirstReading(s).Some? && FirstReading(s).value.dayWidth == 2
              && FirstReading(s).value.monthWidth == 2
  {
    assert IsDigit(s[0]) && IsDigit(s[1]) && IsDigit(s[2]) && IsDigit(s[3]);
    assert FourDigits(s[4..]) by {
      assert s[4..][0] == s[4] && s[4..][1] == s[5] && s[4..][2] == s[6] && s[4..][3] == s[7];
    }
    var d := Date(Two(s[0], s[1]), Two(s[2], s[3]), YearValue(s[4..]));
    var full := Reading(d.day, d.month, d.year, 2, 2);
    if ValidDate(d) {
      assert TwoDigitDay(s);
      assert s[2..][2..] == s[4..];
      assert TwoDigitMonth(s[2..]);
      assert Reads(s, full);
      FirstReadingIsFirst(s, full);
      assert FirstReading(s) == Some(full);
    }
    if Parse(s).Success? {
      var rd := FirstReading(s).value;
      assert rd.Width() == 8;
      assert rd.dayWidth == 2 && rd.monthWidth == 2;
      assert s[2..][2..] == s[4..];
    }
  }

  /** A text of eight characters whose fields each take their two-digit alternative is read as
      `ddmmyyyy` in one piece. */
  lemma ReadsWhole(s: string)
    requires |s| == 8 && TwoDigitDay(s) && TwoDigitMonth(s[2..]) && FourDigits(s[4..])
    ensures FirstReading(s) == Some(Reading(Two(s[0], s[1]), Two(s[2], s[3]), YearValue(s[4..]), 2, 2))
  {
    assert s[2..][2..] == s[4..];
  }

  /** What `Parse` gives once the first reading is known. */
  lemma ParseOfFirst(s: string, rd: Reading)
    requires FirstReading(s) == Some(rd)
    ensures rd.Width() != |s| ==> Parse(s) == Failure(UnconvertedData)
    ensures rd.Width() == |s| && !ValidDate(rd.AsDate()) ==> Parse(s) == Failure(DateOutOfRange)
    ensures rd.Width() == |s| && ValidDate(rd.AsDate()) ==> Parse(s) == Success(rd.AsDate())
  {
  }

  // Concrete calls: a date of the sample names, a leap day, days and months the calendar lacks.

  lemma ParseSampleDay()
    ensures Parse("16032022") == Success(Date(16, 3, 2022))
  {
    var s := "16032022";
    assert s[4..] == "2022";
    ReadsWhole(s);
    ParseOfFirst(s, Reading(16, 3, 2022, 2, 2));
  }

  lemma ParseLeapDay()
    ensures Parse("29022024") == Success(Date(29, 2, 2024))
  {
    var s := "29022024";
    assert s[4..] == "2024";
    ReadsWhole(s);
    assert IsLeapYear(2024);
    ParseOfFirst(s, Reading(29, 2, 2024, 2, 2));
  }

  lemma ParseLeapDayInCommonYear()
    ensures Parse("29022023") == Failure(DateOutOfRange)
  {
    var s := "29022023";
    assert s[4..] == "2023";
    ReadsWhole(s);
    assert !IsLeapYear(2023);
    ParseOfFirst(s, Reading(29, 2, 2023, 2, 2));
  }

  lemma ParseThirtiethOfFebruary()
    ensures Parse("30022022") == Failure(DateOutOfRange)
  {
    var s := "30022022";
    assert s[4..] == "2022";
    ReadsWhole(s);
    ParseOfFirst(s, Reading(30, 2, 2022, 2, 2));
  }

  /** Month `13` is no `%m`: `1` is read as the month and one digit is left over. */
  lemma ParseMonthThirteen()
    ensures Parse("13132022") == Failure(UnconvertedData)
  {
  }

  /** No `%d` alternative reads `00`. */
  lemma ParseDayZero()
    ensures Parse("00032022") == Failure(FormatMismatch)
  {
  }

  /** Two whole readings of `1112022` exist, 11 January and 1 November; the first in
      backtracking order, 11 January, is taken. */
  lemma ParseTakesFirstOfTwoReadings()
    ensures Reads("1112022", Reading(1, 11, 2022, 1, 2))
    ensures Parse("1112022") == Success(Date(11, 1, 2022))
  {
    var s := "1112022";
    assert s[1..][2..] == "2022";
    assert s[2..][1..] == "2022";
    assert MonthYear(s[2..]) == Some(Reading(0, 1, 2022, 0, 1));
    ParseOfFirst(s, Reading(11, 1, 2022, 2, 1));
  }

  /** Six digits written `ddmmyy` are read as day 1, month 6, year 322: `%d` backs off to one
      digit when the two-digit reading leaves too few digits for `%Y`. */
  lemma ParseShortYear()
    ensures Parse("160322") == Success(Date(1, 6, 322))
  {
    var s := "160322";
    assert MonthYear(s[2..]) == None;
    assert s[1..][1..] == "0322";
    assert MonthYear(s[1..]) == Some(Reading(0, 6, 322, 0, 1));
    ParseOfFirst(s, Reading(1, 6, 322, 1, 1));
  }

  /** Seven digits written `dmmyyyy` with month `13` are read as 11 March. */
  lemma ParseDayOneMonthThirteen()
    ensures Parse("1132022") == Success(Date(11, 3, 2022))
  {
    var s := "1132022";
    assert s[2..][1..] == "2022";
    assert MonthYear(s[2..]) == Some(Reading(0, 3, 2022, 0, 1));
    ParseOfFirst(s, Reading(11, 3, 2022, 2, 1));
  }

  /** Seven digits written `ddmyyyy` are read as written: `%m` backs off to one digit. */
  lemma ParseSevenDigits()
    ensures Parse("1632022") == Success(Date(16, 3, 2022))
    ensures FirstReading("1632022") == Some(Reading(16, 3, 2022, 2, 1))
  {
    var s := "1632022";
    assert s[2..][1..] == "2022";
    assert MonthYear(s[2..]) == Some(Reading(0, 3, 2022, 0, 1));
    ParseOfFirst(s, Reading(16, 3, 2022, 2, 1));
  }

  /** Seven digits written `dmmyyyy` for 1 December are read as 11 February. */
  lemma ParseDayOneMonthTwelve()
    ensures Parse("1122022") == Success(Date(11, 2, 2022))
    ensures FirstReading("1122022").Some? && FirstReading("1122022").value.dayWidth == 2
  {
    var s := "1122022";
    assert s[2..][1..] == "2022";
    assert MonthYear(s[2..]) == Some(Reading(0, 2, 2022, 0, 1));
    ParseOfFirst(s, Reading(11, 2, 2022, 2, 1));
  }

  /** Six digits `151221` are read as 1 May 1221: neither month alternative leaves four digits
      after a two-digit day, so `%d` backs off to one digit. */
  lemma ParseSixDigitsLateMonth()
    ensures Parse("151221") == Success(Date(1, 5, 1221))
    ensures FirstReading("151221") == Some(Reading(1, 5, 1221, 1, 1))
  {
    var s := "151221";
    assert MonthYear(s[2..]) == None;
    assert s[1..][1..] == "1221";
    assert MonthYear(s[1..]) == Some(Reading(0, 5, 1221, 0, 1));
    ParseOfFirst(s, Reading(1, 5, 1221, 1, 1));
  }
}
