/** The dates of concrete report names, as written and as corrected. */
module FileDateExamples {
  import opened Wrappers
  import opened Text
  import opened Calendar
  import opened DateToken
  import opened FileDate
  import Strptime

  /** Both readings of a name are those of its last token. */
  lemma DatesOfLastToken(name: string, t: Token)
    requires LastToken(name) == Some(t)
    ensures GetDate(name) == DateOfToken(t)
    ensures GetDateChecked(name) == CheckedOfToken(t)
  {
  }

  lemma NoDigitsAppend(a: string, b: string)
    requires forall i :: 0 <= i < |a| ==> !IsDigit(a[i])
    requires forall i :: 0 <= i < |b| ==> !IsDigit(b[i])
    ensures forall i :: 0 <= i < |a + b| ==> !IsDigit((a + b)[i])
  {
  }

  /** The name part in front of the sample's date holds no digit. */
  lemma SamplePrefixHasNoDigits(site: string)
    requires forall i :: 0 <= i < |site| ==> !IsDigit(site[i])
    ensures forall i :: 0 <= i < |site + "Service Level Report"| ==> !IsDigit((site + "Service Level Report")[i])
  {
    var p := "Service Level Report";
    assert forall i :: 0 <= i < |p| ==> !IsDigit(p[i]);
    NoDigitsAppend(site, p);
  }

  /** The name the local runner is fixed to is dated 16 March 2022, both as written and as
      corrected. */
  lemma HeathwoodSampleDate()
    ensures GetDate("Heathwood " + "Service Level Report" + " - " + "16032022" + ".xlsx")
            == Success(Date(16, 3, 2022))
    ensures GetDateChecked("Heathwood " + "Service Level Report" + " - " + "16032022" + ".xlsx")
            == Success(Date(16, 3, 2022))
  {
    var site, tail, ext := "Heathwood ", " - ", ".xlsx";
    assert forall i :: 0 <= i < |site| ==> !IsDigit(site[i]);
    assert forall i :: 0 <= i < |tail| ==> !IsDigit(tail[i]);
    assert forall i :: 0 <= i < |ext| ==> !IsDigit(ext[i]);
    SeparatorFreePrefix(site, tail);
    PlainFullToken(ext);
    OnlyToken(site + "Service Level Report" + tail, "16032022", Split(2, 0, 2, 0, 4), ext);
    GetDateOfFullToken(site + "Service Level Report" + tail + "16032022" + ext);
    PlainWritten();
  }

  lemma PlainFullToken(ext: string)
    requires forall i :: 0 <= i < |ext| ==> !IsDigit(ext[i])
    ensures MatchToken("16032022" + ext) == Some(Split(2, 0, 2, 0, 4))
  {
    var s := "16032022" + ext;
    var y, m := s[4..], s[2..];
    assert y == "2022" + ext && m[2..] == y && s[2..] == m;
    DigitRunOf("2022", ext);
    YearStep(y, 4);
    MonthTwoStep(m, Split(0, 0, 0, 0, 4));
    MonthStep(m, Split(0, 0, 2, 0, 4));
    DayTwoStep(s, Split(0, 0, 2, 0, 4));
  }

  /** The sample token spelt as its three groups, for `GroupsOfToken`. */
  lemma PlainParts()
    ensures "16" + "" + "03" + "" + "2022" == "16032022"
  {
  }

  lemma PlainWritten()
    ensures Shaped("16032022", Split(2, 0, 2, 0, 4))
    ensures WrittenDate(Token("16032022", Split(2, 0, 2, 0, 4))) == Date(16, 3, 2022)
    ensures ValidDate(Date(16, 3, 2022))
  {
    PlainParts();
    GroupsOfToken("16", "", "03", "", "2022");
    ValOfTwo("16");
    ValOfTwo("03");
    ValOfFour("2022");
  }

  /** A name whose only digits form one token between digit-free text. */
  lemma OnlyToken(pre: string, text: string, sp: Split, ext: string)
    requires forall i :: 0 <= i < |pre| ==> !IsDigit(pre[i])
    requires forall i :: 0 <= i < |ext| ==> !IsDigit(ext[i])
    requires |text| > 0 && sp.Length() == |text|
    requires MatchToken(text + ext) == Some(sp)
    ensures LastToken(pre + text + ext) == Some(Token(text, sp))
  {
    var s := text + ext;
    assert pre + text + ext == pre + s;
    FindAllSkipsNonDigits(pre, s);
    assert s[..|text|] == text && s[|text|..] == ext;
    FindAllWithoutDigits(ext);
  }

  lemma SeparatorFreePrefix(site: string, tail: string)
    requires forall i :: 0 <= i < |site| ==> !IsDigit(site[i])
    requires forall i :: 0 <= i < |tail| ==> !IsDigit(tail[i])
    ensures forall i :: 0 <= i < |site + "Service Level Report" + tail| ==>
              !IsDigit((site + "Service Level Report" + tail)[i])
  {
    SamplePrefixHasNoDigits(site);
    NoDigitsAppend(site + "Service Level Report", tail);
  }

  lemma DottedFullToken(ext: string)
    requires forall i :: 0 <= i < |ext| ==> !IsDigit(ext[i])
    ensures MatchToken("29.03.2022" + ext) == Some(Split(2, 1, 2, 1, 4))
  {
    DottedParts();
    DottedToken("29", "03", "2022", ext);
  }

  /** `.mm.yyyy` followed by text that starts without a digit. */
  lemma DottedRest(m: string, y: string, ext: string)
    requires |m| == 2 && AllDigits(m) && |y| >= 2 && AllDigits(y)
    requires forall i :: 0 <= i < |ext| ==> !IsDigit(ext[i])
    ensures SepMonthSepYear("." + m + "." + y + ext) == Some(Split(0, 1, 2, 1, |y|))
  {
    var f := "." + m + "." + y + ext;
    var mm, e, yy := f[1..], f[3..], f[4..];
    assert yy == y + ext && e[1..] == yy && mm[2..] == e && f[1..] == mm;
    assert mm[0] == m[0] && mm[1] == m[1] && e[0] == '.';
    DigitRunOf(y, ext);
    SepYearStep(e, |y|);
    MonthTwoStep(mm, Split(0, 0, 0, 1, |y|));
    SepMonthStep(f, Split(0, 0, 2, 1, |y|));
  }

  /** `dd.mm.yyyy` followed by text that starts without a digit. */
  lemma DottedToken(d: string, m: string, y: string, ext: string)
    requires |d| == 2 && AllDigits(d) && |m| == 2 && AllDigits(m) && |y| >= 2 && AllDigits(y)
    requires forall i :: 0 <= i < |ext| ==> !IsDigit(ext[i])
    ensures MatchToken(d + "." + m + "." + y + ext) == Some(Split(2, 1, 2, 1, |y|))
  {
    var s := d + "." + m + "." + y + ext;
    assert s[2..] == "." + m + "." + y + ext;
    assert s[0] == d[0] && s[1] == d[1];
    DottedRest(m, y, ext);
    DayTwoStep(s, Split(0, 1, 2, 1, |y|));
  }

  /** The dotted sample token spelt as its groups and separators. */
  lemma DottedParts()
    ensures "29" + "." + "03" + "." + "2022" == "29.03.2022"
  {
  }

  lemma DottedWritten()
    ensures Shaped("29.03.2022", Split(2, 1, 2, 1, 4))
    ensures WrittenDate(Token("29.03.2022", Split(2, 1, 2, 1, 4))) == Date(29, 3, 2022)
    ensures ValidDate(Date(29, 3, 2022))
  {
    DottedParts();
    assert IsSep("."[0]);
    GroupsOfToken("29", ".", "03", ".", "2022");
    ValOfTwo("29");
    ValOfTwo("03");
    ValOfFour("2022");
  }

  /** The commented-out sample name is dated 29 March 2022. */
  lemma TruganinaSampleDate()
    ensures GetDate("Truganina " + "Service Level Report" + " -" + "29.03.2022" + ".xlsx")
            == Success(Date(29, 3, 2022))
    ensures GetDateChecked("Truganina " + "Service Level Report" + " -" + "29.03.2022" + ".xlsx")
            == Success(Date(29, 3, 2022))
  {
    var site, tail, ext := "Truganina ", " -", ".xlsx";
    assert forall i :: 0 <= i < |site| ==> !IsDigit(site[i]);
    assert forall i :: 0 <= i < |tail| ==> !IsDigit(tail[i]);
    assert forall i :: 0 <= i < |ext| ==> !IsDigit(ext[i]);
    SeparatorFreePrefix(site, tail);
    var text := "29.03.2022";
    DottedFullToken(ext);
    OnlyToken(site + "Service Level Report" + tail, text, Split(2, 1, 2, 1, 4), ext);
    GetDateOfFullToken(site + "Service Level Report" + tail + text + ext);
    DottedWritten();
  }

  // The two names behind the findings: a two-digit year and a month of 13.

  lemma ShortYearToken(ext: string)
    requires forall i :: 0 <= i < |ext| ==> !IsDigit(ext[i])
    ensures MatchToken("16.03.22" + ext) == Some(Split(2, 1, 2, 1, 2))
  {
    ShortYearParts();
    DottedToken("16", "03", "22", ext);
  }

  /** The short-year token spelt as its groups, with and without the dots. */
  lemma ShortYearParts()
    ensures "16" + "." + "03" + "." + "22" == "16.03.22"
    ensures "16" + "03" + "22" == "160322"
  {
  }

  /** Removing the dots of `d.m.y` leaves the three digit groups. */
  lemma DottedStrip(d: string, m: string, y: string)
    requires AllDigits(d) && AllDigits(m) && AllDigits(y)
    ensures StripSeps(d + "." + m + "." + y) == d + m + y
  {
    DigitsHaveNoSeps(d);
    DigitsHaveNoSeps(m);
    DigitsHaveNoSeps(y);
    assert StripSeps(".") == [];
    StripSepsOfGroups(d, ".", m, ".", y);
  }

  /** `16.03.22` is read as 1 June 322 by the source and refused by the corrected reading. */
  lemma ShortYearMisread()
    ensures GetDate("Heathwood " + "Service Level Report" + " - " + "16.03.22" + ".xlsx")
            == Success(Date(1, 6, 322))
    ensures GetDateChecked("Heathwood " + "Service Level Report" + " - " + "16.03.22" + ".xlsx")
            == Failure(NotAsWritten)
  {
    ShortYearName();
    ShortYearRead();
    DatesOfLastToken("Heathwood " + "Service Level Report" + " - " + "16.03.22" + ".xlsx",
                     Token("16.03.22", Split(2, 1, 2, 1, 2)));
  }

  lemma ShortYearName()
    ensures LastToken("Heathwood " + "Service Level Report" + " - " + "16.03.22" + ".xlsx")
            == Some(Token("16.03.22", Split(2, 1, 2, 1, 2)))
  {
    var site, tail, ext := "Heathwood ", " - ", ".xlsx";
    assert forall i :: 0 <= i < |site| ==> !IsDigit(site[i]);
    assert forall i :: 0 <= i < |tail| ==> !IsDigit(tail[i]);
    assert forall i :: 0 <= i < |ext| ==> !IsDigit(ext[i]);
    SeparatorFreePrefix(site, tail);
    ShortYearToken(ext);
    OnlyToken(site + "Service Level Report" + tail, "16.03.22", Split(2, 1, 2, 1, 2), ext);
  }

  lemma ShortYearRead()
    ensures DateOfToken(Token("16.03.22", Split(2, 1, 2, 1, 2))) == Success(Date(1, 6, 322))
    ensures CheckedOfToken(Token("16.03.22", Split(2, 1, 2, 1, 2))) == Failure(NotAsWritten)
  {
    ShortYearParts();
    DottedStrip("16", "03", "22");
    Strptime.ParseShortYear();
  }

  /** `d.mm.yyyy` followed by text that starts without a digit. */
  lemma DayOneDottedToken(d: string, m: string, y: string, ext: string)
    requires |d| == 1 && AllDigits(d) && |m| == 2 && AllDigits(m) && |y| >= 2 && AllDigits(y)
    requires forall i :: 0 <= i < |ext| ==> !IsDigit(ext[i])
    ensures MatchToken(d + "." + m + "." + y + ext) == Some(Split(1, 1, 2, 1, |y|))
  {
    var s := d + "." + m + "." + y + ext;
    assert s[1..] == "." + m + "." + y + ext;
    assert s[0] == d[0];
    DottedRest(m, y, ext);
    DayOneStep(s, Split(0, 1, 2, 1, |y|));
  }

  lemma MonthThirteenToken(ext: string)
    requires forall i :: 0 <= i < |ext| ==> !IsDigit(ext[i])
    ensures MatchToken("1.13.2022" + ext) == Some(Split(1, 1, 2, 1, 4))
  {
    MonthThirteenParts();
    DayOneDottedToken("1", "13", "2022", ext);
  }

  /** The month-13 token spelt as its groups, with and without the dots. */
  lemma MonthThirteenParts()
    ensures "1" + "." + "13" + "." + "2022" == "1.13.2022"
    ensures "1" + "13" + "2022" == "1132022"
  {
  }

  /** `1.13.2022`, which names no day, is read as 11 March 2022 by the source and refused by the
      corrected reading. */
  lemma MonthThirteenMisread()
    ensures GetDate("Heathwood " + "Service Level Report" + " - " + "1.13.2022" + ".xlsx")
            == Success(Date(11, 3, 2022))
    ensures GetDateChecked("Heathwood " + "Service Level Report" + " - " + "1.13.2022" + ".xlsx")
            == Failure(NotAsWritten)
  {
    MonthThirteenName();
    MonthThirteenRead();
    DatesOfLastToken("Heathwood " + "Service Level Report" + " - " + "1.13.2022" + ".xlsx",
                     Token("1.13.2022", Split(1, 1, 2, 1, 4)));
  }

  lemma MonthThirteenName()
    ensures LastToken("Heathwood " + "Service Level Report" + " - " + "1.13.2022" + ".xlsx")
            == Some(Token("1.13.2022", Split(1, 1, 2, 1, 4)))
  {
    var site, tail, ext := "Heathwood ", " - ", ".xlsx";
    assert forall i :: 0 <= i < |site| ==> !IsDigit(site[i]);
    assert forall i :: 0 <= i < |tail| ==> !IsDigit(tail[i]);
    assert forall i :: 0 <= i < |ext| ==> !IsDigit(ext[i]);
    SeparatorFreePrefix(site, tail);
    MonthThirteenToken(ext);
    OnlyToken(site + "Service Level Report" + tail, "1.13.2022", Split(1, 1, 2, 1, 4), ext);
  }

  lemma MonthThirteenRead()
    ensures DateOfToken(Token("1.13.2022", Split(1, 1, 2, 1, 4))) == Success(Date(11, 3, 2022))
    ensures CheckedOfToken(Token("1.13.2022", Split(1, 1, 2, 1, 4))) == Failure(NotAsWritten)
  {
    MonthThirteenParts();
    DottedStrip("1", "13", "2022");
    Strptime.ParseDayOneMonthThirteen();
  }

  /** `1.12.2022`, a real day, is read as 11 February 2022 by the source and refused by the
      corrected reading. */
  lemma DayOneMonthTwelveMisread()
    ensures ValidDate(Date(1, 12, 2022))
    ensures GetDate("Heathwood " + "Service Level Report" + " - " + "1.12.2022" + ".xlsx")
            == Success(Date(11, 2, 2022))
    ensures GetDateChecked("Heathwood " + "Service Level Report" + " - " + "1.12.2022" + ".xlsx")
            == Failure(NotAsWritten)
  {
    MonthTwelveName();
    MonthTwelveRead();
    DatesOfLastToken("Heathwood " + "Service Level Report" + " - " + "1.12.2022" + ".xlsx",
                     Token("1.12.2022", Split(1, 1, 2, 1, 4)));
  }

  lemma MonthTwelveName()
    ensures LastToken("Heathwood " + "Service Level Report" + " - " + "1.12.2022" + ".xlsx")
            == Some(Token("1.12.2022", Split(1, 1, 2, 1, 4)))
  {
    var site, tail, ext := "Heathwood ", " - ", ".xlsx";
    assert forall i :: 0 <= i < |site| ==> !IsDigit(site[i]);
    assert forall i :: 0 <= i < |tail| ==> !IsDigit(tail[i]);
    assert forall i :: 0 <= i < |ext| ==> !IsDigit(ext[i]);
    SeparatorFreePrefix(site, tail);
    MonthTwelveToken(ext);
    OnlyToken(site + "Service Level Report" + tail, "1.12.2022", Split(1, 1, 2, 1, 4), ext);
  }

  lemma MonthTwelveRead()
    ensures DateOfToken(Token("1.12.2022", Split(1, 1, 2, 1, 4))) == Success(Date(11, 2, 2022))
    ensures CheckedOfToken(Token("1.12.2022", Split(1, 1, 2, 1, 4))) == Failure(NotAsWritten)
  {
    MonthTwelveToken("");
    Strptime.ParseDayOneMonthTwelve();
  }

  lemma MonthTwelveToken(ext: string)
    requires forall i :: 0 <= i < |ext| ==> !IsDigit(ext[i])
    ensures MatchToken("1.12.2022" + ext) == Some(Split(1, 1, 2, 1, 4))
    ensures StripSeps("1.12.2022") == "1122022"
  {
    assert "1" + "." + "12" + "." + "2022" == "1.12.2022";
    assert "1" + "12" + "2022" == "1122022";
    DayOneDottedToken("1", "12", "2022", ext);
    DottedStrip("1", "12", "2022");
  }

  /** `1632022`, written without separators and with a one-digit month, is read as 16 March 2022
      both as written and as corrected. */
  lemma SeparatorFreeSevenDigits()
    ensures GetDate("Heathwood " + "Service Level Report" + " - " + "1632022" + ".xlsx")
            == Success(Date(16, 3, 2022))
    ensures GetDateChecked("Heathwood " + "Service Level Report" + " - " + "1632022" + ".xlsx")
            == Success(Date(16, 3, 2022))
  {
    var site, tail, ext := "Heathwood ", " - ", ".xlsx";
    assert forall i :: 0 <= i < |site| ==> !IsDigit(site[i]);
    assert forall i :: 0 <= i < |tail| ==> !IsDigit(tail[i]);
    assert forall i :: 0 <= i < |ext| ==> !IsDigit(ext[i]);
    SeparatorFreePrefix(site, tail);
    SevenDigitToken(ext);
    var name := site + "Service Level Report" + tail + "1632022" + ext;
    OnlyToken(site + "Service Level Report" + tail, "1632022", Split(2, 0, 2, 0, 3), ext);
    DigitsHaveNoSeps("1632022");
    Strptime.ParseSevenDigits();
    CheckedOnPlainToken(name);
  }

  lemma SevenDigitToken(ext: string)
    requires forall i :: 0 <= i < |ext| ==> !IsDigit(ext[i])
    ensures MatchToken("1632022" + ext) == Some(Split(2, 0, 2, 0, 3))
  {
    var s := "1632022" + ext;
    var y, m := s[4..], s[2..];
    assert y == "022" + ext && m[2..] == y && s[2..] == m;
    DigitRunOf("022", ext);
    YearStep(y, 3);
    MonthTwoStep(m, Split(0, 0, 0, 0, 3));
    MonthStep(m, Split(0, 0, 2, 0, 3));
    DayTwoStep(s, Split(0, 0, 2, 0, 3));
  }

  /** `151221`, evidently 15 December 2021, is read as 1 May 1221 as written, and the corrected
      reading keeps it: without separators, `dmyyyy` is a reading the name allows. */
  lemma SixDigitLateMonthKept()
    ensures GetDate("Heathwood " + "Service Level Report" + " - " + "151221" + ".xlsx")
            == Success(Date(1, 5, 1221))
    ensures GetDateChecked("Heathwood " + "Service Level Report" + " - " + "151221" + ".xlsx")
            == Success(Date(1, 5, 1221))
  {
    SixDigitName();
    SixDigitRead();
    DatesOfLastToken("Heathwood " + "Service Level Report" + " - " + "151221" + ".xlsx",
                     Token("151221", Split(2, 0, 2, 0, 2)));
  }

  lemma SixDigitName()
    ensures LastToken("Heathwood " + "Service Level Report" + " - " + "151221" + ".xlsx")
            == Some(Token("151221", Split(2, 0, 2, 0, 2)))
  {
    var site, tail, ext := "Heathwood ", " - ", ".xlsx";
    assert forall i :: 0 <= i < |site| ==> !IsDigit(site[i]);
    assert forall i :: 0 <= i < |tail| ==> !IsDigit(tail[i]);
    assert forall i :: 0 <= i < |ext| ==> !IsDigit(ext[i]);
    SeparatorFreePrefix(site, tail);
    SixDigitToken(ext);
    OnlyToken(site + "Service Level Report" + tail, "151221", Split(2, 0, 2, 0, 2), ext);
  }

  lemma SixDigitToken(ext: string)
    requires forall i :: 0 <= i < |ext| ==> !IsDigit(ext[i])
    ensures MatchToken("151221" + ext) == Some(Split(2, 0, 2, 0, 2))
  {
    var s := "151221" + ext;
    var y, m := s[4..], s[2..];
    assert y == "21" + ext && m[2..] == y && s[2..] == m;
    DigitRunOf("21", ext);
    YearStep(y, 2);
    MonthTwoStep(m, Split(0, 0, 0, 0, 2));
    MonthStep(m, Split(0, 0, 2, 0, 2));
    DayTwoStep(s, Split(0, 0, 2, 0, 2));
  }

  lemma SixDigitRead()
    ensures DateOfToken(Token("151221", Split(2, 0, 2, 0, 2))) == Success(Date(1, 5, 1221))
    ensures CheckedOfToken(Token("151221", Split(2, 0, 2, 0, 2))) == Success(Date(1, 5, 1221))
  {
    assert AllDigits("151221");
    DigitsHaveNoSeps("151221");
    Strptime.ParseSixDigitsLateMonth();
  }
}
