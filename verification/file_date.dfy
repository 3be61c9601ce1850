/** `get_date`: the date a report's filename carries. The last date-like token of the name is
    taken, its separators are removed, and what remains is parsed with `%d%m%Y`. */
module FileDate {
  import opened Wrappers
  import opened Text
  import opened Calendar
  import opened DateToken
  import Strptime

  datatype DateError =
    | NoDateToken                      // `findall(...)[-1]` on an empty list
    | Unparsed(e: Strptime.ParseError) // `strptime` rejects the digits
    | NotAsWritten                     // the digits parse, but not into the groups the name shows

  /** `re.sub("[./-]", "", s)`. */
  function StripSeps(s: string): (r: string)
    ensures |r| <= |s|
  {
    if |s| == 0 then [] else (if IsSep(s[0]) then [] else [s[0]]) + StripSeps(s[1..])
  }

  /** The separators go and every other character stays. */
  lemma {:induction false} StripSepsContents(s: string)
    ensures forall c :: c in StripSeps(s) <==> c in s && !IsSep(c)
    decreases |s|
  {
    if |s| > 0 {
      StripSepsContents(s[1..]);
      assert s == [s[0]] + s[1..];
    }
  }

  lemma {:induction false} StripSepsAppend(a: string, b: string)
    ensures StripSeps(a + b) == StripSeps(a) + StripSeps(b)
    decreases |a|
  {
    if |a| == 0 {
      assert a + b == b;
    } else {
      assert (a + b)[1..] == a[1..] + b;
      StripSepsAppend(a[1..], b);
    }
  }

  lemma {:induction false} StripSepsOfNoSeps(s: string)
    requires forall i :: 0 <= i < |s| ==> !IsSep(s[i])
    ensures StripSeps(s) == s
    decreases |s|
  {
    if |s| > 0 {
      StripSepsOfNoSeps(s[1..]);
    }
  }

  lemma {:induction false} StripSepsOfSeps(s: string)
    requires forall i :: 0 <= i < |s| ==> IsSep(s[i])
    ensures StripSeps(s) == []
    decreases |s|
  {
    if |s| > 0 {
      StripSepsOfSeps(s[1..]);
    }
  }

  /** The split covers the token's text exactly. */
  predicate Fits(t: Token) {
    |t.text| == t.split.Length()
  }

  // The three digit groups of a token, as the name writes them.

  function DayDigits(t: Token): string
    requires Fits(t)
  {
    t.text[..t.split.day]
  }

  function MonthDigits(t: Token): string
    requires Fits(t)
  {
    var m0 := t.split.day + t.split.sep1;
    t.text[m0..m0 + t.split.month]
  }

  function YearDigits(t: Token): string
    requires Fits(t)
  {
    var sp := t.split;
    t.text[sp.day + sp.sep1 + sp.month + sp.sep2..]
  }

  /** The day the name spells out: each digit group read as a number. */
  function WrittenDate(t: Token): Date
    requires Shaped(t.text, t.split)
  {
    assert AllDigits(DayDigits(t)) && AllDigits(MonthDigits(t)) && AllDigits(YearDigits(t));
    Date(Val(DayDigits(t)), Val(MonthDigits(t)), Val(YearDigits(t)))
  }

  lemma StripSepsOfGroups(d: string, s1: string, m: string, s2: string, y: string)
    requires StripSeps(d) == d && StripSeps(m) == m && StripSeps(y) == y
    requires StripSeps(s1) == [] && StripSeps(s2) == []
    ensures StripSeps(d + s1 + m + s2 + y) == d + m + y
  {
    calc {
      StripSeps(d + s1 + m + s2 + y);
      { StripSepsAppend(d + s1 + m + s2, y); }
      StripSeps(d + s1 + m + s2) + y;
      { StripSepsAppend(d + s1 + m, s2); }
      StripSeps(d + s1 + m) + [] + y;
      { assert StripSeps(d + s1 + m) + [] == StripSeps(d + s1 + m); }
      StripSeps(d + s1 + m) + y;
      { StripSepsAppend(d + s1, m); }
      StripSeps(d + s1) + m + y;
      { StripSepsAppend(d, s1); assert d + [] == d; }
      d + m + y;
    }
  }

  function FirstSep(t: Token): string
    requires Fits(t)
  {
    t.text[t.split.day..t.split.day + t.split.sep1]
  }

  function SecondSep(t: Token): string
    requires Fits(t)
  {
    var e0 := t.split.day + t.split.sep1 + t.split.month;
    t.text[e0..e0 + t.split.sep2]
  }

  lemma TokenIsItsGroups(t: Token)
    requires Fits(t)
    ensures t.text == DayDigits(t) + FirstSep(t) + MonthDigits(t) + SecondSep(t) + YearDigits(t)
  {
    var sp := t.split;
    var m0 := sp.day + sp.sep1;
    var e0 := m0 + sp.month;
    FiveSlices(t.text, sp.day, m0, e0, e0 + sp.sep2);
  }

  lemma FiveSlices(x: string, a: nat, b: nat, c: nat, d: nat)
    requires a <= b <= c <= d <= |x|
    ensures x == x[..a] + x[a..b] + x[b..c] + x[c..d] + x[d..]
  {
    assert x[..c] == x[..b] + x[b..c];
    assert x[..d] == x[..c] + x[c..d];
    assert x[..b] == x[..a] + x[a..b];
    assert x == x[..d] + x[d..];
  }

  /** A token put together from three digit groups and two optional separators has those groups. */
  lemma GroupsOfToken(d: string, s1: string, m: string, s2: string, y: string)
    requires 1 <= |d| <= 2 && |s1| <= 1 && 1 <= |m| <= 2 && |s2| <= 1 && 2 <= |y|
    requires AllDigits(d) && AllDigits(m) && AllDigits(y)
    requires forall i :: 0 <= i < |s1| ==> IsSep(s1[i])
    requires forall i :: 0 <= i < |s2| ==> IsSep(s2[i])
    ensures Shaped(d + s1 + m + s2 + y, Split(|d|, |s1|, |m|, |s2|, |y|))
    ensures var t := Token(d + s1 + m + s2 + y, Split(|d|, |s1|, |m|, |s2|, |y|));
            DayDigits(t) == d && MonthDigits(t) == m && YearDigits(t) == y
  {
    var sp := Split(|d|, |s1|, |m|, |s2|, |y|);
    GroupSlices(d, s1, m, s2, y);
    ShapedFromSlices(d + s1 + m + s2 + y, sp);
  }

  lemma GroupSlices(d: string, s1: string, m: string, s2: string, y: string)
    ensures var x, m0 := d + s1 + m + s2 + y, |d| + |s1|;
            && x[..|d|] == d && x[|d|..m0] == s1 && x[m0..m0 + |m|] == m
            && x[m0 + |m|..m0 + |m| + |s2|] == s2 && x[m0 + |m| + |s2|..] == y
  {
  }

  /** `Shaped`, read off the five slices of the text. */
  lemma ShapedFromSlices(x: string, sp: Split)
    requires |x| == sp.Length()
    requires 1 <= sp.day <= 2 && sp.sep1 <= 1 && 1 <= sp.month <= 2 && sp.sep2 <= 1 && 2 <= sp.year
    requires var m0 := sp.day + sp.sep1; var e0 := m0 + sp.month; var y0 := e0 + sp.sep2;
             && AllDigits(x[..sp.day]) && AllDigits(x[m0..e0]) && AllDigits(x[y0..])
             && (forall i :: 0 <= i < sp.sep1 ==> IsSep(x[sp.day..m0][i]))
             && (forall i :: 0 <= i < sp.sep2 ==> IsSep(x[e0..y0][i]))
    ensures Shaped(x, sp)
  {
    var m0 := sp.day + sp.sep1;
    var e0 := m0 + sp.month;
    var y0 := e0 + sp.sep2;
    assert forall i :: 0 <= i < sp.day ==> IsDigit(x[i]) by {
      assert forall i :: 0 <= i < sp.day ==> x[i] == x[..sp.day][i];
    }
    assert forall i :: sp.day <= i < m0 ==> IsSep(x[i]) by {
      assert forall i :: sp.day <= i < m0 ==> x[i] == x[sp.day..m0][i - sp.day];
    }
    assert forall i :: m0 <= i < e0 ==> IsDigit(x[i]) by {
      assert forall i :: m0 <= i < e0 ==> x[i] == x[m0..e0][i - m0];
    }
    assert forall i :: e0 <= i < y0 ==> IsSep(x[i]) by {
      assert forall i :: e0 <= i < y0 ==> x[i] == x[e0..y0][i - e0];
    }
    assert forall i :: y0 <= i < |x| ==> IsDigit(x[i]) by {
      assert forall i :: y0 <= i < |x| ==> x[i] == x[y0..][i - y0];
    }
  }

  lemma TokenGroupsAreDigits(t: Token)
    requires Shaped(t.text, t.split)
    ensures AllDigits(DayDigits(t)) && AllDigits(MonthDigits(t)) && AllDigits(YearDigits(t))
  {
    var x := t.text;
    var m0 := t.split.day + t.split.sep1;
    var y0 := m0 + t.split.month + t.split.sep2;
    assert forall i :: 0 <= i < |MonthDigits(t)| ==> MonthDigits(t)[i] == x[m0 + i];
    assert forall i :: 0 <= i < |YearDigits(t)| ==> YearDigits(t)[i] == x[y0 + i];
  }

  lemma TokenSepsStrip(t: Token)
    requires Shaped(t.text, t.split)
    ensures StripSeps(FirstSep(t)) == [] && StripSeps(SecondSep(t)) == []
  {
    var x := t.text;
    var e0 := t.split.day + t.split.sep1 + t.split.month;
    assert forall i :: 0 <= i < |FirstSep(t)| ==> FirstSep(t)[i] == x[t.split.day + i];
    assert forall i :: 0 <= i < |SecondSep(t)| ==> SecondSep(t)[i] == x[e0 + i];
    StripSepsOfSeps(FirstSep(t));
    StripSepsOfSeps(SecondSep(t));
  }

  /** Removing the separators from a token leaves exactly its three digit groups, in order. */
  lemma StripSepsOfToken(t: Token)
    requires Shaped(t.text, t.split)
    ensures StripSeps(t.text) == DayDigits(t) + MonthDigits(t) + YearDigits(t)
    ensures AllDigits(StripSeps(t.text))
  {
    TokenIsItsGroups(t);
    TokenGroupsAreDigits(t);
    TokenSepsStrip(t);
    DigitsHaveNoSeps(DayDigits(t));
    DigitsHaveNoSeps(MonthDigits(t));
    DigitsHaveNoSeps(YearDigits(t));
    StripSepsOfGroups(DayDigits(t), FirstSep(t), MonthDigits(t), SecondSep(t), YearDigits(t));
    DigitsAppend(DayDigits(t), MonthDigits(t), YearDigits(t));
  }

  lemma DigitsAppend(a: string, b: string, c: string)
    requires AllDigits(a) && AllDigits(b) && AllDigits(c)
    ensures AllDigits(a + b + c)
  {
  }

  lemma DigitsHaveNoSeps(s: string)
    requires AllDigits(s)
    ensures StripSeps(s) == s
  {
    StripSepsOfNoSeps(s);
  }

  /** The last token `findall` returns, which `[-1]` picks. */
  function LastToken(name: string): (t: Option<Token>)
    ensures t.None? <==> FindAll(name) == []
    ensures t.Some? ==> t.value == FindAll(name)[|FindAll(name)| - 1]
    ensures t.Some? ==> Shaped(t.value.text, t.value.split)
  {
    var tokens := FindAll(name);
    FindAllShaped(name);
    if |tokens| == 0 then None else Some(tokens[|tokens| - 1])
  }

  /** `get_date` as the source writes it: a success is the date of the whole-text reading that
      `strptime` settles on for the last token's digits. */
  function GetDate(name: string): (r: Result<Date, DateError>)
    ensures r.Success? ==> ValidDate(r.value)
    ensures r == Failure(NoDateToken) <==> FindAll(name) == []
    ensures r.Success? ==> LastToken(name).Some? && ReadsWholeToken(LastToken(name).value, r.value)
    ensures r.Success? <==> LastToken(name).Some? && ReadsToDay(LastToken(name).value)
  {
    match LastToken(name)
    case None => Failure(NoDateToken)
    case Some(t) => DateOfToken(t)
  }

  /** `d` is the date of the first reading of the token's digits, and that reading covers all of
      them. `Strptime.FirstReadingIsTheFirst` shows the reading is the one `strptime` settles on. */
  predicate ReadsWholeToken(t: Token, d: Date) {
    var s := StripSeps(t.text);
    && Strptime.FirstReading(s).Some?
    && Strptime.FirstReading(s).value.Width() == |s|
    && Strptime.FirstReading(s).value.AsDate() == d
  }

  /** The first reading of the token's digits covers all of them and names a calendar day. */
  predicate ReadsToDay(t: Token) {
    var s := StripSeps(t.text);
    && Strptime.FirstReading(s).Some?
    && Strptime.FirstReading(s).value.Width() == |s|
    && ValidDate(Strptime.FirstReading(s).value.AsDate())
  }

  /** The as-written reading of one token. */
  function DateOfToken(t: Token): (r: Result<Date, DateError>)
    ensures r != Failure(NoDateToken)
    ensures r.Success? ==> ValidDate(r.value) && ReadsWholeToken(t, r.value)
    ensures r.Success? <==> ReadsToDay(t)
  {
    match Strptime.Parse(StripSeps(t.text))
    case Success(d) => Success(d)
    case Failure(e) => Failure(Unparsed(e))
  }

  /** The separators a token shows agree with the fields `strptime` read from its digits: a
      separator after the day group means the day field is that group, and a separator after the
      month group means the month field ends where that group ends. */
  predicate SeparatorsAgree(sp: Split, rd: Strptime.Reading) {
    && (sp.sep1 > 0 ==> rd.dayWidth == sp.day)
    && (sp.sep2 > 0 ==> rd.dayWidth + rd.monthWidth == sp.day + sp.month)
  }

  /** The first year `%Y` reads without a leading zero. */
  const FirstFourDigitYear := 1000

  /** `get_date` corrected where the name itself shows the reading is wrong. The reading of the
      written code is kept unless the token's own separators contradict where `strptime` put the
      field boundaries, or the year read has a leading zero. So `16.03.22` (read as 1 June 322) and
      `1.13.2022` (read as 11 March) are refused. Separator-free tokens read as before, whenever the
      year has four digits: `151221` still gives 1 May 1221, as nothing in the name rules it out. */
  function GetDateChecked(name: string): (r: Result<Date, DateError>)
    ensures r == Failure(NoDateToken) <==> FindAll(name) == []
    ensures r.Success? ==> GetDate(name) == r && r.value.year >= FirstFourDigitYear
    ensures LastToken(name).Some? ==>
              (r.Success? <==>
                 && GetDate(name).Success? && GetDate(name).value.year >= FirstFourDigitYear
                 && SeparatorsAgree(LastToken(name).value.split,
                                    Strptime.FirstReading(StripSeps(LastToken(name).value.text)).value))
  {
    match LastToken(name)
    case None => Failure(NoDateToken)
    case Some(t) => CheckedOfToken(t)
  }

  /** The corrected reading of one token. */
  function CheckedOfToken(t: Token): (r: Result<Date, DateError>)
    ensures r != Failure(NoDateToken)
    ensures r.Success? ==> Strptime.Parse(StripSeps(t.text)) == Success(r.value)
    ensures r.Success? ==> r.value.year >= FirstFourDigitYear
    ensures r.Success? ==>
              && ReadsWholeToken(t, r.value)
              && SeparatorsAgree(t.split, Strptime.FirstReading(StripSeps(t.text)).value)
    ensures r.Success? <==>
              && DateOfToken(t).Success? && DateOfToken(t).value.year >= FirstFourDigitYear
              && SeparatorsAgree(t.split, Strptime.FirstReading(StripSeps(t.text)).value)
  {
    var s := StripSeps(t.text);
    match Strptime.Parse(s)
    case Failure(e) => Failure(Unparsed(e))
    case Success(d) =>
      assert Strptime.FirstReading(s).Some?;
      if SeparatorsAgree(t.split, Strptime.FirstReading(s).value) && d.year >= FirstFourDigitYear
      then Success(d)
      else Failure(NotAsWritten)
  }

  /** On a token without separators the corrected reading is the written one, refusing only a
      year with a leading zero. */
  lemma CheckedOnPlainToken(name: string)
    requires LastToken(name).Some?
    requires LastToken(name).value.split.sep1 == 0 && LastToken(name).value.split.sep2 == 0
    ensures GetDateChecked(name).Success? <==>
              GetDate(name).Success? && GetDate(name).value.year >= FirstFourDigitYear
    ensures GetDateChecked(name).Success? ==> GetDateChecked(name) == GetDate(name)
  {
  }

  /** On a token with both separators the corrected reading returns exactly the day the digit
      groups write, or fails. */
  lemma CheckedReadsSeparatedGroups(name: string)
    requires LastToken(name).Some?
    requires LastToken(name).value.split.sep1 > 0 && LastToken(name).value.split.sep2 > 0
    ensures GetDateChecked(name).Success? ==>
              GetDateChecked(name).value == WrittenDate(LastToken(name).value)
  {
    SeparatedTokenReadsGroups(LastToken(name).value);
  }

  lemma SeparatedTokenReadsGroups(t: Token)
    requires Shaped(t.text, t.split) && t.split.sep1 > 0 && t.split.sep2 > 0
    ensures CheckedOfToken(t).Success? ==> CheckedOfToken(t).value == WrittenDate(t)
  {
    if CheckedOfToken(t).Success? {
      var rd := CheckedReading(t);
      SeparatedReadingIsWritten(t, rd);
    }
  }

  lemma SeparatedReadingIsWritten(t: Token, rd: Strptime.Reading)
    requires Shaped(t.text, t.split) && t.split.sep1 > 0 && t.split.sep2 > 0
    requires Strptime.Reads(StripSeps(t.text), rd) && rd.Width() == |StripSeps(t.text)|
    requires SeparatorsAgree(t.split, rd)
    ensures rd.AsDate() == WrittenDate(t)
  {
    var d, m, y := DayDigits(t), MonthDigits(t), YearDigits(t);
    StripSepsOfToken(t);
    TokenGroupsAreDigits(t);
    assert |d| == t.split.day && |m| == t.split.month;
    ReadingOfGroups(d, m, y, rd);
  }

  /** The reading behind a success of the corrected reading. */
  lemma CheckedReading(t: Token) returns (rd: Strptime.Reading)
    requires CheckedOfToken(t).Success?
    ensures Strptime.Reads(StripSeps(t.text), rd) && rd.Width() == |StripSeps(t.text)|
    ensures rd.AsDate() == CheckedOfToken(t).value && SeparatorsAgree(t.split, rd)
  {
    rd := Strptime.FirstReading(StripSeps(t.text)).value;
  }

  /** A whole reading of three digit groups whose fields sit exactly on the groups reads each
      group's value. */
  lemma ReadingOfGroups(d: string, m: string, y: string, rd: Strptime.Reading)
    requires AllDigits(d) && AllDigits(m) && AllDigits(y)
    requires Strptime.Reads(d + m + y, rd)
    requires rd.dayWidth == |d| && rd.monthWidth == |m| && rd.Width() == |d + m + y|
    ensures rd.AsDate() == Date(Val(d), Val(m), Val(y))
  {
    var s := d + m + y;
    var rest := s[|d|..];
    assert rest == m + y;
    assert s[0] == d[0];
    if |d| == 2 {
      assert s[1] == d[1];
      ValOfTwo(d);
    } else {
      ValOfOne(d);
    }
    assert rest[0] == m[0];
    if |m| == 2 {
      assert rest[1] == m[1];
      ValOfTwo(m);
    } else {
      ValOfOne(m);
    }
    assert rest[|m|..] == y;
    ValOfFour(y);
  }

  /** A text that ends in a break (or is empty) cannot change the date of what follows it when
      that holds a token: the last token is taken, so earlier dates in the name are ignored. */
  lemma GetDateIgnoresEarlierTokens(a: string, b: string)
    requires |a| == 0 || IsBreak(a[|a| - 1])
    requires FindAll(b) != []
    ensures GetDate(a + b) == GetDate(b)
    ensures GetDateChecked(a + b) == GetDateChecked(b)
  {
    LastTokenIgnoresEarlier(a, b);
    SameLastTokenSameDate(a + b, b);
  }

  lemma LastTokenIgnoresEarlier(a: string, b: string)
    requires |a| == 0 || IsBreak(a[|a| - 1])
    requires FindAll(b) != []
    ensures LastToken(a + b) == LastToken(b)
  {
    var xs, ys := FindAll(a), FindAll(b);
    FindAllSplitsAtBreak(a, b);
    LastOfAppend(xs, ys);
    var last := ys[|ys| - 1];
    assert LastToken(b) == Some(last);
    assert LastToken(a + b) == Some(last);
  }

  lemma LastOfAppend(xs: seq<Token>, ys: seq<Token>)
    requires ys != []
    ensures (xs + ys)[|xs + ys| - 1] == ys[|ys| - 1]
  {
  }

  /** Both readings depend on the name only through its last token. */
  lemma SameLastTokenSameDate(x: string, y: string)
    requires LastToken(x) == LastToken(y)
    ensures GetDate(x) == GetDate(y) && GetDateChecked(x) == GetDateChecked(y)
  {
  }

  /** The corrected reading only ever refuses what the written one accepts: where both succeed
      they agree. */
  lemma CheckedAgreesWhereItSucceeds(name: string)
    ensures GetDateChecked(name).Success? ==> GetDate(name) == GetDateChecked(name)
    ensures GetDate(name).Failure? ==> GetDateChecked(name).Failure?
    ensures GetDate(name) == Failure(NoDateToken) <==> GetDateChecked(name) == Failure(NoDateToken)
  {
  }

  lemma ValOfTwo(s: string)
    requires |s| == 2 && AllDigits(s)
    ensures Val(s) == Strptime.Two(s[0], s[1])
  {
    ValOfOne(s[..1]);
    assert Val(s) == 10 * Val(s[..1]) + DigitVal(s[1]);
  }

  lemma ValOfOne(s: string)
    requires |s| == 1 && AllDigits(s)
    ensures Val(s) == DigitVal(s[0])
  {
    assert s[..0] == [];
  }

  lemma ValOfFour(s: string)
    requires |s| == 4 && AllDigits(s)
    ensures Strptime.FourDigits(s) && Val(s) == Strptime.YearValue(s)
  {
    var a := s[..2];
    ValOfTwo(a);
    assert s[..3][..2] == a;
    assert Val(s[..3]) == 10 * Val(a) + DigitVal(s[2]);
    assert Val(s) == 10 * Val(s[..3]) + DigitVal(s[3]);
  }

  /** A last token written `dd`, `mm`, `yyyy` (with any separators) yields its written day, and
      is refused exactly when the calendar has no such day. */
  lemma GetDateOfFullToken(name: string)
    requires LastToken(name).Some?
    requires LastToken(name).value.split.day == 2
    requires LastToken(name).value.split.month == 2
    requires LastToken(name).value.split.year == 4
    ensures ValidDate(WrittenDate(LastToken(name).value)) <==> GetDate(name).Success?
    ensures GetDate(name).Success? ==> GetDate(name).value == WrittenDate(LastToken(name).value)
    ensures GetDateChecked(name).Success? <==>
              ValidDate(WrittenDate(LastToken(name).value))
              && WrittenDate(LastToken(name).value).year >= FirstFourDigitYear
  {
    FullTokenReads(LastToken(name).value);
  }

  lemma FullTokenReads(t: Token)
    requires Shaped(t.text, t.split) && t.split.day == 2 && t.split.month == 2 && t.split.year == 4
    ensures ValidDate(WrittenDate(t)) <==> Strptime.Parse(StripSeps(t.text)).Success?
    ensures Strptime.Parse(StripSeps(t.text)).Success? ==>
              Strptime.Parse(StripSeps(t.text)).value == WrittenDate(t)
    ensures CheckedOfToken(t).Success? <==>
              ValidDate(WrittenDate(t)) && WrittenDate(t).year >= FirstFourDigitYear
  {
    var s := StripSeps(t.text);
    var d, m, y := DayDigits(t), MonthDigits(t), YearDigits(t);
    StripSepsOfToken(t);
    TokenGroupsAreDigits(t);
    assert s == d + m + y;
    assert s[0] == d[0] && s[1] == d[1] && s[2] == m[0] && s[3] == m[1];
    assert s[4..] == y;
    ValOfTwo(d);
    ValOfTwo(m);
    ValOfFour(y);
    Strptime.ParseEightDigits(s);
    if Strptime.Parse(s).Success? {
      assert SeparatorsAgree(t.split, Strptime.FirstReading(s).value);
    }
  }
}
