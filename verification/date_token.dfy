/** `re.findall("([0-9]{1,2}[./-]?[0-9]{1,2}[./-]?[0-9]{2,})", filename)`: a left-to-right scan for
    non-overlapping matches, each found by Python's backtracking matcher. */
module DateToken {
  import opened Wrappers
  import opened Text

  /** Widths of the five groups of one match: day digits, separator, month digits, separator,
      year digits. */
  datatype Split = Split(day: nat, sep1: nat, month: nat, sep2: nat, year: nat) {
    function Length(): nat { day + sep1 + month + sep2 + year }
  }

  /** One element of the `findall` result, with the split the matcher chose. */
  datatype Token = Token(text: string, split: Split)

  predicate DigitsPrefix(s: string, n: nat) {
    n <= |s| && forall i :: 0 <= i < n ==> IsDigit(s[i])
  }

  predicate SepsPrefix(s: string, n: nat) {
    n <= |s| && forall i :: 0 <= i < n ==> IsSep(s[i])
  }

  /** A character that can be part of no match. */
  predicate IsBreak(c: char) { !IsDigit(c) && !IsSep(c) }

  // Which widths the pattern's remaining parts can match at the start of a text.

  ghost predicate YearOk(s: string, y: int) {
    2 <= y && DigitsPrefix(s, y)
  }

  ghost predicate SepYearOk(s: string, e: int, y: int) {
    0 <= e <= 1 && SepsPrefix(s, e) && YearOk(s[e..], y)
  }

  ghost predicate MonthOk(s: string, m: int, e: int, y: int) {
    1 <= m <= 2 && DigitsPrefix(s, m) && SepYearOk(s[m..], e, y)
  }

  ghost predicate SepMonthOk(s: string, f: int, m: int, e: int, y: int) {
    0 <= f <= 1 && SepsPrefix(s, f) && MonthOk(s[f..], m, e, y)
  }

  /** The whole pattern matches a prefix of `s` with group widths `sp`. */
  ghost predicate Spells(s: string, sp: Split) {
    1 <= sp.day <= 2 && DigitsPrefix(s, sp.day) && SepMonthOk(s[sp.day..], sp.sep1, sp.month, sp.sep2, sp.year)
  }

  /** `b` is tried no later than `a` by the backtracking matcher: greedy quantifiers try more
      before less, so earlier groups take as much as they can first. */
  predicate TriedFirst(b: Split, a: Split) {
    if b.day != a.day then b.day > a.day
    else if b.sep1 != a.sep1 then b.sep1 > a.sep1
    else if b.month != a.month then b.month > a.month
    else if b.sep2 != a.sep2 then b.sep2 > a.sep2
    else b.year >= a.year
  }

  /** Length of the run of digits that starts `s`. */
  function DigitRun(s: string): (n: nat)
    ensures DigitsPrefix(s, n)
    ensures n < |s| ==> !IsDigit(s[n])
  {
    if |s| > 0 && IsDigit(s[0]) then 1 + DigitRun(s[1..]) else 0
  }

  /** `[0-9]{2,}`, greedy: the whole digit run, if it has two digits. */
  function YearGroup(s: string): (r: Option<nat>)
    ensures r.Some? ==> YearOk(s, r.value)
  {
    var n := DigitRun(s);
    if n >= 2 then Some(n) else None
  }

  /** `[./-]?[0-9]{2,}`: the separator is tried before its absence. */
  function SepYear(s: string): (r: Option<Split>)
    ensures r.Some? ==> r.value.day == 0 && r.value.sep1 == 0 && r.value.month == 0
    ensures r.Some? ==> SepYearOk(s, r.value.sep2, r.value.year)
  {
    var withSep := if |s| >= 1 && IsSep(s[0]) then YearGroup(s[1..]) else None;
    if withSep.Some? then Some(Split(0, 0, 0, 1, withSep.value))
    else match YearGroup(s)
      case Some(y) => Some(Split(0, 0, 0, 0, y))
      case None => None
  }

  /** `[0-9]{1,2}[./-]?[0-9]{2,}`: two month digits are tried before one. */
  function MonthSepYear(s: string): (r: Option<Split>)
    ensures r.Some? ==> r.value.day == 0 && r.value.sep1 == 0
    ensures r.Some? ==> MonthOk(s, r.value.month, r.value.sep2, r.value.year)
  {
    var two := if |s| >= 2 && IsDigit(s[0]) && IsDigit(s[1]) then SepYear(s[2..]) else None;
    if two.Some? then Some(two.value.(month := 2))
    else
      var one := if |s| >= 1 && IsDigit(s[0]) then SepYear(s[1..]) else None;
      if one.Some? then Some(one.value.(month := 1)) else None
  }

  /** `[./-]?[0-9]{1,2}[./-]?[0-9]{2,}`. */
  function SepMonthSepYear(s: string): (r: Option<Split>)
    ensures r.Some? ==> r.value.day == 0
    ensures r.Some? ==> SepMonthOk(s, r.value.sep1, r.value.month, r.value.sep2, r.value.year)
  {
    var withSep := if |s| >= 1 && IsSep(s[0]) then MonthSepYear(s[1..]) else None;
    if withSep.Some? then Some(withSep.value.(sep1 := 1))
    else MonthSepYear(s)
  }

  /** The whole pattern at the start of `s`: the first split in backtracking order. */
  function MatchToken(s: string): (r: Option<Split>)
    ensures r.Some? ==> Spells(s, r.value)
  {
    var two := if |s| >= 2 && IsDigit(s[0]) && IsDigit(s[1]) then SepMonthSepYear(s[2..]) else None;
    if two.Some? then
      SpellsWithDay(s, 2, two.value);
      Some(two.value.(day := 2))
    else
      var one := if |s| >= 1 && IsDigit(s[0]) then SepMonthSepYear(s[1..]) else None;
      if one.Some? then
        SpellsWithDay(s, 1, one.value);
        Some(one.value.(day := 1))
      else None
  }

  lemma SpellsWithDay(s: string, d: nat, rest: Split)
    requires 1 <= d <= 2 && DigitsPrefix(s, d)
    requires SepMonthOk(s[d..], rest.sep1, rest.month, rest.sep2, rest.year)
    ensures Spells(s, rest.(day := d))
  {
  }

  // One step of the matcher at a time, for reading concrete tokens.

  lemma SepYearStep(s: string, y: nat)
    requires |s| >= 1 && IsSep(s[0]) && DigitRun(s[1..]) == y && y >= 2
    ensures SepYear(s) == Some(Split(0, 0, 0, 1, y))
  {
  }

  lemma YearStep(s: string, y: nat)
    requires |s| >= 1 && !IsSep(s[0]) && DigitRun(s) == y && y >= 2
    ensures SepYear(s) == Some(Split(0, 0, 0, 0, y))
  {
  }

  lemma MonthTwoStep(s: string, r: Split)
    requires |s| >= 2 && IsDigit(s[0]) && IsDigit(s[1]) && SepYear(s[2..]) == Some(r)
    ensures MonthSepYear(s) == Some(r.(month := 2))
  {
  }

  lemma SepMonthStep(s: string, r: Split)
    requires |s| >= 1 && IsSep(s[0]) && MonthSepYear(s[1..]) == Some(r)
    ensures SepMonthSepYear(s) == Some(r.(sep1 := 1))
  {
  }

  lemma MonthStep(s: string, r: Split)
    requires |s| >= 1 && !IsSep(s[0]) && MonthSepYear(s) == Some(r)
    ensures SepMonthSepYear(s) == Some(r)
  {
  }

  lemma DayTwoStep(s: string, r: Split)
    requires |s| >= 2 && IsDigit(s[0]) && IsDigit(s[1]) && SepMonthSepYear(s[2..]) == Some(r)
    ensures MatchToken(s) == Some(r.(day := 2))
  {
  }

  lemma DayOneStep(s: string, r: Split)
    requires |s| >= 2 && IsDigit(s[0]) && !IsDigit(s[1]) && SepMonthSepYear(s[1..]) == Some(r)
    ensures MatchToken(s) == Some(r.(day := 1))
  {
  }

  // Each part of the matcher returns the first of its alternatives in backtracking order.

  lemma YearGroupIsGreedy(s: string, y: int)
    requires YearOk(s, y)
    ensures YearGroup(s).Some? && y <= YearGroup(s).value
  {
  }

  lemma SepYearIsFirst(s: string, e: nat, y: nat)
    requires SepYearOk(s, e, y)
    ensures SepYear(s).Some? && TriedFirst(SepYear(s).value, Split(0, 0, 0, e, y))
  {
    YearGroupIsGreedy(s[e..], y);
    if e == 0 && |s| >= 1 && IsSep(s[0]) && YearGroup(s[1..]).Some? {
      assert SepYear(s).value.sep2 == 1;
    }
  }

  lemma MonthSepYearIsFirst(s: string, m: nat, e: nat, y: nat)
    requires MonthOk(s, m, e, y)
    ensures MonthSepYear(s).Some? && TriedFirst(MonthSepYear(s).value, Split(0, 0, m, e, y))
  {
    SepYearIsFirst(s[m..], e, y);
  }

  lemma SepMonthSepYearIsFirst(s: string, f: nat, m: nat, e: nat, y: nat)
    requires SepMonthOk(s, f, m, e, y)
    ensures SepMonthSepYear(s).Some? && TriedFirst(SepMonthSepYear(s).value, Split(0, f, m, e, y))
  {
    MonthSepYearIsFirst(s[f..], m, e, y);
  }

  lemma MatchTokenBeats(s: string, sp: Split)
    requires Spells(s, sp)
    ensures MatchToken(s).Some? && TriedFirst(MatchToken(s).value, sp)
  {
    var t := s[sp.day..];
    SepMonthSepYearIsFirst(t, sp.sep1, sp.month, sp.sep2, sp.year);
    BeatsFromRest(s, sp, SepMonthSepYear(t).value);
  }

  lemma BeatsFromRest(s: string, sp: Split, rest: Split)
    requires 1 <= sp.day <= 2 && DigitsPrefix(s, sp.day)
    requires SepMonthSepYear(s[sp.day..]) == Some(rest)
    requires rest.day == 0 && TriedFirst(rest, Split(0, sp.sep1, sp.month, sp.sep2, sp.year))
    ensures MatchToken(s).Some? && TriedFirst(MatchToken(s).value, sp)
  {
    TriedFirstWithDay(rest, sp);
    if sp.day == 2 {
      TwoDigitDayFirst(s, rest);
    } else {
      OneDigitDayBeaten(s, rest);
    }
  }

  lemma TriedFirstWithDay(rest: Split, sp: Split)
    requires rest.day == 0 && TriedFirst(rest, Split(0, sp.sep1, sp.month, sp.sep2, sp.year))
    ensures TriedFirst(rest.(day := sp.day), sp)
  {
  }

  /** With a one-digit day, either a two-digit day is found first or the same rest follows. */
  lemma OneDigitDayBeaten(s: string, rest: Split)
    requires |s| >= 1 && IsDigit(s[0]) && SepMonthSepYear(s[1..]) == Some(rest)
    ensures MatchToken(s).Some?
    ensures MatchToken(s).value.day == 2 || MatchToken(s) == Some(rest.(day := 1))
  {
  }

  lemma TwoDigitDayFirst(s: string, rest: Split)
    requires DigitsPrefix(s, 2) && SepMonthSepYear(s[2..]) == Some(rest)
    ensures MatchToken(s) == Some(rest.(day := 2))
  {
  }

  /** Python's choice: the match found is the first split in backtracking order among all the
      ways the pattern matches at this position, and there is none when none matches. */
  lemma MatchTokenIsFirst(s: string)
    ensures forall sp :: Spells(s, sp) ==> MatchToken(s).Some? && TriedFirst(MatchToken(s).value, sp)
    ensures MatchToken(s).None? <==> forall sp :: !Spells(s, sp)
  {
    forall sp | Spells(s, sp)
      ensures MatchToken(s).Some? && TriedFirst(MatchToken(s).value, sp)
    {
      MatchTokenBeats(s, sp);
    }
  }

  /** The groups of a whole token, by position: day digits, an optional separator, month digits,
      an optional separator and the year digits up to the end. */
  ghost predicate Shaped(text: string, sp: Split) {
    var m0 := sp.day + sp.sep1;
    var e0 := m0 + sp.month;
    var y0 := e0 + sp.sep2;
    && |text| == sp.Length()
    && 1 <= sp.day <= 2 && sp.sep1 <= 1 && 1 <= sp.month <= 2 && sp.sep2 <= 1 && 2 <= sp.year
    && (forall i :: 0 <= i < sp.day ==> IsDigit(text[i]))
    && (forall i :: sp.day <= i < m0 ==> IsSep(text[i]))
    && (forall i :: m0 <= i < e0 ==> IsDigit(text[i]))
    && (forall i :: e0 <= i < y0 ==> IsSep(text[i]))
    && (forall i :: y0 <= i < |text| ==> IsDigit(text[i]))
  }

  lemma DigitsAfter(s: string, k: nat, n: nat)
    requires k <= |s| && DigitsPrefix(s[k..], n)
    ensures k + n <= |s| && forall i :: k <= i < k + n ==> IsDigit(s[i])
  {
    assert forall i :: k <= i < k + n ==> s[i] == s[k..][i - k];
  }

  lemma SepsAfter(s: string, k: nat, n: nat)
    requires k <= |s| && SepsPrefix(s[k..], n)
    ensures k + n <= |s| && forall i :: k <= i < k + n ==> IsSep(s[i])
  {
    assert forall i :: k <= i < k + n ==> s[i] == s[k..][i - k];
  }

  /** A match covers its prefix of the text group by group. */
  lemma SpellsShaped(s: string, sp: Split)
    requires Spells(s, sp)
    ensures sp.Length() <= |s|
    ensures Shaped(s[..sp.Length()], sp)
  {
    var m0 := sp.day + sp.sep1;
    var e0 := m0 + sp.month;
    var y0 := e0 + sp.sep2;
    assert SepMonthOk(s[sp.day..], sp.sep1, sp.month, sp.sep2, sp.year);
    SepsAfter(s, sp.day, sp.sep1);
    assert s[sp.day..][sp.sep1..] == s[m0..];
    assert MonthOk(s[m0..], sp.month, sp.sep2, sp.year);
    DigitsAfter(s, m0, sp.month);
    assert s[m0..][sp.month..] == s[e0..];
    assert SepYearOk(s[e0..], sp.sep2, sp.year);
    SepsAfter(s, e0, sp.sep2);
    assert s[e0..][sp.sep2..] == s[y0..];
    assert YearOk(s[y0..], sp.year);
    DigitsAfter(s, y0, sp.year);
  }

  /** No character of a token is a break. */
  lemma ShapedHasNoBreak(text: string, sp: Split, i: int)
    requires Shaped(text, sp)
    requires 0 <= i < |text|
    ensures !IsBreak(text[i])
  {
  }

  /** A matcher a scan can use: every match it reports is non-empty and lies within the text. */
  ghost predicate Advances(m: string -> Option<Split>) {
    forall x :: m(x).Some? ==> 0 < m(x).value.Length() <= |x|
  }

  /** `re.findall` with matcher `m`: at each position the match `m` reports is taken and the scan
      resumes after it; where there is none the scan moves one character on. */
  function Scan(m: string -> Option<Split>, s: string): seq<Token>
    requires Advances(m)
    decreases |s|
  {
    if |s| == 0 then []
    else match m(s)
      case Some(sp) => [Token(s[..sp.Length()], sp)] + Scan(m, s[sp.Length()..])
      case None => Scan(m, s[1..])
  }

  lemma MatchTokenAdvances()
    ensures Advances(MatchToken)
  {
    forall x | MatchToken(x).Some?
      ensures 0 < MatchToken(x).value.Length() <= |x|
    {
      SpellsShaped(x, MatchToken(x).value);
    }
  }

  /** The date pattern's `findall`. */
  function FindAll(s: string): seq<Token> {
    MatchTokenAdvances();
    Scan(MatchToken, s)
  }

  // Text ending in a break cannot share a match with what follows it.

  lemma {:induction false} DigitRunBeforeBreak(a: string, b: string)
    requires |a| > 0 && IsBreak(a[|a| - 1])
    ensures DigitRun(a + b) == DigitRun(a)
    decreases |a|
  {
    if IsDigit(a[0]) {
      assert (a + b)[1..] == a[1..] + b;
      DigitRunBeforeBreak(a[1..], b);
    }
  }

  lemma SepYearBeforeBreak(a: string, b: string)
    requires |a| > 0 && IsBreak(a[|a| - 1])
    ensures SepYear(a + b) == SepYear(a)
  {
    DigitRunBeforeBreak(a, b);
    if IsSep(a[0]) {
      assert (a + b)[1..] == a[1..] + b;
      DigitRunBeforeBreak(a[1..], b);
    }
  }

  lemma MonthSepYearBeforeBreak(a: string, b: string)
    requires |a| > 0 && IsBreak(a[|a| - 1])
    ensures MonthSepYear(a + b) == MonthSepYear(a)
  {
    if IsDigit(a[0]) {
      assert (a + b)[1..] == a[1..] + b;
      SepYearBeforeBreak(a[1..], b);
      if IsDigit(a[1]) {
        assert (a + b)[2..] == a[2..] + b;
        SepYearBeforeBreak(a[2..], b);
      }
    }
  }

  lemma SepMonthSepYearBeforeBreak(a: string, b: string)
    requires |a| > 0 && IsBreak(a[|a| - 1])
    ensures SepMonthSepYear(a + b) == SepMonthSepYear(a)
  {
    MonthSepYearBeforeBreak(a, b);
    if IsSep(a[0]) {
      assert (a + b)[1..] == a[1..] + b;
      MonthSepYearBeforeBreak(a[1..], b);
    }
  }

  lemma MatchTokenBeforeBreak(a: string, b: string)
    requires |a| > 0 && IsBreak(a[|a| - 1])
    ensures MatchToken(a + b) == MatchToken(a)
  {
    if IsDigit(a[0]) {
      assert (a + b)[1..] == a[1..] + b;
      SepMonthSepYearBeforeBreak(a[1..], b);
      if IsDigit(a[1]) {
        assert (a + b)[2..] == a[2..] + b;
        SepMonthSepYearBeforeBreak(a[2..], b);
      }
    }
  }

  /** A match never reaches a break, so it ends before a text that ends in one. */
  lemma MatchStopsBeforeBreak(a: string, sp: Split)
    requires |a| > 0 && IsBreak(a[|a| - 1])
    requires MatchToken(a) == Some(sp)
    ensures sp.Length() < |a|
  {
    var n := sp.Length();
    SpellsShaped(a, sp);
    ShapedHasNoBreak(a[..n], sp, n - 1);
    assert a[..n][n - 1] == a[n - 1];
  }

  /** A matcher that never looks past a break, nor matches one. */
  ghost predicate StopsAtBreaks(m: string -> Option<Split>) {
    forall a: string, b: string {:trigger m(a + b)} | |a| > 0 && IsBreak(a[|a| - 1]) ::
      m(a + b) == m(a) && (m(a).Some? ==> m(a).value.Length() < |a|)
  }

  /** Scanning a text that ends in a break and then whatever follows finds the tokens of each
      part in turn: no match straddles the break and the scan is not thrown out of step. */
  lemma {:induction false} ScanSplitsAtBreak(m: string -> Option<Split>, a: string, b: string)
    requires Advances(m) && StopsAtBreaks(m)
    requires |a| == 0 || IsBreak(a[|a| - 1])
    ensures Scan(m, a + b) == Scan(m, a) + Scan(m, b)
    decreases |a|
  {
    if |a| == 0 {
      assert a + b == b;
    } else {
      assert m(a + b) == m(a);
      match m(a)
      case Some(sp) =>
        var n := sp.Length();
        var t := a[n..];
        DropFromConcat(a, b, n);
        ScanSplitsAtBreak(m, t, b);
      case None =>
        var t := a[1..];
        DropFromConcat(a, b, 1);
        ScanSplitsAtBreak(m, t, b);
    }
  }

  /** Cutting `n` characters off the front of `a + b`, where `a` has at least `n`, cuts them
      off `a` and keeps `a`'s last character when any of `a` is left. */
  lemma DropFromConcat(a: string, b: string, n: nat)
    requires n <= |a|
    ensures (a + b)[..n] == a[..n] && (a + b)[n..] == a[n..] + b
    ensures n < |a| ==> a[n..][|a[n..]| - 1] == a[|a| - 1]
  {
  }

  lemma MatchTokenStopsAtBreaks()
    ensures StopsAtBreaks(MatchToken)
  {
    forall a: string, b: string | |a| > 0 && IsBreak(a[|a| - 1])
      ensures MatchToken(a + b) == MatchToken(a)
      ensures MatchToken(a).Some? ==> MatchToken(a).value.Length() < |a|
    {
      MatchTokenBeforeBreak(a, b);
      if MatchToken(a).Some? {
        MatchStopsBeforeBreak(a, MatchToken(a).value);
      }
    }
  }

  lemma FindAllSplitsAtBreak(a: string, b: string)
    requires |a| == 0 || IsBreak(a[|a| - 1])
    ensures FindAll(a + b) == FindAll(a) + FindAll(b)
  {
    MatchTokenAdvances();
    MatchTokenStopsAtBreaks();
    ScanSplitsAtBreak(MatchToken, a, b);
  }

  /** Every token found has the shape of the pattern. */
  lemma {:induction false} FindAllShaped(s: string)
    ensures forall k :: 0 <= k < |FindAll(s)| ==> Shaped(FindAll(s)[k].text, FindAll(s)[k].split)
    decreases |s|
  {
    if |s| > 0 {
      match MatchToken(s)
      case Some(sp) =>
        SpellsShaped(s, sp);
        FindAllShaped(s[sp.Length()..]);
        assert FindAll(s) == [Token(s[..sp.Length()], sp)] + FindAll(s[sp.Length()..]);
      case None =>
        FindAllShaped(s[1..]);
        assert FindAll(s) == FindAll(s[1..]);
    }
  }

  /** A text without digits holds no token. */
  lemma {:induction false} FindAllWithoutDigits(s: string)
    requires forall i :: 0 <= i < |s| ==> !IsDigit(s[i])
    ensures FindAll(s) == []
    decreases |s|
  {
    if |s| > 0 {
      assert MatchToken(s).None?;
      FindAllWithoutDigits(s[1..]);
    }
  }

  /** Text without digits in front of a name adds no token and does not shift the scan. */
  lemma {:induction false} FindAllSkipsNonDigits(a: string, b: string)
    requires forall i :: 0 <= i < |a| ==> !IsDigit(a[i])
    ensures FindAll(a + b) == FindAll(b)
    decreases |a|
  {
    if |a| == 0 {
      assert a + b == b;
    } else {
      assert (a + b)[0] == a[0];
      assert MatchToken(a + b).None?;
      assert (a + b)[1..] == a[1..] + b;
      FindAllSkipsNonDigits(a[1..], b);
    }
  }

  /** A run of digits followed by anything else is as long as the digits. */
  lemma {:induction false} DigitRunOf(d: string, rest: string)
    requires AllDigits(d)
    requires |rest| == 0 || !IsDigit(rest[0])
    ensures DigitRun(d + rest) == |d|
    decreases |d|
  {
    if |d| == 0 {
      assert d + rest == rest;
    } else {
      assert (d + rest)[1..] == d[1..] + rest;
      DigitRunOf(d[1..], rest);
    }
  }
}
