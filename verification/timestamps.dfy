/** The run's clock reading, `now_utc`, and the `%Y%m%d_%H:%M:%S` stamp that prefixes every object
    a run writes. */
module Timestamps {
  import opened Wrappers
  import opened Text
  import opened Calendar

  /** A UTC instant as `datetime` holds it. */
  datatype Instant = Instant(
    year: nat, month: nat, day: nat, hour: nat, minute: nat, second: nat, microsecond: nat)

  /** An instant the clock can report. Years are taken to have four digits: for earlier years
      the C library writes `%Y` without padding. */
  predicate ValidInstant(t: Instant) {
    && 1000 <= t.year <= 9999
    && ValidDate(Date(t.day, t.month, t.year))
    && t.hour < 24 && t.minute < 60 && t.second < 60 && t.microsecond < 1000000
  }

  function Pow10(w: nat): (r: nat)
    ensures r >= 1
  {
    if w == 0 then 1 else 10 * Pow10(w - 1)
  }

  function DigitChar(d: nat): (c: char)
    requires d < 10
    ensures IsDigit(c) && DigitVal(c) == d
  {
    ('0' as int + d) as char
  }

  /** `n` written with exactly `w` digits, zero-padded on the left. */
  function Pad(n: nat, w: nat): (r: string)
    ensures |r| == w && AllDigits(r)
  {
    if w == 0 then "" else Pad(n / 10, w - 1) + [DigitChar(n % 10)]
  }

  /** Reading the padded digits back gives the number, when it fits the width. */
  lemma {:induction false} PadVal(n: nat, w: nat)
    requires n < Pow10(w)
    ensures Val(Pad(n, w)) == n
  {
    if w > 0 {
      var p := Pad(n, w);
      PadVal(n / 10, w - 1);
      assert p[..|p| - 1] == Pad(n / 10, w - 1);
    }
  }

  /** `strftime("%Y%m%d_%H:%M:%S")`. */
  function Stamp(t: Instant): (r: string)
    ensures |r| == 17 && r[8] == '_' && r[11] == ':' && r[14] == ':'
  {
    Pad(t.year, 4) + Pad(t.month, 2) + Pad(t.day, 2) + "_"
      + Pad(t.hour, 2) + ":" + Pad(t.minute, 2) + ":" + Pad(t.second, 2)
  }

  predicate DigitsBetween(s: string, a: nat, b: nat) {
    a <= b <= |s| && AllDigits(s[a..b])
  }

  /** The instant a stamp was written from, to the second. */
  function FromStamp(s: string): (r: Option<Instant>)
    ensures r.Some? ==> Stamp(r.value) == s && r.value.microsecond == 0
  {
    if |s| == 17 && s[8] == '_' && s[11] == ':' && s[14] == ':'
       && DigitsBetween(s, 0, 4) && DigitsBetween(s, 4, 6) && DigitsBetween(s, 6, 8)
       && DigitsBetween(s, 9, 11) && DigitsBetween(s, 12, 14) && DigitsBetween(s, 15, 17)
    then
      var t := Instant(Val(s[0..4]), Val(s[4..6]), Val(s[6..8]),
                       Val(s[9..11]), Val(s[12..14]), Val(s[15..17]), 0);
      StampOfDigits(s, t);
      Some(t)
    else None
  }

  lemma StampParts(t: Instant)
    ensures Stamp(t)[0..4] == Pad(t.year, 4) && Stamp(t)[4..6] == Pad(t.month, 2)
    ensures Stamp(t)[6..8] == Pad(t.day, 2) && Stamp(t)[9..11] == Pad(t.hour, 2)
    ensures Stamp(t)[12..14] == Pad(t.minute, 2) && Stamp(t)[15..17] == Pad(t.second, 2)
  {
  }

  /** Digits are the padding of their own value. */
  lemma {:induction false} PadOfDigits(s: string)
    requires AllDigits(s)
    ensures Val(s) < Pow10(|s|) && Pad(Val(s), |s|) == s
    decreases |s|
  {
    if |s| > 0 {
      var init := s[..|s| - 1];
      PadOfDigits(init);
      var v := Val(s);
      assert v == 10 * Val(init) + DigitVal(s[|s| - 1]);
      assert v / 10 == Val(init) && v % 10 == DigitVal(s[|s| - 1]);
      assert DigitChar(v % 10) == s[|s| - 1];
      assert s == init + [s[|s| - 1]];
    }
  }

  lemma StampOfDigits(s: string, t: Instant)
    requires |s| == 17 && s[8] == '_' && s[11] == ':' && s[14] == ':'
    requires DigitsBetween(s, 0, 4) && DigitsBetween(s, 4, 6) && DigitsBetween(s, 6, 8)
    requires DigitsBetween(s, 9, 11) && DigitsBetween(s, 12, 14) && DigitsBetween(s, 15, 17)
    requires t == Instant(Val(s[0..4]), Val(s[4..6]), Val(s[6..8]),
                          Val(s[9..11]), Val(s[12..14]), Val(s[15..17]), 0)
    ensures Stamp(t) == s
  {
    PadOfDigits(s[0..4]);
    PadOfDigits(s[4..6]);
    PadOfDigits(s[6..8]);
    PadOfDigits(s[9..11]);
    PadOfDigits(s[12..14]);
    PadOfDigits(s[15..17]);
    assert s == s[0..4] + s[4..6] + s[6..8] + "_" + s[9..11] + ":" + s[12..14] + ":" + s[15..17];
  }

  /** The stamp keeps everything but the microseconds: it reads back as the instant cut to the
      second. */
  lemma StampRoundTrip(t: Instant)
    requires ValidInstant(t)
    ensures FromStamp(Stamp(t)) == Some(t.(microsecond := 0))
  {
    var s := Stamp(t);
    StampParts(t);
    PadVal(t.year, 4);
    PadVal(t.month, 2);
    PadVal(t.day, 2);
    PadVal(t.hour, 2);
    PadVal(t.minute, 2);
    PadVal(t.second, 2);
  }

  /** Two clock readings give the same stamp exactly when they fall in the same second. */
  lemma StampSameSecond(a: Instant, b: Instant)
    requires ValidInstant(a) && ValidInstant(b)
    ensures Stamp(a) == Stamp(b) <==> a.(microsecond := 0) == b.(microsecond := 0)
  {
    StampRoundTrip(a);
    StampRoundTrip(b);
  }

  lemma PadTwo(n: nat)
    requires n < 100
    ensures Pad(n, 2) == [DigitChar(n / 10), DigitChar(n % 10)]
  {
    var h := n / 10;
    assert h < 10 && h % 10 == h && h / 10 == 0;
    assert Pad(h, 1) == [DigitChar(h)];
    assert Pad(n, 2) == Pad(h, 1) + [DigitChar(n % 10)];
  }

  lemma SampleStamp()
    ensures Stamp(Instant(2022, 3, 16, 9, 5, 0, 123)) == "20220316_09:05:00"
  {
    SamplePads();
    SampleConcat();
  }

  lemma SamplePads()
    ensures Pad(2022, 4) == "2022" && Pad(3, 2) == "03" && Pad(16, 2) == "16"
    ensures Pad(9, 2) == "09" && Pad(5, 2) == "05" && Pad(0, 2) == "00"
  {
    PadTwo(20);
    PadTwo(22);
    assert Pad(2022, 4) == Pad(20, 2) + Pad(22, 2) by {
      assert Pad(2022, 4) == Pad(202, 3) + "2";
      assert Pad(202, 3) == Pad(20, 2) + "2";
    }
    PadTwo(3);
    PadTwo(16);
    PadTwo(9);
    PadTwo(5);
    PadTwo(0);
  }

  lemma SampleConcat()
    ensures "2022" + "03" + "16" + "_" + "09" + ":" + "05" + ":" + "00" == "20220316_09:05:00"
  {
  }
}
