/** Character classes, lower-casing and substring tests used by the filename rules. */
module Text {

  predicate IsDigit(c: char) { '0' <= c <= '9' }

  /** The separators `[./-]` that may stand between the digit groups of a filename date. */
  predicate IsSep(c: char) { c == '.' || c == '/' || c == '-' }

  predicate AllDigits(s: string) { forall i :: 0 <= i < |s| ==> IsDigit(s[i]) }

  /** `str.lower()` on ASCII letters. Other characters are left as they are (see `Sites`). */
  function Lower(c: char): char {
    if 'A' <= c <= 'Z' then (c as int + 32) as char else c
  }

  function LowerStr(s: string): (r: string)
    ensures |r| == |s|
    ensures forall i :: 0 <= i < |s| ==> r[i] == Lower(s[i])
  {
    seq(|s|, i requires 0 <= i < |s| => Lower(s[i]))
  }

  lemma LowerSlice(s: string, a: int, b: int)
    requires 0 <= a <= b <= |s|
    ensures LowerStr(s)[a..b] == LowerStr(s[a..b])
  {
  }

  function DigitVal(c: char): nat
    requires IsDigit(c)
  {
    c as int - '0' as int
  }

  /** The decimal value of a string of ASCII digits, as `int()` reads it. */
  function Val(s: string): nat
    requires AllDigits(s)
  {
    if |s| == 0 then 0 else 10 * Val(s[..|s| - 1]) + DigitVal(s[|s| - 1])
  }

  /** `needle in hay`, the substring test of the source, scanned left to right. */
  predicate IsInfix(needle: string, hay: string)
    decreases |hay|
  {
    |needle| <= |hay| && (hay[..|needle|] == needle || IsInfix(needle, hay[1..]))
  }

  ghost predicate OccursAt(needle: string, hay: string, i: int) {
    0 <= i && i + |needle| <= |hay| && hay[i..i + |needle|] == needle
  }

  predicate EndsWith(s: string, suffix: string) {
    |suffix| <= |s| && s[|s| - |suffix|..] == suffix
  }

  /** The scan finds an occurrence exactly when one exists. */
  lemma {:induction false} IsInfixWitness(needle: string, hay: string) returns (i: int)
    requires IsInfix(needle, hay)
    ensures OccursAt(needle, hay, i)
    decreases |hay|
  {
    if hay[..|needle|] == needle {
      i := 0;
    } else {
      var j := IsInfixWitness(needle, hay[1..]);
      assert hay[1..][j..j + |needle|] == hay[j + 1..j + 1 + |needle|];
      i := j + 1;
    }
  }

  lemma {:induction false} IsInfixAt(needle: string, hay: string, i: int)
    requires OccursAt(needle, hay, i)
    ensures IsInfix(needle, hay)
    decreases |hay|
  {
    if i > 0 {
      assert hay[1..][i - 1..i - 1 + |needle|] == hay[i..i + |needle|];
      IsInfixAt(needle, hay[1..], i - 1);
    }
  }

  lemma IsInfixIff(needle: string, hay: string)
    ensures IsInfix(needle, hay) <==> exists i :: OccursAt(needle, hay, i)
  {
    if IsInfix(needle, hay) {
      var i := IsInfixWitness(needle, hay);
    }
    if exists i :: OccursAt(needle, hay, i) {
      var i :| OccursAt(needle, hay, i);
      IsInfixAt(needle, hay, i);
    }
  }
}
