/** `is_correctFileName`: a case-insensitive `re.match` of `.*service level report.*xls[x]?$`. */
module NameCheck {
  import opened Text

  const Phrase: string := "service level report"

  /** The letter a character stands for when `re.IGNORECASE` compares it with a lower-case ASCII
      letter of the pattern. Upper-case ASCII letters fold onto their lower case. So do four other
      code points that Python's matcher equates with ASCII letters: capital I with dot above and
      dotless i fold onto `i`, long s onto `s`, and the Kelvin sign onto `k`. Every other
      character stands for itself. */
  function Fold(c: char): char {
    if 'A' <= c <= 'Z' then (c as int + 32) as char
    else if c == '\U{0130}' || c == '\U{0131}' then 'i'
    else if c == '\U{017F}' then 's'
    else if c == '\U{212A}' then 'k'
    else c
  }

  function FoldStr(s: string): (r: string)
    ensures |r| == |s|
    ensures forall i :: 0 <= i < |s| ==> r[i] == Fold(s[i])
  {
    seq(|s|, i requires 0 <= i < |s| => Fold(s[i]))
  }

  lemma FoldSlice(s: string, a: int, b: int)
    requires 0 <= a <= b <= |s|
    ensures FoldStr(s)[a..b] == FoldStr(s[a..b])
  {
  }

  /** The name without the single trailing newline that `$` is allowed to stand before. */
  function Unterminated(s: string): string {
    if |s| > 0 && s[|s| - 1] == '\n' then s[..|s| - 1] else s
  }

  /** The check as the scan performs it on the line that `.` can cover. */
  predicate IsCorrectFileName(name: string) {
    var line := Unterminated(name);
    var low := FoldStr(line);
    && '\n' !in line
    && IsInfix(Phrase, low)
    && (EndsWith(low, "xls") || EndsWith(low, "xlsx"))
  }

  /** `$` without MULTILINE: the end of the text, or just before a final newline. */
  ghost predicate AtEnd(s: string, k: int) {
    k == |s| || (0 <= k == |s| - 1 && s[k] == '\n')
  }

  /** One way the regex matches from the start of `s`: the first `.*` spans `s[..i]`, the phrase
      sits at `i`, the second `.*` ends at `j`, `xls` sits at `j`, and `x?` stops at `k`. */
  ghost predicate PatternMatchesVia(s: string, i: int, j: int, k: int) {
    && 0 <= i && i + |Phrase| <= j && j + 3 <= k <= |s|
    && '\n' !in s[..i]
    && FoldStr(s[i..i + |Phrase|]) == Phrase
    && '\n' !in s[i + |Phrase|..j]
    && FoldStr(s[j..j + 3]) == "xls"
    && (k == j + 3 || (k == j + 4 && Fold(s[j + 3]) == 'x'))
    && AtEnd(s, k)
  }

  /** The regex matches `s` under `re.match` (backtracking explores every split). */
  ghost predicate MatchesPattern(s: string) {
    exists i, j, k :: PatternMatchesVia(s, i, j, k)
  }

  lemma FoldNewline(c: char)
    ensures Fold(c) == '\n' <==> c == '\n'
  {
  }

  /** A phrase occurrence in a line that ends with the extension lies before the extension. */
  lemma PhraseBeforeExtension(low: string, i: int, ext: string)
    requires OccursAt(Phrase, low, i)
    requires ext == "xls" || ext == "xlsx"
    requires EndsWith(low, ext)
    ensures i + |Phrase| <= |low| - |ext|
  {
    var p := i + |Phrase| - 1;
    assert low[p] == 't' by {
      assert low[i..i + |Phrase|][|Phrase| - 1] == low[p];
    }
    forall q | |low| - |ext| <= q < |low|
      ensures low[q] != 't'
    {
      assert low[q] == low[|low| - |ext|..][q - (|low| - |ext|)];
    }
  }

  lemma MatchFromCheck(s: string)
    requires IsCorrectFileName(s)
    ensures MatchesPattern(s)
  {
    var line := Unterminated(s);
    var low := FoldStr(line);
    var i := IsInfixWitness(Phrase, low);
    var ext := if EndsWith(low, "xlsx") then "xlsx" else "xls";
    PhraseBeforeExtension(low, i, ext);
    MatchFromLine(s, line, i, ext);
  }

  /** The pieces of a match, read off the line that passes the check. */
  lemma MatchFromLine(s: string, line: string, i: int, ext: string)
    requires line == Unterminated(s) && '\n' !in line
    requires OccursAt(Phrase, FoldStr(line), i)
    requires ext == "xls" || ext == "xlsx"
    requires EndsWith(FoldStr(line), ext)
    requires i + |Phrase| <= |line| - |ext|
    ensures PatternMatchesVia(s, i, |line| - |ext|, |line|)
  {
    var j, k := |line| - |ext|, |line|;
    UnterminatedIsPrefix(s);
    PrefixSlice(s, k, 0, i);
    PrefixSlice(s, k, i + |Phrase|, j);
    PrefixSlice(s, k, i, i + |Phrase|);
    PrefixSlice(s, k, j, j + 3);
    NoNewlineInSlice(line, 0, i);
    NoNewlineInSlice(line, i + |Phrase|, j);
    FoldSlice(line, i, i + |Phrase|);
    ExtensionAtEnd(line, ext);
  }

  lemma UnterminatedIsPrefix(s: string)
    ensures |Unterminated(s)| <= |s| && Unterminated(s) == s[..|Unterminated(s)|]
    ensures AtEnd(s, |Unterminated(s)|)
  {
  }

  lemma PrefixSlice(s: string, k: int, a: int, b: int)
    requires 0 <= a <= b <= k <= |s|
    ensures s[..k][a..b] == s[a..b]
  {
  }

  lemma NoNewlineInSlice(line: string, a: int, b: int)
    requires 0 <= a <= b <= |line| && '\n' !in line
    ensures '\n' !in line[a..b]
  {
    assert forall c :: c in line[a..b] ==> c in line;
  }

  /** A line ending in `xls` or `xlsx` has `xls` where the extension starts, and an `x` after it
      in the long form. */
  lemma ExtensionAtEnd(line: string, ext: string)
    requires ext == "xls" || ext == "xlsx"
    requires EndsWith(FoldStr(line), ext)
    ensures FoldStr(line[|line| - |ext|..|line| - |ext| + 3]) == "xls"
    ensures ext == "xlsx" ==> Fold(line[|line| - 1]) == 'x'
  {
    var low := FoldStr(line);
    var j := |line| - |ext|;
    FoldSlice(line, j, j + 3);
    assert low[j..j + 3] == low[j..][..3];
    if ext == "xlsx" {
      assert low[j + 3] == low[j..][3];
    }
  }

  /** A match leaves no newline before the end of the extension. */
  lemma NoNewlineInMatch(s: string, i: int, j: int, k: int)
    requires PatternMatchesVia(s, i, j, k)
    ensures forall x :: 0 <= x < k ==> s[x] != '\n'
  {
    forall x | 0 <= x < k
      ensures s[x] != '\n'
    {
      if x < i {
        assert s[x] == s[..i][x];
      } else if x < i + |Phrase| {
        assert FoldStr(s[i..i + |Phrase|])[x - i] == Fold(s[x]);
        FoldNewline(s[x]);
      } else if x < j {
        assert s[x] == s[i + |Phrase|..j][x - i - |Phrase|];
      } else if x < j + 3 {
        assert FoldStr(s[j..j + 3])[x - j] == Fold(s[x]);
        FoldNewline(s[x]);
      } else {
        FoldNewline(s[x]);
      }
    }
  }

  lemma CheckFromMatch(s: string, i: int, j: int, k: int)
    requires PatternMatchesVia(s, i, j, k)
    ensures IsCorrectFileName(s)
  {
    var line := Unterminated(s);
    NoNewlineInMatch(s, i, j, k);
    UnterminatedIsPrefix(s);
    assert |line| == k;
    PrefixSlice(s, k, i, i + |Phrase|);
    PrefixSlice(s, k, j, j + 3);
    PhraseInLine(line, i);
    ExtensionInLine(line, j);
  }

  lemma PhraseInLine(line: string, i: int)
    requires 0 <= i <= i + |Phrase| <= |line|
    requires FoldStr(line[i..i + |Phrase|]) == Phrase
    ensures IsInfix(Phrase, FoldStr(line))
  {
    FoldSlice(line, i, i + |Phrase|);
    IsInfixAt(Phrase, FoldStr(line), i);
  }

  /** `xls` at `j`, followed by the end or by one `x` and the end. */
  lemma ExtensionInLine(line: string, j: int)
    requires 0 <= j && (|line| == j + 3 || (|line| == j + 4 && Fold(line[j + 3]) == 'x'))
    requires FoldStr(line[j..j + 3]) == "xls"
    ensures EndsWith(FoldStr(line), "xls") || EndsWith(FoldStr(line), "xlsx")
  {
    var low := FoldStr(line);
    FoldSlice(line, j, j + 3);
    if |line| == j + 3 {
      assert low[|low| - 3..] == low[j..j + 3];
    } else {
      assert low[|low| - 4..] == low[j..j + 3] + [low[j + 3]];
    }
  }

  /** The scan agrees with the regex on every name, newlines included. */
  lemma IsCorrectFileNameMatchesRegex(s: string)
    ensures IsCorrectFileName(s) <==> MatchesPattern(s)
  {
    if IsCorrectFileName(s) {
      MatchFromCheck(s);
    }
    if MatchesPattern(s) {
      var i, j, k :| PatternMatchesVia(s, i, j, k);
      CheckFromMatch(s, i, j, k);
    }
  }

  /** For a name without newlines the regex accepts exactly the names whose lower-cased text
      contains `service level report` and ends in `xls` or `xlsx`; no dot is needed. */
  lemma PatternOnSingleLine(s: string)
    requires '\n' !in s
    ensures MatchesPattern(s) <==>
              IsInfix(Phrase, FoldStr(s)) && (EndsWith(FoldStr(s), "xls") || EndsWith(FoldStr(s), "xlsx"))
  {
    IsCorrectFileNameMatchesRegex(s);
    if |s| > 0 {
      assert s[|s| - 1] in s;
    }
    assert Unterminated(s) == s;
  }

  /** Sample names: a wrong extension and a misspelt phrase are refused. */
  lemma RejectedNameExamples()
    ensures !IsCorrectFileName("report.pdf")
    ensures !IsCorrectFileName("Service Level Repot.xlsx")
  {
    var name := "Service Level Repot.xlsx";
    var bad := FoldStr(name);
    forall i | 0 <= i <= |bad| - |Phrase|
      ensures !OccursAt(Phrase, bad, i)
    {
      if i == 0 {
        assert bad[i..i + |Phrase|][18] == 't';
      } else {
        assert bad[i..i + |Phrase|][16] != 'p';
      }
    }
    IsInfixIff(Phrase, bad);
    
  }

  lemma AcceptedWhenPhraseAndExtension(name: string, i: int)
    requires '\n' !in name
    requires OccursAt(Phrase, FoldStr(name), i)
    requires EndsWith(FoldStr(name), "xls") || EndsWith(FoldStr(name), "xlsx")
    ensures IsCorrectFileName(name)
  {
    if |name| > 0 {
      assert name[|name| - 1] in name;
    }
    IsInfixAt(Phrase, FoldStr(name), i);
  }

  lemma FoldConcat(a: string, b: string)
    ensures FoldStr(a + b) == FoldStr(a) + FoldStr(b)
  {
  }

  /** A name made of a newline-free prefix, the phrase in any case, a newline-free middle and an
      extension is accepted. */
  lemma AcceptedByParts(pre: string, phrase: string, mid: string, ext: string)
    requires '\n' !in pre && '\n' !in mid && '\n' !in ext
    requires FoldStr(phrase) == Phrase
    requires FoldStr(ext) == "xls" || FoldStr(ext) == "xlsx"
    ensures IsCorrectFileName(pre + phrase + mid + ext)
  {
    var name := pre + phrase + mid + ext;
    FoldConcat(pre, phrase);
    FoldConcat(pre + phrase, mid);
    FoldConcat(pre + phrase + mid, ext);
    var low := FoldStr(name);
    assert low == FoldStr(pre) + Phrase + FoldStr(mid) + FoldStr(ext);
    assert low[|pre|..|pre| + |Phrase|] == Phrase;
    assert low[|low| - |ext|..] == FoldStr(ext);
    FoldedPhraseHasNoNewline(phrase);
    AcceptedWhenPhraseAndExtension(name, |pre|);
  }

  lemma FoldedPhraseHasNoNewline(phrase: string)
    requires FoldStr(phrase) == Phrase
    ensures '\n' !in phrase
  {
    assert '\n' !in Phrase;
    forall x | 0 <= x < |phrase|
      ensures phrase[x] != '\n'
    {
      assert Fold(phrase[x]) == FoldStr(phrase)[x];
      assert FoldStr(phrase)[x] in Phrase;
      FoldNewline(phrase[x]);
    }
  }

  /** The sample name of the local runner, `Heathwood Service Level Report - 16032022.xlsx`
      (written in parts), is accepted. */
  lemma SampleNameAccepted()
    ensures IsCorrectFileName("Heathwood " + "Service Level Report" + " - 16032022." + "xlsx")
  {
    AcceptedByParts("Heathwood ", "Service Level Report", " - 16032022.", "xlsx");
  }

  /** Long s and dotless i stand for `s` and `i` under the case-insensitive match. */
  lemma FoldedLettersAccepted()
    ensures IsCorrectFileName("" + "\U{017F}erv\U{0131}ce level report" + "." + "xlsx")
  {
    AcceptedByParts("", "\U{017F}erv\U{0131}ce level report", ".", "xlsx");
  }

  /** An upper-case name with an upper-case extension is accepted. */
  lemma AcceptedUpperCaseName()
    ensures IsCorrectFileName("TRUGANINA " + "SERVICE LEVEL REPORT" + "." + "XLS")
  {
    assert FoldStr("SERVICE LEVEL REPORT") == Phrase;
    assert FoldStr("XLS") == "xls";
    AcceptedByParts("TRUGANINA ", "SERVICE LEVEL REPORT", ".", "XLS");
  }

  /** A name without a dot is accepted. */
  lemma AcceptedNameWithoutDot()
    ensures IsCorrectFileName("" + "service level report" + "" + "xls")
  {
    AcceptedByParts("", "service level report", "", "xls");
  }
}
