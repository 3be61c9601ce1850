/** `infer_site`: the site is read from substrings of the lower-cased filename, in priority order. */
module Sites {
  import opened Text

  datatype Site = Truganina | Heathwood | Bunbury | Other

  /** The text the source stores in `filename_site` and uses in export names. */
  function SiteName(site: Site): (name: string)
    ensures name in {"Truganina", "Heathwood", "Bunbury", "Other"}
  {
    match site
    case Truganina => "Truganina"
    case Heathwood => "Heathwood"
    case Bunbury => "Bunbury"
    case Other => "Other"
  }

  /** `needle in filename.lower()`. */
  predicate Mentions(filename: string, needle: string) {
    IsInfix(needle, LowerStr(filename))
  }

  /** Each site is returned exactly under its condition: `trug` wins over everything; Heathwood
      needs `hw` and no `trug`; Bunbury needs `bun` and neither of those; Other needs none of
      the four substrings. */
  function InferSite(filename: string): (site: Site)
    ensures site == Truganina <==> Mentions(filename, "trug")
    ensures site == Heathwood <==> !Mentions(filename, "trug") && Mentions(filename, "hw")
    ensures site == Bunbury <==>
              !Mentions(filename, "trug") && !Mentions(filename, "hw") && Mentions(filename, "bun")
    ensures site == Other <==>
              && !Mentions(filename, "trug") && !Mentions(filename, "heathwood")
              && !Mentions(filename, "hw") && !Mentions(filename, "bun")
  {
    if Mentions(filename, "trug") then Truganina
    else if Mentions(filename, "heathwood") then
      HeathwoodContainsHw(LowerStr(filename));
      Heathwood
    else if Mentions(filename, "hw") then Heathwood
    else if Mentions(filename, "bun") then Bunbury
    else Other
  }

  /** Every text containing `heathwood` contains `hw`. */
  lemma HeathwoodContainsHw(s: string)
    requires IsInfix("heathwood", s)
    ensures IsInfix("hw", s)
  {
    var i := IsInfixWitness("heathwood", s);
    assert s[i + 4..i + 6] == s[i..i + 9][4..6];
    IsInfixAt("hw", s, i + 4);
  }

  /** The site chain with the `heathwood` branch deleted. */
  function InferSiteWithoutHeathwoodTest(filename: string): Site {
    if Mentions(filename, "trug") then Truganina
    else if Mentions(filename, "hw") then Heathwood
    else if Mentions(filename, "bun") then Bunbury
    else Other
  }

  /** The `heathwood` test is subsumed by the `hw` test: deleting it changes no result. */
  lemma HeathwoodBranchSubsumed(filename: string)
    ensures InferSite(filename) == InferSiteWithoutHeathwoodTest(filename)
  {
    if Mentions(filename, "heathwood") {
      HeathwoodContainsHw(LowerStr(filename));
    }
  }

  /** A needle with a character the haystack lacks does not occur in it. */
  lemma AbsentCharRulesOut(needle: string, hay: string, k: int)
    requires 0 <= k < |needle| && needle[k] !in hay
    ensures !IsInfix(needle, hay)
  {
    forall i | 0 <= i <= |hay| - |needle|
      ensures !OccursAt(needle, hay, i)
    {
      assert hay[i..i + |needle|][k] == hay[i + k];
    }
    IsInfixIff(needle, hay);
  }

  /** A name in three parts, none of which holds `c` once lower-cased, does not mention any
      needle containing `c`. */
  lemma NotMentionedByParts(a: string, b: string, c: string, needle: string, k: int)
    requires 0 <= k < |needle|
    requires needle[k] !in LowerStr(a) && needle[k] !in LowerStr(b) && needle[k] !in LowerStr(c)
    ensures !Mentions(a + b + c, needle)
  {
    assert LowerStr(a + b + c) == LowerStr(a) + LowerStr(b) + LowerStr(c);
    AbsentCharRulesOut(needle, LowerStr(a + b + c), k);
  }

  lemma MentionedAtStart(a: string, rest: string, needle: string)
    requires |needle| <= |a| && LowerStr(a)[..|needle|] == needle
    ensures Mentions(a + rest, needle)
  {
    assert LowerStr(a + rest)[0..|needle|] == LowerStr(a)[..|needle|];
    IsInfixAt(needle, LowerStr(a + rest), 0);
  }

  /** The local runner's sample name gives Heathwood. */
  lemma HeathwoodSampleSite()
    ensures InferSite("Heathwood " + "Service Level Report" + " - 16032022.xlsx") == Heathwood
  {
    var a, b, c := "Heathwood ", "Service Level Report", " - 16032022.xlsx";
    assert !Mentions(a + b + c, "trug") by {
      HeathwoodPartsLackG(a, b, c);
      NotMentionedByParts(a, b, c, "trug", 3);
    }
    assert Mentions(a + b + c, "heathwood") by {
      assert LowerStr(a)[..9] == "heathwood";
      MentionedAtStart(a, b + c, "heathwood");
      assert a + b + c == a + (b + c);
    }
  }

  lemma HeathwoodPartsLackG(a: string, b: string, c: string)
    requires a == "Heathwood " && b == "Service Level Report" && c == " - 16032022.xlsx"
    ensures 'g' !in LowerStr(a) && 'g' !in LowerStr(b) && 'g' !in LowerStr(c)
  {
    assert LowerStr(a) == "heathwood ";
    assert LowerStr(b) == "service level report";
    assert LowerStr(c) == " - 16032022.xlsx";
  }

  /** The commented-out sample name gives Truganina. */
  lemma TruganinaSampleSite()
    ensures InferSite("Truganina " + "Service Level Report" + " -29.03.2022.xlsx") == Truganina
  {
    assert LowerStr("Truganina ")[..4] == "trug";
    MentionedAtStart("Truganina ", "Service Level Report" + " -29.03.2022.xlsx", "trug");
    assert "Truganina " + "Service Level Report" + " -29.03.2022.xlsx"
        == "Truganina " + ("Service Level Report" + " -29.03.2022.xlsx");
  }

  lemma BunburySampleMentions(a: string, b: string, c: string)
    requires a == "Bunbury " && b == "Service Level Report" && c == " 01-04-2023.xlsx"
    ensures !Mentions(a + b + c, "trug") && !Mentions(a + b + c, "hw")
    ensures Mentions(a + b + c, "bun")
  {
    assert !Mentions(a + b + c, "trug") by {
      LowerOfSampleParts(a, b, c);
      NotMentionedByParts(a, b, c, "trug", 3);
    }
    assert !Mentions(a + b + c, "hw") by {
      LowerOfSampleParts(a, b, c);
      NotMentionedByParts(a, b, c, "hw", 1);
    }
    assert Mentions(a + b + c, "bun") by {
      assert LowerStr(a)[..3] == "bun";
      MentionedAtStart(a, b + c, "bun");
      assert a + b + c == a + (b + c);
    }
  }

  lemma LowerOfSampleParts(a: string, b: string, c: string)
    requires a == "Bunbury " && b == "Service Level Report" && c == " 01-04-2023.xlsx"
    ensures 'g' !in LowerStr(a) && 'g' !in LowerStr(b) && 'g' !in LowerStr(c)
    ensures 'w' !in LowerStr(a) && 'w' !in LowerStr(b) && 'w' !in LowerStr(c)
  {
    LowerOfBunbury(a);
    LowerOfPhrase(b);
    LowerOfBunburyTail(c);
  }

  lemma LowerOfBunbury(a: string)
    requires a == "Bunbury "
    ensures LowerStr(a) == "bunbury "
  {
  }

  lemma LowerOfPhrase(b: string)
    requires b == "Service Level Report"
    ensures LowerStr(b) == "service level report"
  {
  }

  lemma LowerOfBunburyTail(c: string)
    requires c == " 01-04-2023.xlsx"
    ensures LowerStr(c) == " 01-04-2023.xlsx"
  {
  }

  /** A Bunbury name mentions neither `trug` nor `hw`, so its `bun` decides. */
  lemma BunburySampleSite()
    ensures InferSite("Bunbury " + "Service Level Report" + " 01-04-2023.xlsx") == Bunbury
  {
    var name := "Bunbury " + "Service Level Report" + " 01-04-2023.xlsx";
    BunburySampleMentions("Bunbury ", "Service Level Report", " 01-04-2023.xlsx");
    HeathwoodBranchSubsumed(name);
  }
}
