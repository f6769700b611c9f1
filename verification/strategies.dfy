/** How the three Scotland filters compare on one raw postcode or outcode string:
    the anchored regex of CleaningData.py, the 2021 prefix test of cleaning.py and the
    2015/2016 digit-strip test of cleaning.py. */
module Strategies {
  import opened Options
  import opened Text
  import opened PostcodeAreas
  import opened CleaningData
  import opened Cleaning

  /** A string whose area is Scottish passes the prefix test: the area is a prefix of it, and
      greedy extraction would have read GU or GL as the area. */
  lemma AreaPassesPrefix(n: string)
    requires AreaCode(n).Some? && AreaCode(n).value in ScotlandAreas
    ensures StartsWithAny(n, ScotlandAreas) && !StartsWithAny(n, ExcludedPrefixes)
  {
    var area := AreaCode(n).value;
    assert area in ScotlandAreas && area <= n;
    ScotlandAreasAreCodes();
    assert !StartsWithAny(n, ExcludedPrefixes);
  }

  /** Whatever the anchored regex keeps, the prefix test keeps too. */
  lemma AnchoredImpliesPrefix(s: string)
    requires KeepsPostcode(s)
    ensures Keeps2021(s)
  {
    AreaPassesPrefix(Normalise(s));
  }

  /** G followed by a capital other than U or L. */
  predicate GThenCapital(n: string) {
    |n| >= 2 && n[0] == 'G' && IsCapital(n[1]) && n[1] != 'U' && n[1] != 'L'
  }

  /** A normalised string that starts with G and a capital other than U or L passes the prefix test. */
  lemma GAndCapitalPassesPrefix(n: string)
    requires GThenCapital(n)
    ensures StartsWithAny(n, ScotlandAreas) && !StartsWithAny(n, ExcludedPrefixes)
  {
    assert "G" in ScotlandAreas && "G" <= n;
    AvoidsGuAndGl(n);
  }

  /** A string that passes the prefix test either has a Scottish area or is G followed by a
      capital other than U or L. */
  lemma PrefixPassIsAreaOrG(n: string)
    requires StartsWithAny(n, ScotlandAreas) && !StartsWithAny(n, ExcludedPrefixes)
    ensures || (AreaCode(n).Some? && AreaCode(n).value in ScotlandAreas)
            || GThenCapital(n)
  {
    var p :| p in ScotlandAreas && p <= n;
    ScotlandAreasAreCodes();
    assert n[0] == p[0] && IsCapital(n[0]);
    if |p| == 2 {
      assert n[1] == p[1];
      assert n[..2] == p;
    } else if |n| >= 2 && IsCapital(n[1]) {
      assert p == "G";
    } else {
      assert n[..1] == p;
    }
  }

  /** The prefix test keeps exactly what the anchored regex keeps, plus the strings whose
      normalised form is G followed by a capital other than U or L (such as "GY1"). */
  lemma PrefixIffAnchoredOrG(s: string)
    ensures var n := Normalise(s);
            Keeps2021(s) <==> KeepsPostcode(s) || GThenCapital(n)
  {
    var n := Normalise(s);
    if KeepsPostcode(s) {
      AnchoredImpliesPrefix(s);
    }
    if GThenCapital(n) {
      GAndCapitalPassesPrefix(n);
    }
    if Keeps2021(s) {
      PrefixPassIsAreaOrG(n);
    }
  }

  /** Without a leading digit, the digit strip only cuts trailing digits. */
  lemma DigitStripCutsTrailingDigits(s: string)
    requires s != [] && !IsDigit(s[0])
    ensures var city := Strip(s, IsDigit);
            && city == s[..|city|]
            && forall k :: |city| <= k < |s| ==> IsDigit(s[k])
  {
    assert TrimStart(s, IsDigit) == s;
  }

  /** One or two capitals followed only by digits: the capitals are the area. */
  lemma CapitalsThenDigits(s: string, city: string)
    requires 1 <= |city| <= 2 && forall k :: 0 <= k < |city| ==> IsCapital(city[k])
    requires |city| <= |s| && city == s[..|city|]
    requires forall k :: |city| <= k < |s| ==> IsDigit(s[k])
    ensures AreaCode(s) == Some(city)
    ensures forall k :: 0 <= k < |s| ==> IsCapital(s[k]) || IsDigit(s[k])
  {
    forall k | 0 <= k < |s| ensures IsCapital(s[k]) || IsDigit(s[k]) {
      if k < |city| { assert s[k] == city[k]; }
    }
    if |city| == 2 {
      assert s[1] == city[1];
    } else {
      assert |s| == 1 || IsDigit(s[1]);
    }
  }

  /** An outcode of two capitals and a digit is already normal, and the two capitals are its area. */
  lemma TwoCapitalsAndDigit(s: string)
    requires |s| == 3 && IsCapital(s[0]) && IsCapital(s[1]) && IsDigit(s[2])
    ensures Normalise(s) == s && AreaCode(s) == Some(s[..2])
  {
    CapitalsThenDigits(s, s[..2]);
    NoSpaceNoLower(s);
  }

  /** A string of capitals and digits is already normal. */
  lemma NoSpaceNoLower(s: string)
    requires s != [] && forall k :: 0 <= k < |s| ==> IsCapital(s[k]) || IsDigit(s[k])
    ensures Normalise(s) == s
  {
    assert IsCapital(s[0]) || IsDigit(s[0]);
    assert IsCapital(s[|s| - 1]) || IsDigit(s[|s| - 1]);
    NormalisedAlready(s);
  }

  /** Whatever the digit-strip test keeps, the anchored regex keeps with the same area, unless
      the outcode starts with a digit. */
  lemma DigitStripImpliesAnchored(s: string)
    requires KeepsByCity(s) && s != [] && !IsDigit(s[0])
    ensures KeepsPostcode(s) && PostcodeArea(s) == Some(Strip(s, IsDigit))
  {
    var city := Strip(s, IsDigit);
    DigitStripCutsTrailingDigits(s);
    ScotlandAreasAreCodes();
    CapitalsThenDigits(s, city);
    NoSpaceNoLower(s);
  }

  /** "GY1" starts with G, so the prefix test keeps it; its area GY is not Scottish, so the other
      two drop it. */
  lemma GY1SplitsStrategies()
    ensures Keeps2021("GY1") && !KeepsPostcode("GY1") && !KeepsByCity("GY1")
  {
    GY1KeptByPrefix();
    GY1NotAnchored();
    GY1NotByCity();
  }

  lemma GY1KeptByPrefix()
    ensures Keeps2021("GY1")
  {
    TwoCapitalsAndDigit("GY1");
    assert "GY1"[..2] == "GY";
    GY1PassesPrefix();
  }

  lemma GY1PassesPrefix()
    ensures StartsWithAny("GY1", ScotlandAreas) && !StartsWithAny("GY1", ExcludedPrefixes)
  {
    GAndCapitalPassesPrefix("GY1");
  }

  lemma GY1NotAnchored()
    ensures !KeepsPostcode("GY1")
  {
    TwoCapitalsAndDigit("GY1");
    assert "GY1"[..2] == "GY";
    assert "GY" !in ScotlandAreas;
  }

  lemma GY1NotByCity()
    ensures !KeepsByCity("GY1")
  {
    assert "GY" !in ScotlandAreas;
    StripGY1();
  }

  lemma StripGY1()
    ensures Strip("GY1", IsDigit) == "GY"
  {
    assert TrimStart("GY1", IsDigit) == "GY1";
    assert "GY1"[..2] == "GY";
    assert TrimEnd("GY", IsDigit) == "GY";
  }

  /** "eh8" and " EH8" are accepted after normalisation by the regex and the prefix test, but
      the digit-strip test does no normalisation and drops both. */
  lemma UnnormalisedSplitsStrategies()
    ensures KeepsPostcode("eh8") && Keeps2021("eh8") && !KeepsByCity("eh8")
    ensures KeepsPostcode(" EH8") && Keeps2021(" EH8") && !KeepsByCity(" EH8")
  {
    LowerCaseKept();
    LeadingSpaceKept();
    LowerCaseNotByCity();
    LeadingSpaceNotByCity();
  }

  lemma LowerCaseKept()
    ensures KeepsPostcode("eh8") && Keeps2021("eh8")
  {
    NormaliseLowerCase();
    EH8Kept();
  }

  lemma LeadingSpaceKept()
    ensures KeepsPostcode(" EH8") && Keeps2021(" EH8")
  {
    NormaliseLeadingSpace();
    EH8Kept();
  }

  lemma LowerCaseNotByCity()
    ensures !KeepsByCity("eh8")
  {
    StripLowerCase();
    NonCapitalFirstNotScottish("eh");
  }

  lemma LeadingSpaceNotByCity()
    ensures !KeepsByCity(" EH8")
  {
    StripLeadingSpace();
    NonCapitalFirstNotScottish(" EH");
  }

  /** A string that does not start with a capital is no Scottish area. */
  lemma NonCapitalFirstNotScottish(a: string)
    requires a != [] && !IsCapital(a[0])
    ensures a !in ScotlandAreas
  {
    ScotlandAreasAreCodes();
  }

  lemma NormaliseLowerCase()
    ensures Normalise("eh8") == "EH8"
  {
    StripLowerCaseSpaces();
    assert ToUpper("eh8") == "EH8";
  }

  lemma StripLowerCaseSpaces()
    ensures Strip("eh8", IsSpace) == "eh8"
  {
    StripStripped("eh8", IsSpace);
  }

  lemma NormaliseLeadingSpace()
    ensures Normalise(" EH8") == "EH8"
  {
    StripLeadingWhitespace();
    EH8Kept();
  }

  lemma StripLeadingWhitespace()
    ensures Strip(" EH8", IsSpace) == "EH8"
  {
    TrimLeadingSpace();
    assert !IsSpace('8');
    assert TrimEnd("EH8", IsSpace) == "EH8";
  }

  lemma TrimLeadingSpace()
    ensures TrimStart(" EH8", IsSpace) == "EH8"
  {
    assert " EH8"[1..] == "EH8";
    assert !IsSpace('E');
  }

  lemma EH8Kept()
    ensures Normalise("EH8") == "EH8" && AreaCode("EH8") == Some("EH") && Keeps2021("EH8")
  {
    assert "EH8"[..2] == "EH";
    CapitalsThenDigits("EH8", "EH");
    NoSpaceNoLower("EH8");
    AreaPassesPrefix("EH8");
  }

  lemma StripLowerCase()
    ensures Strip("eh8", IsDigit) == "eh"
  {
    assert TrimStart("eh8", IsDigit) == "eh8";
    assert "eh8"[..2] == "eh";
    assert TrimEnd("eh", IsDigit) == "eh";
  }

  lemma StripLeadingSpace()
    ensures Strip(" EH8", IsDigit) == " EH"
  {
    assert TrimStart(" EH8", IsDigit) == " EH8";
    assert " EH8"[..3] == " EH";
    assert TrimEnd(" EH", IsDigit) == " EH";
  }

  /** "EC1A" is dropped by all three: its area EC is not Scottish, no Scottish area is a prefix
      of it, and the digit strip leaves it whole. */
  lemma EC1ADroppedByAll()
    ensures !KeepsPostcode("EC1A") && !Keeps2021("EC1A") && !KeepsByCity("EC1A")
  {
    EC1ANotAnchored();
    EC1ANotByPrefix();
    EC1ANotByCity();
  }

  lemma EC1ANotAnchored()
    ensures !KeepsPostcode("EC1A")
  {
    EC1ANormal();
    assert "EC" !in ScotlandAreas;
  }

  lemma EC1ANotByPrefix()
    ensures !Keeps2021("EC1A")
  {
    EC1ANormal();
    NoScottishPrefixOfEC1A();
  }

  lemma EC1ANotByCity()
    ensures !KeepsByCity("EC1A")
  {
    assert "EC1A" !in ScotlandAreas;
    StripInnerDigit();
  }

  lemma EC1ANormal()
    ensures Normalise("EC1A") == "EC1A" && AreaCode("EC1A") == Some("EC")
  {
    NoSpaceNoLower("EC1A");
    assert "EC1A"[..2] == "EC";
  }

  lemma NoScottishPrefixOfEC1A()
    ensures !StartsWithAny("EC1A", ScotlandAreas)
  {
    forall p | p in ScotlandAreas ensures !(p <= "EC1A") {
      assert p[0] != 'E' || (|p| == 2 && p[1] != 'C');
    }
  }

  /** "1EH" is kept by the digit strip alone: the leading digit leaves no area for the regex
      and no Scottish prefix for the 2021 test. */
  lemma LeadingDigitSplitsStrategies()
    ensures KeepsByCity("1EH") && !KeepsPostcode("1EH") && !Keeps2021("1EH")
  {
    NoSpaceNoLower("1EH");
    NoScottishPrefixOf1EH();
    StripLeadingDigit();
  }

  lemma NoScottishPrefixOf1EH()
    ensures !StartsWithAny("1EH", ScotlandAreas)
  {
    forall p | p in ScotlandAreas ensures !(p <= "1EH") {
      assert p[0] != '1';
    }
  }

  /** "GU1" is dropped by all three: its area is GU, and the 2021 test excludes the GU prefix. */
  lemma GU1DroppedByAll()
    ensures !KeepsPostcode("GU1") && !Keeps2021("GU1") && !KeepsByCity("GU1")
  {
    GU1NotAnchored();
    GU1NotByPrefix();
    GU1NotByCity();
  }

  lemma GU1NotAnchored()
    ensures !KeepsPostcode("GU1")
  {
    TwoCapitalsAndDigit("GU1");
    assert "GU1"[..2] == "GU";
    assert "GU" !in ScotlandAreas;
  }

  lemma GU1NotByPrefix()
    ensures !Keeps2021("GU1")
  {
    TwoCapitalsAndDigit("GU1");
    assert "GU1"[..2] == "GU";
    assert "GU" in ExcludedPrefixes && "GU" <= "GU1";
  }

  lemma GU1NotByCity()
    ensures !KeepsByCity("GU1")
  {
    assert "GU" !in ScotlandAreas;
    StripGU1();
  }

  lemma StripGU1()
    ensures Strip("GU1", IsDigit) == "GU"
  {
    assert TrimStart("GU1", IsDigit) == "GU1";
    assert "GU1"[..2] == "GU";
    assert TrimEnd("GU", IsDigit) == "GU";
  }
}
