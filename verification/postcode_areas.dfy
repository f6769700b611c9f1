/** Postcode areas of Scotland, postcode normalisation and the `^([A-Z]{1,2})` area extraction
    that both cleaning scripts use. */
module PostcodeAreas {
  import opened Text
  import opened Options

  /** The sixteen postcode areas of Scotland; CleaningData.py and cleaning.py each list them. */
  const ScotlandAreas: set<string> :=
    {"AB", "DD", "DG", "EH", "FK", "G", "HS", "IV", "KA", "KW", "KY", "ML", "PA", "PH", "TD", "ZE"}

  /** The areas an outcode must not start with in the 2021 cleaning. */
  const ExcludedPrefixes: set<string> := {"GU", "GL"}

  /** Every Scottish area is one or two capital letters. */
  lemma ScotlandAreasAreCodes()
    ensures forall a :: a in ScotlandAreas ==> 1 <= |a| <= 2 && forall k :: 0 <= k < |a| ==> IsCapital(a[k])
    ensures "G" in ScotlandAreas && "GU" !in ScotlandAreas && "GL" !in ScotlandAreas
  {
  }

  /** `.astype(str).str.strip().str.upper()`: surrounding whitespace removed, then upper-cased. */
  function Normalise(s: string): (r: string)
    ensures |r| <= |s|
    ensures r == [] || (!IsSpace(r[0]) && !IsSpace(r[|r| - 1]))
    ensures forall k :: 0 <= k < |r| ==> !('a' <= r[k] <= 'z')
  {
    ToUpper(Strip(s, IsSpace))
  }

  /** Normalising a normalised postcode changes nothing. */
  lemma NormaliseIdempotent(s: string)
    ensures Normalise(Normalise(s)) == Normalise(s)
  {
    var n := Normalise(s);
    StripStripped(n, IsSpace);
    ToUpperIdempotent(Strip(s, IsSpace));
  }

  /** The leading run of capital letters of `s`. */
  function CapitalRun(s: string): (r: string)
    ensures r <= s
    ensures forall k :: 0 <= k < |r| ==> IsCapital(r[k])
    ensures |r| == |s| || !IsCapital(s[|r|])
  {
    if s != [] && IsCapital(s[0]) then [s[0]] + CapitalRun(s[1..]) else []
  }

  /** `str.extract(r'^([A-Z]{1,2})')`: one or two capitals matched greedily at the start, or
      nothing (NaN) when the string does not start with a capital. */
  function AreaCode(s: string): (r: Option<string>)
    ensures r.None? <==> s == [] || !IsCapital(s[0])
    ensures r.Some? ==> 1 <= |r.value| <= 2 && r.value <= s
    ensures r.Some? ==> forall k :: 0 <= k < |r.value| ==> IsCapital(r.value[k])
    ensures r.Some? && |r.value| == 1 ==> |s| == 1 || !IsCapital(s[1])
  {
    if s == [] || !IsCapital(s[0]) then None
    else if |s| >= 2 && IsCapital(s[1]) then Some(s[..2])
    else Some(s[..1])
  }

  /** The area is the leading run of capitals cut to at most two letters. */
  lemma AreaIsCappedCapitalRun(s: string)
    ensures var run := CapitalRun(s);
            AreaCode(s) == if run == [] then None else Some(if |run| <= 2 then run else run[..2])
  {
    var run := CapitalRun(s);
    if s != [] && IsCapital(s[0]) {
      assert run[0] == s[0];
      if |s| >= 2 && IsCapital(s[1]) {
        var tail := CapitalRun(s[1..]);
        assert s[1..][0] == s[1];
        assert run == [s[0]] + tail;
        assert tail != [] && tail[0] == s[1];
        assert |run| >= 2 && run[1] == s[1];
        assert run[..2] == s[..2];
        if |run| == 2 {
          assert run == run[..2];
        }
      } else {
        assert s[1..] == [] || s[1..][0] == s[1];
        assert CapitalRun(s[1..]) == [];
        assert run == [s[0]] == s[..1];
      }
    }
  }

  /** Examples of the extraction: "EH8 9AG" has area EH, "G1 1AA" area G, "GU1 1AA" area GU. */
  lemma AreaExamples()
    ensures AreaCode("EH8 9AG") == Some("EH")
    ensures AreaCode("G1 1AA") == Some("G")
    ensures AreaCode("GU1 1AA") == Some("GU")
    ensures AreaCode("") == None && AreaCode("1AB") == None
  {
    assert "EH8 9AG"[..2] == "EH";
    assert "G1 1AA"[..1] == "G";
    assert "GU1 1AA"[..2] == "GU";
  }
}
