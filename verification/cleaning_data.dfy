/** The anchored-regex Scotland filter of CleaningData.py: normalise each postcode, extract its
    area with `^([A-Z]{1,2})`, keep the rows whose area is Scottish. */
module CleaningData {
  import opened Options
  import opened Text
  import opened Tables
  import opened PostcodeAreas

  /** One row of the postcode-level electricity table: the `Postcode` column, the `Area`
      column the script adds (absent before it runs), and every other column untouched. */
  datatype MeterRow = MeterRow(postcode: string, area: Option<string>, others: map<string, string>)

  /** The area kept for a postcode: that of its normalised form. */
  function PostcodeArea(postcode: string): Option<string> {
    AreaCode(Normalise(postcode))
  }

  /** The decision the filter takes on one postcode. */
  predicate KeepsPostcode(postcode: string) {
    var area := PostcodeArea(postcode);
    area.Some? && area.value in ScotlandAreas
  }

  /** The two column assignments: `Postcode` normalised in place, `Area` extracted from it. */
  function WithArea(row: MeterRow): (r: MeterRow)
    ensures r.postcode == Normalise(row.postcode) && r.area == AreaCode(r.postcode)
    ensures r.others == row.others
  {
    var p := Normalise(row.postcode);
    row.(postcode := p, area := AreaCode(p))
  }

  /** The mask `data['Area'].isin(scotland_areas)`; a missing area (NaN) is never in the list. */
  predicate InScotland(row: MeterRow) {
    row.area.Some? && row.area.value in ScotlandAreas
  }

  /** `scotland_data`: the normalised rows whose area is a Scottish postcode area. */
  function ScotlandData(data: seq<MeterRow>): (kept: seq<MeterRow>)
    ensures |kept| <= |data|
    ensures forall r :: r in kept ==> InScotland(r)
  {
    Select(MapRows(data, WithArea), InScotland)
  }

  /** A row is kept iff the area of its normalised postcode is Scottish. */
  lemma RowKeptIffScottish(data: seq<MeterRow>, i: nat)
    requires i < |data|
    ensures WithArea(data[i]) in ScotlandData(data) <==> KeepsPostcode(data[i].postcode)
  {
    var normalised := MapRows(data, WithArea);
    var row := WithArea(data[i]);
    assert normalised[i] == row;
    SelectMember(normalised, InScotland, row);
    MaskIsDecision(data[i]);
  }

  /** The mask on a normalised row is the decision on its raw postcode. */
  lemma MaskIsDecision(row: MeterRow)
    ensures InScotland(WithArea(row)) == KeepsPostcode(row.postcode)
  {
  }

  /** What the filter keeps is stored in normalised form. */
  lemma KeptPostcodesAreNormal(data: seq<MeterRow>)
    ensures forall r :: r in ScotlandData(data) ==> r.postcode == Normalise(r.postcode)
  {
    var normalised := MapRows(data, WithArea);
    forall r | r in ScotlandData(data) ensures r.postcode == Normalise(r.postcode) {
      assert r in normalised;
      var i :| 0 <= i < |normalised| && normalised[i] == r;
      NormaliseIdempotent(data[i].postcode);
    }
  }

  /** The filter returns a subsequence: kept row `k` is input row `idx[k]`, normalised and
      given its area, with every other column as it was; input order is preserved. */
  lemma ScotlandDataIsSubsequence(data: seq<MeterRow>) returns (idx: seq<nat>)
    ensures |idx| == |ScotlandData(data)| <= |data|
    ensures forall k :: 0 <= k < |idx| ==> idx[k] < |data| && ScotlandData(data)[k] == WithArea(data[idx[k]])
    ensures forall k :: 0 <= k < |idx| ==> ScotlandData(data)[k].others == data[idx[k]].others
    ensures forall k, l :: 0 <= k < l < |idx| ==> idx[k] < idx[l]
  {
    idx := SelectKeepsOrder(MapRows(data, WithArea), InScotland);
  }

  /** Filtering already-filtered rows again changes nothing. */
  lemma {:induction false} ScotlandDataIdempotent(data: seq<MeterRow>)
    ensures ScotlandData(ScotlandData(data)) == ScotlandData(data)
  {
    var kept := ScotlandData(data);
    var again := MapRows(kept, WithArea);
    var idx := ScotlandDataIsSubsequence(data);
    forall k | 0 <= k < |kept| ensures again[k] == kept[k] {
      NormaliseIdempotent(data[idx[k]].postcode);
    }
    assert again == kept;
    SelectAll(kept, InScotland);
  }

  /** Surrounding whitespace and case are normalised before extraction: " eh8 9ag " is kept
      with area EH and stored as "EH8 9AG". */
  lemma LowerCaseWithSpacesIsKept(others: map<string, string>)
    ensures ScotlandData([MeterRow(" eh8 9ag ", None, others)]) == [MeterRow("EH8 9AG", Some("EH"), others)]
  {
    var row := MeterRow(" eh8 9ag ", None, others);
    var normal := MeterRow("EH8 9AG", Some("EH"), others);
    ScotlandDataOfOneRow(row);
    WithAreaExample(others);
    AreaEH();
  }

  /** A one-row table keeps its row, normalised, exactly when the row is Scottish. */
  lemma ScotlandDataOfOneRow(row: MeterRow)
    ensures ScotlandData([row]) == if InScotland(WithArea(row)) then [WithArea(row)] else []
  {
    var normalised := MapRows([row], WithArea);
    assert normalised == [WithArea(row)];
    assert normalised[1..] == [];
  }

  lemma WithAreaExample(others: map<string, string>)
    ensures WithArea(MeterRow(" eh8 9ag ", None, others)) == MeterRow("EH8 9AG", Some("EH"), others)
  {
    NormaliseExample();
    AreaExamples();
  }

  lemma NormaliseExample()
    ensures Normalise(" eh8 9ag ") == "EH8 9AG"
  {
    StripExample();
    UpperExample();
  }

  lemma StripExample()
    ensures Strip(" eh8 9ag ", IsSpace) == "eh8 9ag"
  {
    var inner := "eh8 9ag";
    assert " eh8 9ag " == [' '] + inner + [' '];
    StripOneSpaceEachSide(inner, ' ');
  }

  /** One dropped character on each side of a string whose ends are kept is stripped. */
  lemma StripOneSpaceEachSide(inner: string, space: char)
    requires IsSpace(space) && inner != [] && !IsSpace(inner[0]) && !IsSpace(inner[|inner| - 1])
    ensures Strip([space] + inner + [space], IsSpace) == inner
  {
    var s := [space] + inner + [space];
    TrimStartDrops(s, IsSpace);
    assert s[1..] == inner + [space];
    TrimStartKeeps(inner + [space], IsSpace);
    TrimEndDrops(inner + [space], IsSpace);
    assert (inner + [space])[..|inner|] == inner;
    TrimEndKeeps(inner, IsSpace);
  }

  lemma UpperExample()
    ensures ToUpper("eh8 9ag") == "EH8 9AG"
  {
  }

  /** Greedy extraction reads "GU1 1AA" as area GU, not G, so it is dropped; "G1 1AA" is kept as G;
      a postcode with no leading letter has no area and is dropped. */
  lemma AreaDecisions()
    ensures !KeepsPostcode("GU1 1AA") && PostcodeArea("GU1 1AA") == Some("GU")
    ensures KeepsPostcode("G1 1AA") && PostcodeArea("G1 1AA") == Some("G")
    ensures KeepsPostcode("EH8 9AG") && PostcodeArea("EH8 9AG") == Some("EH")
    ensures PostcodeArea("") == None && PostcodeArea("1AB") == None && !KeepsPostcode("")
  {
    GreedyGU();
    SingleG();
    AreaEH();
    EmptyHasNoArea();
    DigitFirstHasNoArea();
  }

  lemma GreedyGU()
    ensures !KeepsPostcode("GU1 1AA") && PostcodeArea("GU1 1AA") == Some("GU")
  {
    AreaOfGU1();
    assert "GU" !in ScotlandAreas;
  }

  lemma AreaOfGU1()
    ensures PostcodeArea("GU1 1AA") == Some("GU")
  {
    NormalisedAlready("GU1 1AA");
    assert "GU1 1AA"[..2] == "GU";
  }

  lemma SingleG()
    ensures KeepsPostcode("G1 1AA") && PostcodeArea("G1 1AA") == Some("G")
  {
    NormalisedAlready("G1 1AA");
    assert "G1 1AA"[..1] == "G";
  }

  lemma AreaEH()
    ensures KeepsPostcode("EH8 9AG") && PostcodeArea("EH8 9AG") == Some("EH")
  {
    AreaOfEH8();
    assert "EH" in ScotlandAreas;
  }

  lemma AreaOfEH8()
    ensures PostcodeArea("EH8 9AG") == Some("EH")
  {
    NormalisedAlready("EH8 9AG");
    assert "EH8 9AG"[..2] == "EH";
  }

  lemma EmptyHasNoArea()
    ensures PostcodeArea("") == None && !KeepsPostcode("")
  {
    assert Normalise("") == "";
  }

  lemma DigitFirstHasNoArea()
    ensures PostcodeArea("1AB") == None
  {
    NormalisedAlready("1AB");
  }

  /** A postcode of capitals, digits and inner spaces is already normal. */
  lemma NormalisedAlready(s: string)
    requires s != [] && !IsSpace(s[0]) && !IsSpace(s[|s| - 1])
    requires forall k :: 0 <= k < |s| ==> !('a' <= s[k] <= 'z')
    ensures Normalise(s) == s
  {
    StripStripped(s, IsSpace);
  }

  /** A postcode with no leading letter after normalisation (empty, or starting with a digit)
      has no area and its row is always dropped. */
  lemma NoLeadingLetterIsDropped(row: MeterRow)
    requires var n := Normalise(row.postcode); n == [] || !IsCapital(n[0])
    ensures WithArea(row).area == None && !InScotland(WithArea(row))
  {
  }
}
