/** The two Scotland filters of cleaning.py: the 2021 prefix filter on normalised outcodes
    (with its prefix histogram), and the digit-strip `City` filter of 2015 and 2016. */
module Cleaning {
  import opened Options
  import opened Text
  import opened Tables
  import opened PostcodeAreas

  /** One row of an outcode-level electricity table: the `Outcode` column, the `City` column
      the 2015/2016 cleaning adds (absent before it runs), and every other column untouched. */
  datatype OutcodeRow = OutcodeRow(outcode: string, city: Option<string>, others: map<string, string>)

  /** `str.startswith(tuple(prefixes))`. */
  predicate StartsWithAny(s: string, prefixes: set<string>) {
    exists p :: p in prefixes && p <= s
  }

  // ---- 2021: normalise, keep Scottish prefixes, drop GU and GL ----

  /** `clean_data['Outcode'] = clean_data['Outcode'].astype(str).str.strip().str.upper()`. */
  function WithNormalOutcode(row: OutcodeRow): (r: OutcodeRow)
    ensures r.outcode == Normalise(row.outcode) && r.city == row.city && r.others == row.others
  {
    row.(outcode := Normalise(row.outcode))
  }

  predicate StartsScottish(row: OutcodeRow) {
    StartsWithAny(row.outcode, ScotlandAreas)
  }

  predicate NotGuOrGl(row: OutcodeRow) {
    !StartsWithAny(row.outcode, ExcludedPrefixes)
  }

  /** The decision the 2021 cleaning takes on one raw outcode. */
  predicate Keeps2021(outcode: string) {
    var n := Normalise(outcode);
    StartsWithAny(n, ScotlandAreas) && !StartsWithAny(n, ExcludedPrefixes)
  }

  /** A string whose second character is neither U nor L starts with neither GU nor GL. */
  lemma AvoidsGuAndGl(n: string)
    requires |n| >= 2 && n[1] != 'U' && n[1] != 'L'
    ensures !StartsWithAny(n, ExcludedPrefixes)
  {
    forall p | p in ExcludedPrefixes ensures !(p <= n) {
      assert p[1] == 'U' || p[1] == 'L';
    }
  }

  /** `clean_data` after both boolean filters. */
  function Clean2021(data: seq<OutcodeRow>): (clean: seq<OutcodeRow>)
    ensures |clean| <= |data|
    ensures forall r :: r in clean ==> StartsWithAny(r.outcode, ScotlandAreas) && !StartsWithAny(r.outcode, ExcludedPrefixes)
  {
    var scottish := Select(MapRows(data, WithNormalOutcode), StartsScottish);
    var clean := Select(scottish, NotGuOrGl);
    assert forall r :: r in clean ==> r in scottish;
    clean
  }

  /** An outcode is kept iff, after strip and upper-casing, it starts with a Scottish area and
      with neither GU nor GL. */
  lemma Clean2021KeepsExactly(data: seq<OutcodeRow>, i: nat)
    requires i < |data|
    ensures WithNormalOutcode(data[i]) in Clean2021(data) <==> Keeps2021(data[i].outcode)
  {
    var normalised := MapRows(data, WithNormalOutcode);
    var scottish := Select(normalised, StartsScottish);
    var row := WithNormalOutcode(data[i]);
    assert normalised[i] == row;
    SelectMember(normalised, StartsScottish, row);
    if row in scottish {
      SelectMember(scottish, NotGuOrGl, row);
    }
    MasksAreDecision2021(data[i]);
  }

  /** Both masks on the normalised row together are the decision on its raw outcode. */
  lemma MasksAreDecision2021(row: OutcodeRow)
    ensures StartsScottish(WithNormalOutcode(row)) && NotGuOrGl(WithNormalOutcode(row)) <==> Keeps2021(row.outcode)
  {
  }

  /** Both filters keep the rows in their original order and change no column but `Outcode`. */
  lemma Clean2021IsSubsequence(data: seq<OutcodeRow>) returns (idx: seq<nat>)
    ensures |idx| == |Clean2021(data)|
    ensures forall k :: 0 <= k < |idx| ==> idx[k] < |data| && Clean2021(data)[k] == WithNormalOutcode(data[idx[k]])
    ensures forall k, l :: 0 <= k < l < |idx| ==> idx[k] < idx[l]
  {
    var normalised := MapRows(data, WithNormalOutcode);
    var scottish := Select(normalised, StartsScottish);
    var outer := SelectKeepsOrder(normalised, StartsScottish);
    var clean := Select(scottish, NotGuOrGl);
    assert clean == Clean2021(data);
    var inner := SelectKeepsOrder(scottish, NotGuOrGl);
    idx := EmbedsCompose(clean, scottish, normalised, inner, outer);
    forall k | 0 <= k < |idx| ensures idx[k] < |data| && clean[k] == WithNormalOutcode(data[idx[k]]) {
      assert clean[k] == normalised[idx[k]];
    }
  }

  // ---- the prefix histogram printed for 2021 ----

  /** `str.extract(r'^([A-Z]{1,2})')[0]` of a row's outcode. */
  function OutcodeArea(row: OutcodeRow): Option<string> {
    AreaCode(row.outcode)
  }

  function One(row: OutcodeRow): real {
    1.0
  }

  predicate HasArea(row: OutcodeRow) {
    OutcodeArea(row).Some?
  }

  /** The number of rows whose outcode area is `area`. */
  function CountArea(rows: seq<OutcodeRow>, area: string): nat {
    if rows == [] then 0
    else (if OutcodeArea(rows[0]) == Some(area) then 1 else 0) + CountArea(rows[1..], area)
  }

  /** One (area, count) pair per row of `firsts` that has an area. */
  function CountsFor(firsts: seq<OutcodeRow>, rows: seq<OutcodeRow>): seq<(string, nat)> {
    if firsts == [] then []
    else
      var rest := CountsFor(firsts[1..], rows);
      match OutcodeArea(firsts[0])
      case Some(a) => [(a, CountArea(rows, a))] + rest
      case None => rest
  }

  /** `value_counts()` of the extracted areas: each area present once, with its number of rows
      (NaN areas are not counted). */
  function PrefixCounts(rows: seq<OutcodeRow>): seq<(string, nat)> {
    CountsFor(DropDuplicates(rows, OutcodeArea), rows)
  }

  function SumCounts(counts: seq<(string, nat)>): nat {
    if counts == [] then 0 else counts[0].1 + SumCounts(counts[1..])
  }

  lemma {:induction false} CountIsGroupSum(rows: seq<OutcodeRow>, area: string)
    ensures CountArea(rows, area) as real == GroupSum(rows, OutcodeArea, One, area)
  {
    if rows != [] {
      CountIsGroupSum(rows[1..], area);
    }
  }

  lemma {:induction false} SumCountsIsSumOfGroupSums(firsts: seq<OutcodeRow>, rows: seq<OutcodeRow>)
    ensures SumCounts(CountsFor(firsts, rows)) as real == SumOfGroupSums(firsts, rows, OutcodeArea, One)
  {
    if firsts != [] {
      SumCountsIsSumOfGroupSums(firsts[1..], rows);
      if OutcodeArea(firsts[0]).Some? {
        CountIsGroupSum(rows, OutcodeArea(firsts[0]).value);
      }
    }
  }

  lemma {:induction false} KeyedTotalCountsRows(rows: seq<OutcodeRow>)
    ensures KeyedTotal(rows, OutcodeArea, One) == |Select(rows, HasArea)| as real
  {
    if rows != [] {
      KeyedTotalCountsRows(rows[1..]);
    }
  }

  /** Each pair `CountsFor` lists is an area of some row of `firsts` with its number of rows,
      and every row of `firsts` that has an area gets its pair. */
  lemma {:induction false} CountsForEntries(firsts: seq<OutcodeRow>, rows: seq<OutcodeRow>)
    ensures forall e :: e in CountsFor(firsts, rows) ==>
              e.1 == CountArea(rows, e.0) && Some(e.0) in KeySet(firsts, OutcodeArea)
    ensures forall f :: f in firsts && HasArea(f) ==>
              (OutcodeArea(f).value, CountArea(rows, OutcodeArea(f).value)) in CountsFor(firsts, rows)
  {
    if firsts != [] {
      CountsForEntries(firsts[1..], rows);
      assert firsts == [firsts[0]] + firsts[1..];
    }
  }

  /** Putting a pair with a new area in front keeps the areas distinct. */
  lemma ConsDistinct(x: (string, nat), rest: seq<(string, nat)>)
    requires forall k, l :: 0 <= k < l < |rest| ==> rest[k].0 != rest[l].0
    requires forall e :: e in rest ==> e.0 != x.0
    ensures forall k, l :: 0 <= k < l < |[x] + rest| ==> ([x] + rest)[k].0 != ([x] + rest)[l].0
  {
    var counts := [x] + rest;
    forall k, l | 0 <= k < l < |counts| ensures counts[k].0 != counts[l].0 {
      assert counts[l] == rest[l - 1];
      if k == 0 {
        assert counts[l] in rest;
      } else {
        assert counts[k] == rest[k - 1];
      }
    }
  }

  /** Rows of `firsts` with distinct areas give pairs with distinct areas. */
  lemma {:induction false} CountsForDistinct(firsts: seq<OutcodeRow>, rows: seq<OutcodeRow>)
    requires forall k, l :: 0 <= k < l < |firsts| ==> OutcodeArea(firsts[k]) != OutcodeArea(firsts[l])
    ensures forall k, l :: 0 <= k < l < |CountsFor(firsts, rows)| ==>
              CountsFor(firsts, rows)[k].0 != CountsFor(firsts, rows)[l].0
  {
    if firsts != [] {
      var tail := firsts[1..];
      assert forall k, l :: 0 <= k < l < |tail| ==> OutcodeArea(tail[k]) != OutcodeArea(tail[l]) by {
        forall k, l | 0 <= k < l < |tail| ensures OutcodeArea(tail[k]) != OutcodeArea(tail[l]) {
          assert tail[k] == firsts[k + 1] && tail[l] == firsts[l + 1];
        }
      }
      CountsForDistinct(tail, rows);
      if HasArea(firsts[0]) {
        var a := OutcodeArea(firsts[0]).value;
        TailAvoidsHeadArea(firsts, rows);
        ConsDistinct((a, CountArea(rows, a)), CountsFor(tail, rows));
      }
    }
  }

  /** With distinct areas, no pair made from the later rows has the first row's area. */
  lemma TailAvoidsHeadArea(firsts: seq<OutcodeRow>, rows: seq<OutcodeRow>)
    requires firsts != [] && HasArea(firsts[0])
    requires forall k, l :: 0 <= k < l < |firsts| ==> OutcodeArea(firsts[k]) != OutcodeArea(firsts[l])
    ensures forall e :: e in CountsFor(firsts[1..], rows) ==> e.0 != OutcodeArea(firsts[0]).value
  {
    var tail := firsts[1..];
    CountsForEntries(tail, rows);
    forall e | e in CountsFor(tail, rows) ensures e.0 != OutcodeArea(firsts[0]).value {
      var f :| f in tail && OutcodeArea(f) == Some(e.0);
      var j :| 0 <= j < |tail| && tail[j] == f;
      assert firsts[j + 1] == f;
    }
  }

  /** `value_counts()` lists every area that occurs once, each with its number of rows, and
      nothing else. */
  lemma PrefixCountsAreValueCounts(rows: seq<OutcodeRow>)
    ensures forall k, l :: 0 <= k < l < |PrefixCounts(rows)| ==> PrefixCounts(rows)[k].0 != PrefixCounts(rows)[l].0
    ensures forall e :: e in PrefixCounts(rows) ==>
              e.1 == CountArea(rows, e.0) && exists r :: r in rows && OutcodeArea(r) == Some(e.0)
    ensures forall r :: r in rows && HasArea(r) ==>
              (OutcodeArea(r).value, CountArea(rows, OutcodeArea(r).value)) in PrefixCounts(rows)
  {
    var firsts := DropDuplicates(rows, OutcodeArea);
    CountsForDistinct(firsts, rows);
    CountsForEntries(firsts, rows);
    forall e | e in PrefixCounts(rows)
      ensures exists r :: r in rows && OutcodeArea(r) == Some(e.0)
    {
      assert Some(e.0) in KeySet(rows, OutcodeArea);
    }
    forall r | r in rows && HasArea(r)
      ensures (OutcodeArea(r).value, CountArea(rows, OutcodeArea(r).value)) in PrefixCounts(rows)
    {
      assert OutcodeArea(r) in KeySet(firsts, OutcodeArea);
      var f :| f in firsts && OutcodeArea(f) == OutcodeArea(r);
    }
  }

  /** The per-area counts add up to the number of rows that have an area. */
  lemma PrefixCountsSum(rows: seq<OutcodeRow>)
    ensures SumCounts(PrefixCounts(rows)) == |Select(rows, HasArea)|
  {
    SumCountsIsSumOfGroupSums(DropDuplicates(rows, OutcodeArea), rows);
    GroupSumsConserveTotal(rows, OutcodeArea, One);
    KeyedTotalCountsRows(rows);
  }

  /** Every kept 2021 outcode starts with a capital, so the per-prefix counts of the kept rows
      sum to the number of remaining rows. */
  lemma PrefixCountsCover2021(data: seq<OutcodeRow>)
    ensures SumCounts(PrefixCounts(Clean2021(data))) == |Clean2021(data)|
  {
    var clean := Clean2021(data);
    forall r | r in clean ensures HasArea(r) {
      var p :| p in ScotlandAreas && p <= r.outcode;
      ScotlandAreasAreCodes();
      assert r.outcode[0] == p[0];
    }
    SelectAll(clean, HasArea);
    PrefixCountsSum(clean);
  }

  // ---- 2015 and 2016: digit-strip City column, exact membership ----

  /** `info['City'] = info['Outcode'].str.strip('0123456789')`: no whitespace or case normalisation. */
  function WithCity(row: OutcodeRow): (r: OutcodeRow)
    ensures r.city == Some(Strip(row.outcode, IsDigit))
    ensures r.outcode == row.outcode && r.others == row.others
  {
    row.(city := Some(Strip(row.outcode, IsDigit)))
  }

  /** The `City` of a row is its outcode with the digits stripped from both ends. */
  predicate CityIsStripped(row: OutcodeRow) {
    row.city == Some(Strip(row.outcode, IsDigit))
  }

  lemma CitiesAreStripped(data: seq<OutcodeRow>)
    ensures forall r :: r in MapRows(data, WithCity) ==> CityIsStripped(r)
  {
    var withCity := MapRows(data, WithCity);
    forall r | r in withCity ensures CityIsStripped(r) {
      var k :| 0 <= k < |withCity| && withCity[k] == r;
      assert r == WithCity(data[k]);
    }
  }

  /** The mask `info['City'].isin(scot_postcodes)`. */
  predicate CityInScotland(row: OutcodeRow) {
    row.city.Some? && row.city.value in ScotlandAreas
  }

  /** The decision the 2015/2016 cleaning takes on one raw outcode. */
  predicate KeepsByCity(outcode: string) {
    Strip(outcode, IsDigit) in ScotlandAreas
  }

  /** `clean_2015` / `clean_2016`: the rows whose digit-stripped outcode is exactly a Scottish area. */
  function CleanByCity(data: seq<OutcodeRow>): (clean: seq<OutcodeRow>)
    ensures |clean| <= |data|
    ensures forall r :: r in clean ==> r.city.Some? && r.city.value in ScotlandAreas && r.city.value == Strip(r.outcode, IsDigit)
  {
    var withCity := MapRows(data, WithCity);
    var clean := Select(withCity, CityInScotland);
    CitiesAreStripped(data);
    clean
  }

  /** A row is kept iff its digit-stripped outcode equals a Scottish area. */
  lemma CleanByCityKeepsExactly(data: seq<OutcodeRow>, i: nat)
    requires i < |data|
    ensures WithCity(data[i]) in CleanByCity(data) <==> KeepsByCity(data[i].outcode)
  {
    var withCity := MapRows(data, WithCity);
    var row := WithCity(data[i]);
    assert withCity[i] == row;
    SelectMember(withCity, CityInScotland, row);
    CityMaskIsDecision(data[i]);
  }

  /** The mask on a row given its `City` is the decision on its raw outcode. */
  lemma CityMaskIsDecision(row: OutcodeRow)
    ensures CityInScotland(WithCity(row)) == KeepsByCity(row.outcode)
  {
  }

  /** The filter keeps the original order, and the only change to a row is the added `City`. */
  lemma CleanByCityIsSubsequence(data: seq<OutcodeRow>) returns (idx: seq<nat>)
    ensures |idx| == |CleanByCity(data)|
    ensures forall k :: 0 <= k < |idx| ==> idx[k] < |data| && CleanByCity(data)[k] == WithCity(data[idx[k]])
    ensures forall k :: 0 <= k < |idx| ==>
              CleanByCity(data)[k].outcode == data[idx[k]].outcode && CleanByCity(data)[k].others == data[idx[k]].others
    ensures forall k, l :: 0 <= k < l < |idx| ==> idx[k] < idx[l]
  {
    idx := SelectKeepsOrder(MapRows(data, WithCity), CityInScotland);
  }

  /** `strip('0123456789')` removes digits at both ends only: "EH10" becomes "EH", "1EH" becomes
      "EH", and "EC1A" keeps its inner digit. */
  lemma DigitStripExamples()
    ensures Strip("EH10", IsDigit) == "EH"
    ensures Strip("1EH", IsDigit) == "EH"
    ensures Strip("EC1A", IsDigit) == "EC1A"
  {
    StripTrailingDigits();
    StripLeadingDigit();
    StripInnerDigit();
  }

  lemma StripTrailingDigits()
    ensures Strip("EH10", IsDigit) == "EH"
  {
    var a := "EH10";
    assert TrimStart(a, IsDigit) == a;
    assert a[..3] == "EH1" && a[..3][..2] == "EH";
    assert TrimEnd("EH", IsDigit) == "EH";
    assert TrimEnd(a[..3], IsDigit) == "EH";
  }

  lemma StripLeadingDigit()
    ensures Strip("1EH", IsDigit) == "EH"
  {
    var b := "1EH";
    assert b[1..] == "EH";
    assert TrimStart("EH", IsDigit) == "EH";
    assert TrimEnd("EH", IsDigit) == "EH";
  }

  lemma StripInnerDigit()
    ensures Strip("EC1A", IsDigit) == "EC1A"
  {
    var c := "EC1A";
    assert TrimStart(c, IsDigit) == c;
    assert TrimEnd(c, IsDigit) == c;
  }
}
