/** combining_electricity_and_housing.py: electricity rows are joined to their data zone,
    consumption is summed per zone, one row per zone is kept, and the zone totals are joined
    onto the housing table, whose dwelling-type shares are parsed and flagged at 90 per cent. */
module CombiningElectricityAndHousing {
  import opened Options
  import opened Text
  import opened Tables

  // ---- the three input tables, cut to the columns the script selects ----

  /** One row of the cleaned 2023 electricity table. */
  datatype ElectricityRow = ElectricityRow(
    outcode: string, postcode: string,
    numMeters: real, totalCons: real, meanCons: real, medianCons: real)

  /** One row of the postcode lookup, cut to `Postcode` and `DataZone2011Code`. */
  datatype LookupRow = LookupRow(postcode: string, dataZone: string)

  /** One row of the housing table, cut to the data zone and the three dwelling-type shares,
      which are still text such as "93.5%". */
  datatype HouseRow = HouseRow(dataZone: string, wholeHouse: string, flat: string, caravan: string)

  // ---- the electricity side ----

  /** An electricity row after the lookup merge and the drop of the meter count, mean and
      median columns; `dataZone` is missing (NaN) when the postcode is not in the lookup. */
  datatype ZonedRow = ZonedRow(outcode: string, postcode: string, totalCons: real, dataZone: Option<string>)

  /** A zoned row with `Consumption for datazone` added; missing for rows without a zone. */
  datatype ZoneTotalRow = ZoneTotalRow(row: ZonedRow, zoneConsumption: Option<real>)

  /** A row of `data_zone_electricity` after its last column drop. */
  datatype ZoneSummary = ZoneSummary(dataZone: Option<string>, zoneConsumption: Option<real>)

  predicate SamePostcode(e: ElectricityRow, l: LookupRow) {
    e.postcode == l.postcode
  }

  /** The merged row, without the three dropped columns. */
  function Zone(e: ElectricityRow, m: Option<LookupRow>): (z: ZonedRow)
    ensures z.outcode == e.outcode && z.postcode == e.postcode && z.totalCons == e.totalCons
    ensures z.dataZone.Some? <==> m.Some?
    ensures m.Some? ==> z.dataZone == Some(m.value.dataZone)
  {
    ZonedRow(e.outcode, e.postcode, e.totalCons, if m.Some? then Some(m.value.dataZone) else None)
  }

  /** The left merge on `Postcode`, then the drop of `Num_meters`, `Mean_cons_kwh` and
      `Median_cons_kwh`. */
  function ZonedElectricity(electricity: seq<ElectricityRow>, lookup: seq<LookupRow>): (zoned: seq<ZonedRow>)
    ensures |zoned| >= |electricity|
  {
    LeftMerge(electricity, lookup, SamePostcode, Zone)
  }

  /** Every postcode occurs at most once in the lookup. */
  predicate UniquePostcodes(lookup: seq<LookupRow>) {
    forall i, j :: 0 <= i < j < |lookup| ==> lookup[i].postcode != lookup[j].postcode
  }

  /** With unique lookup postcodes, the merge keeps every electricity row once and in order,
      each carrying its postcode's data zone, or none when the postcode is not listed. */
  lemma ZonedElectricityOneToOne(electricity: seq<ElectricityRow>, lookup: seq<LookupRow>)
    requires UniquePostcodes(lookup)
    ensures var zoned := ZonedElectricity(electricity, lookup);
            && |zoned| == |electricity|
            && forall i :: 0 <= i < |electricity| ==>
                 && zoned[i].outcode == electricity[i].outcode
                 && zoned[i].postcode == electricity[i].postcode
                 && zoned[i].totalCons == electricity[i].totalCons
                 && (zoned[i].dataZone.Some? <==> exists l :: l in lookup && l.postcode == electricity[i].postcode)
                 && (forall l :: l in lookup && l.postcode == electricity[i].postcode ==> zoned[i].dataZone == Some(l.dataZone))
  {
    LeftMergeOneToOne(electricity, lookup, SamePostcode, Zone);
    forall i | 0 <= i < |electricity|
      ensures var m := FirstMatch(electricity[i], lookup, SamePostcode);
              forall l :: l in lookup && l.postcode == electricity[i].postcode ==> m == Some(l)
    {
      var e := electricity[i];
      var m := FirstMatch(e, lookup, SamePostcode);
      forall l | l in lookup && l.postcode == e.postcode ensures m == Some(l) {
        var j :| 0 <= j < |lookup| && lookup[j] == l;
        var k :| 0 <= k < |lookup| && lookup[k] == m.value;
      }
    }
  }

  /** Whatever the lookup holds, every electricity row appears in the merge, in order, with
      the zone of its first matching lookup row, or with none. */
  lemma ZonedElectricityKeepsEveryRow(electricity: seq<ElectricityRow>, lookup: seq<LookupRow>) returns (p: seq<nat>)
    ensures |p| == |electricity|
    ensures forall i :: 0 <= i < |electricity| ==>
              p[i] < |ZonedElectricity(electricity, lookup)|
              && ZonedElectricity(electricity, lookup)[p[i]] == Zone(electricity[i], FirstMatch(electricity[i], lookup, SamePostcode))
    ensures forall i, j :: 0 <= i < j < |electricity| ==> p[i] < p[j]
  {
    p := LeftMergeKeepsLeft(electricity, lookup, SamePostcode, Zone);
  }

  function ZoneOf(z: ZonedRow): Option<string> {
    z.dataZone
  }

  function Consumption(z: ZonedRow): real {
    z.totalCons
  }

  /** `groupby('DataZone2011Code')['Total_cons_kwh'].transform('sum')` for one row of `zoned`. */
  function WithZoneTotal(zoned: seq<ZonedRow>, z: ZonedRow): ZoneTotalRow {
    ZoneTotalRow(z, if z.dataZone.Some? then Some(GroupSum(zoned, ZoneOf, Consumption, z.dataZone.value)) else None)
  }

  /** The zoned table with the `Consumption for datazone` column added. */
  function ZoneTotals(zoned: seq<ZonedRow>): (totals: seq<ZoneTotalRow>)
    ensures |totals| == |zoned|
    ensures forall i :: 0 <= i < |zoned| ==> totals[i].row == zoned[i]
  {
    MapRows(zoned, z => WithZoneTotal(zoned, z))
  }

  /** Each row's zone consumption is the total consumption of the rows `df[df.zone == zone]`
      of its own zone; a row without a zone gets none, and rows sharing a zone get the same. */
  lemma ZoneTotalIsZoneSum(zoned: seq<ZonedRow>, i: nat)
    requires i < |zoned|
    ensures var t := ZoneTotals(zoned)[i];
            && (t.zoneConsumption.Some? <==> zoned[i].dataZone.Some?)
            && (zoned[i].dataZone.Some? ==>
                  t.zoneConsumption.value
                  == Total(Select(zoned, (x: ZonedRow) => x.dataZone == zoned[i].dataZone), Consumption))
            && forall j :: 0 <= j < |zoned| && zoned[j].dataZone == zoned[i].dataZone ==>
                 ZoneTotals(zoned)[j].zoneConsumption == t.zoneConsumption
  {
    if zoned[i].dataZone.Some? {
      var zone := zoned[i].dataZone.value;
      GroupSumIsFilteredTotal(zoned, ZoneOf, Consumption, zone, (x: ZonedRow) => x.dataZone == zoned[i].dataZone);
    }
  }

  function TotalKey(t: ZoneTotalRow): Option<string> {
    t.row.dataZone
  }

  function Summarise(t: ZoneTotalRow): (s: ZoneSummary)
    ensures s.dataZone == t.row.dataZone && s.zoneConsumption == t.zoneConsumption
  {
    ZoneSummary(t.row.dataZone, t.zoneConsumption)
  }

  function SummaryKey(s: ZoneSummary): Option<string> {
    s.dataZone
  }

  /** `drop_duplicates('DataZone2011Code')`, then the drop of `Outcode`, `Postcode` and
      `Total_cons_kwh`: one row per distinct data zone, rows without a zone counting as one
      more zone, as pandas treats missing keys as equal. */
  function DataZoneElectricity(zoned: seq<ZonedRow>): (summary: seq<ZoneSummary>)
    ensures |summary| <= |zoned|
    ensures forall k, l :: 0 <= k < l < |summary| ==> summary[k].dataZone != summary[l].dataZone
  {
    var firsts := DropDuplicates(ZoneTotals(zoned), TotalKey);
    MapRows(firsts, Summarise)
  }

  /** The summary holds exactly the zones of the zoned table. */
  lemma DataZoneElectricityZones(zoned: seq<ZonedRow>)
    ensures KeySet(DataZoneElectricity(zoned), SummaryKey) == KeySet(zoned, ZoneOf)
  {
    var totals := ZoneTotals(zoned);
    var firsts := DropDuplicates(totals, TotalKey);
    MapRowsKeys(firsts, Summarise, TotalKey, SummaryKey);
    forall t | t in totals ensures TotalKey(t) in KeySet(zoned, ZoneOf) {
      var k :| 0 <= k < |totals| && totals[k] == t;
      assert zoned[k] in zoned;
    }
    forall z | z in zoned ensures ZoneOf(z) in KeySet(totals, TotalKey) {
      var k :| 0 <= k < |zoned| && zoned[k] == z;
      assert totals[k] in totals;
    }
  }

  /** The de-duplicated summary is the first zoned row of every zone, with its zone total:
      the de-duplication could equally be done before the totals are added. */
  lemma DataZoneElectricityIsFirstRows(zoned: seq<ZonedRow>) returns (idx: seq<nat>)
    ensures var firsts := DropDuplicates(zoned, ZoneOf);
            DataZoneElectricity(zoned) == MapRows(firsts, z => Summarise(WithZoneTotal(zoned, z)))
    ensures Embeds(DropDuplicates(zoned, ZoneOf), zoned, idx) && FirstOccurrences(zoned, ZoneOf, idx)
  {
    var f := z => WithZoneTotal(zoned, z);
    DedupFromMap(zoned, f, ZoneOf, TotalKey, {});
    var firsts := DropDuplicates(zoned, ZoneOf);
    assert MapRows(MapRows(firsts, f), Summarise) == MapRows(firsts, z => Summarise(WithZoneTotal(zoned, z)));
    idx := DropDuplicatesFirstOccurrences(zoned, ZoneOf);
  }

  /** The sum of the zone consumptions present in the summary. */
  function SummaryTotal(summary: seq<ZoneSummary>): real {
    if summary == [] then 0.0
    else (if summary[0].zoneConsumption.Some? then summary[0].zoneConsumption.value else 0.0)
         + SummaryTotal(summary[1..])
  }

  lemma {:induction false} SummaryTotalOfFirsts(firsts: seq<ZonedRow>, zoned: seq<ZonedRow>)
    ensures SummaryTotal(MapRows(firsts, z => Summarise(WithZoneTotal(zoned, z))))
            == SumOfGroupSums(firsts, zoned, ZoneOf, Consumption)
  {
    if firsts != [] {
      var g := z => Summarise(WithZoneTotal(zoned, z));
      MapRowsTail(firsts, g);
      assert MapRows(firsts, g)[1..] == MapRows(firsts[1..], g);
      SummaryTotalOfFirsts(firsts[1..], zoned);
    }
  }

  /** Nothing is lost or counted twice: the zone totals of `data_zone_electricity` add up to
      the consumption of all electricity rows that have a data zone. */
  lemma ZoneTotalsConserveConsumption(zoned: seq<ZonedRow>)
    ensures SummaryTotal(DataZoneElectricity(zoned)) == KeyedTotal(zoned, ZoneOf, Consumption)
  {
    var _ := DataZoneElectricityIsFirstRows(zoned);
    SummaryTotalOfFirsts(DropDuplicates(zoned, ZoneOf), zoned);
    GroupSumsConserveTotal(zoned, ZoneOf, Consumption);
  }

  // ---- the housing side ----

  /** A housing row after the merge with `data_zone_electricity`: the right table's zone code
      and zone consumption, both missing when the zone has no electricity rows. */
  datatype HouseZoneRow = HouseZoneRow(house: HouseRow, zoneCode: Option<string>, zoneConsumption: Option<real>)

  predicate SameZone(h: HouseRow, s: ZoneSummary) {
    s.dataZone == Some(h.dataZone)
  }

  function JoinZone(h: HouseRow, m: Option<ZoneSummary>): (r: HouseZoneRow)
    ensures r.house == h
    ensures m.None? ==> r.zoneCode.None? && r.zoneConsumption.None?
    ensures m.Some? ==> r.zoneCode == m.value.dataZone && r.zoneConsumption == m.value.zoneConsumption
  {
    match m
    case None => HouseZoneRow(h, None, None)
    case Some(s) => HouseZoneRow(h, s.dataZone, s.zoneConsumption)
  }

  /** `house_data.merge(..., left_on='Data Zone', right_on='DataZone2011Code', how='left')`. */
  function HouseDataElectricity(house: seq<HouseRow>, summary: seq<ZoneSummary>): (merged: seq<HouseZoneRow>)
    ensures |merged| >= |house|
  {
    LeftMerge(house, summary, SameZone, JoinZone)
  }

  /** The house merge keeps every housing row once and in order, because the summary holds
      each zone at most once; a row gets its zone's total consumption, or nothing. */
  lemma HouseMergeOneToOne(house: seq<HouseRow>, zoned: seq<ZonedRow>)
    ensures var summary := DataZoneElectricity(zoned);
            var merged := HouseDataElectricity(house, summary);
            && |merged| == |house|
            && forall i :: 0 <= i < |house| ==>
                 && merged[i].house == house[i]
                 && (merged[i].zoneCode.Some? <==> exists z :: z in zoned && z.dataZone == Some(house[i].dataZone))
                 && (merged[i].zoneCode.Some? ==> merged[i].zoneCode == Some(house[i].dataZone))
                 && (forall s :: s in summary && s.dataZone == Some(house[i].dataZone) ==> merged[i].zoneConsumption == s.zoneConsumption)
                 && (merged[i].zoneCode.Some? ==>
                       merged[i].zoneConsumption == Some(GroupSum(zoned, ZoneOf, Consumption, house[i].dataZone)))
  {
    var summary := DataZoneElectricity(zoned);
    assert UniqueMatches(house, summary, SameZone) by {
      forall h, i, j | h in house && 0 <= i < j < |summary| && SameZone(h, summary[i])
        ensures !SameZone(h, summary[j])
      {
        assert summary[i].dataZone != summary[j].dataZone;
      }
    }
    LeftMergeOneToOne(house, summary, SameZone, JoinZone);
    SummaryCarriesZoneTotals(zoned);
    forall i | 0 <= i < |house|
      ensures var m := FirstMatch(house[i], summary, SameZone);
              && (m.Some? <==> exists z :: z in zoned && z.dataZone == Some(house[i].dataZone))
              && (forall s :: s in summary && s.dataZone == Some(house[i].dataZone) ==> m == Some(s))
              && (m.Some? ==> m.value.zoneConsumption == Some(GroupSum(zoned, ZoneOf, Consumption, house[i].dataZone)))
    {
      SummaryMatch(house[i], zoned);
    }
  }

  /** Every summary row with a zone carries that zone's total consumption. */
  lemma SummaryCarriesZoneTotals(zoned: seq<ZonedRow>)
    ensures forall s :: s in DataZoneElectricity(zoned) && s.dataZone.Some? ==>
              s.zoneConsumption == Some(GroupSum(zoned, ZoneOf, Consumption, s.dataZone.value))
  {
    var summary := DataZoneElectricity(zoned);
    var _ := DataZoneElectricityIsFirstRows(zoned);
    var firsts := DropDuplicates(zoned, ZoneOf);
    forall s | s in summary && s.dataZone.Some?
      ensures s.zoneConsumption == Some(GroupSum(zoned, ZoneOf, Consumption, s.dataZone.value))
    {
      var k :| 0 <= k < |summary| && summary[k] == s;
      assert s == Summarise(WithZoneTotal(zoned, firsts[k]));
    }
  }

  /** The summary row a housing row is joined with: there is one iff some electricity row is
      in the housing row's zone, and it is the only summary row of that zone. */
  lemma SummaryMatch(h: HouseRow, zoned: seq<ZonedRow>)
    ensures var summary := DataZoneElectricity(zoned);
            var m := FirstMatch(h, summary, SameZone);
            && (m.Some? <==> exists z :: z in zoned && z.dataZone == Some(h.dataZone))
            && forall s :: s in summary && s.dataZone == Some(h.dataZone) ==> m == Some(s)
  {
    var summary := DataZoneElectricity(zoned);
    var m := FirstMatch(h, summary, SameZone);
    var zones := KeySet(summary, SummaryKey);
    DataZoneElectricityZones(zoned);
    if exists z :: z in zoned && z.dataZone == Some(h.dataZone) {
      var z :| z in zoned && z.dataZone == Some(h.dataZone);
      assert ZoneOf(z) in KeySet(zoned, ZoneOf);
      var s :| s in summary && SummaryKey(s) == Some(h.dataZone);
      assert SameZone(h, s);
    }
    if m.Some? {
      assert SummaryKey(m.value) in zones;
      var z :| z in zoned && ZoneOf(z) == m.value.dataZone;
    }
    forall s | s in summary && s.dataZone == Some(h.dataZone) ensures m == Some(s) {
      var j :| 0 <= j < |summary| && summary[j] == s;
      var k :| 0 <= k < |summary| && summary[k] == m.value;
    }
  }

  // ---- shares and flags ----

  /** `.str.rstrip('%').astype(float)`: every trailing per-cent sign removed, then the text
      read as a number by `parse`. */
  function Share(text: string, parse: string -> real): real {
    parse(TrimEnd(text, IsPercent))
  }

  /** The only characters `rstrip('%')` removes are trailing per-cent signs. */
  lemma ShareStripsOnlyTrailingPercent(text: string)
    ensures var kept := TrimEnd(text, IsPercent);
            && text == kept + seq(|text| - |kept|, _ => '%')
            && (kept == [] || kept[|kept| - 1] != '%')
  {
    var kept := TrimEnd(text, IsPercent);
    assert text == kept + text[|kept|..];
    assert text[|kept|..] == seq(|text| - |kept|, _ => '%');
  }

  /** `(share >= 90).astype(int)`. */
  function Flag(share: real): (f: int)
    ensures f == 0 || f == 1
    ensures f == 1 <==> share >= 90.0
  {
    if share >= 90.0 then 1 else 0
  }

  /** A merged housing row with its three shares parsed and its three flags added. */
  datatype FlaggedRow = FlaggedRow(
    dataZone: string, wholeHouse: real, flat: real, caravan: real,
    zoneCode: Option<string>, zoneConsumption: Option<real>,
    wholeHouseFlag: int, flatsFlag: int, otherFlag: int)

  function FlagRow(r: HouseZoneRow, parse: string -> real): (f: FlaggedRow)
    ensures f.dataZone == r.house.dataZone && f.zoneCode == r.zoneCode && f.zoneConsumption == r.zoneConsumption
    ensures f.wholeHouse == Share(r.house.wholeHouse, parse)
    ensures f.flat == Share(r.house.flat, parse)
    ensures f.caravan == Share(r.house.caravan, parse)
  {
    var whole := Share(r.house.wholeHouse, parse);
    var flat := Share(r.house.flat, parse);
    var caravan := Share(r.house.caravan, parse);
    FlaggedRow(r.house.dataZone, whole, flat, caravan, r.zoneCode, r.zoneConsumption,
               Flag(whole), Flag(flat), Flag(caravan))
  }

  /** The three share columns converted and the `Whole House`, `Flats` and `Other` flags added. */
  function Flagged(merged: seq<HouseZoneRow>, parse: string -> real): (rows: seq<FlaggedRow>)
    ensures |rows| == |merged|
    ensures forall i :: 0 <= i < |merged| ==> rows[i] == FlagRow(merged[i], parse)
  {
    MapRows(merged, r => FlagRow(r, parse))
  }

  /** Every flag is 0 or 1, and 1 exactly when its share is at least 90. */
  lemma FlagsAreThresholds(merged: seq<HouseZoneRow>, parse: string -> real)
    ensures forall r :: r in Flagged(merged, parse) ==>
              && (r.wholeHouseFlag == 0 || r.wholeHouseFlag == 1)
              && (r.flatsFlag == 0 || r.flatsFlag == 1)
              && (r.otherFlag == 0 || r.otherFlag == 1)
              && (r.wholeHouseFlag == 1 <==> r.wholeHouse >= 90.0)
              && (r.flatsFlag == 1 <==> r.flat >= 90.0)
              && (r.otherFlag == 1 <==> r.caravan >= 90.0)
  {
    var rows := Flagged(merged, parse);
    forall r | r in rows
      ensures && (r.wholeHouseFlag == 1 <==> r.wholeHouse >= 90.0)
              && (r.flatsFlag == 1 <==> r.flat >= 90.0)
              && (r.otherFlag == 1 <==> r.caravan >= 90.0)
              && (r.wholeHouseFlag == 0 || r.wholeHouseFlag == 1)
              && (r.flatsFlag == 0 || r.flatsFlag == 1)
              && (r.otherFlag == 0 || r.otherFlag == 1)
    {
      var i :| 0 <= i < |rows| && rows[i] == r;
      assert r == FlagRow(merged[i], parse);
    }
  }

  predicate IsFlat(r: FlaggedRow) {
    r.flatsFlag == 1
  }

  predicate IsWholeHouse(r: FlaggedRow) {
    r.wholeHouseFlag == 1
  }

  /** `flat_electricity`: the zones where flats make up at least 90 per cent of dwellings. */
  function FlatElectricity(rows: seq<FlaggedRow>): (flats: seq<FlaggedRow>)
    ensures |flats| <= |rows|
    ensures forall r :: r in flats ==> r in rows && r.flatsFlag == 1
  {
    Select(rows, IsFlat)
  }

  /** `whole_house_electricity`: the zones where whole houses make up at least 90 per cent. */
  function WholeHouseElectricity(rows: seq<FlaggedRow>): (houses: seq<FlaggedRow>)
    ensures |houses| <= |rows|
    ensures forall r :: r in houses ==> r in rows && r.wholeHouseFlag == 1
  {
    Select(rows, IsWholeHouse)
  }

  /** Both flag filters keep rows in order, change no column, and keep every row whose
      share reaches 90: in the flagged table a row is kept iff its share is at least 90. */
  lemma FlagFiltersAreSubsequences(merged: seq<HouseZoneRow>, parse: string -> real)
    returns (flatIdx: seq<nat>, houseIdx: seq<nat>)
    ensures Embeds(FlatElectricity(Flagged(merged, parse)), Flagged(merged, parse), flatIdx)
    ensures Embeds(WholeHouseElectricity(Flagged(merged, parse)), Flagged(merged, parse), houseIdx)
    ensures forall r :: r in Flagged(merged, parse) ==> (r in FlatElectricity(Flagged(merged, parse)) <==> r.flat >= 90.0)
    ensures forall r :: r in Flagged(merged, parse) ==>
              (r in WholeHouseElectricity(Flagged(merged, parse)) <==> r.wholeHouse >= 90.0)
  {
    var rows := Flagged(merged, parse);
    flatIdx := SelectKeepsOrder(rows, IsFlat);
    houseIdx := SelectKeepsOrder(rows, IsWholeHouse);
    FlagsAreThresholds(merged, parse);
    forall r | r in rows ensures r in FlatElectricity(rows) <==> r.flat >= 90.0 {
      SelectMember(rows, IsFlat, r);
    }
    forall r | r in rows ensures r in WholeHouseElectricity(rows) <==> r.wholeHouse >= 90.0 {
      SelectMember(rows, IsWholeHouse, r);
    }
  }

  /** The whole script on its three inputs: the flagged housing table, every housing row
      once and in order. */
  function HouseDataFlagged(
    electricity: seq<ElectricityRow>, lookup: seq<LookupRow>, house: seq<HouseRow>, parse: string -> real)
    : (rows: seq<FlaggedRow>)
    ensures |rows| >= |house|
  {
    var summary := DataZoneElectricity(ZonedElectricity(electricity, lookup));
    Flagged(HouseDataElectricity(house, summary), parse)
  }

  /** End to end: one flagged row per housing row, in order, carrying that row's data zone. */
  lemma HouseDataFlaggedOneToOne(
    electricity: seq<ElectricityRow>, lookup: seq<LookupRow>, house: seq<HouseRow>, parse: string -> real)
    ensures var rows := HouseDataFlagged(electricity, lookup, house, parse);
            && |rows| == |house|
            && forall i :: 0 <= i < |house| ==> rows[i].dataZone == house[i].dataZone
  {
    HouseMergeOneToOne(house, ZonedElectricity(electricity, lookup));
  }
}
