/** `main` of visualisation_code_plot/year_on_year_analysis.py: the nine year columns, the
    missing-column check, the pivot by council, the year-on-year change and percentage
    columns, and the 2022 to 2023 percentages sorted for the bar chart. */
module YearOnYear {
  import opened Options
  import opened Text
  import opened Tables
  import opened Floats
  import opened Dicts

  // ---- the year column names ----

  function DigitChar(d: nat): (c: char)
    requires d < 10
    ensures IsDigit(c) && c as int - '0' as int == d
  {
    ('0' as int + d) as char
  }

  /** `str(n)`: the decimal digits of `n`, without leading zeros. */
  function DecimalString(n: nat): (s: string)
    ensures |s| >= 1 && forall k :: 0 <= k < |s| ==> IsDigit(s[k])
    ensures n > 0 ==> s[0] != '0'
  {
    if n < 10 then [DigitChar(n)] else DecimalString(n / 10) + [DigitChar(n % 10)]
  }

  function DigitValue(c: char): nat
    requires IsDigit(c)
  {
    c as int - '0' as int
  }

  /** The number a string of decimal digits spells. */
  function DecimalValue(s: string): nat
    requires forall k :: 0 <= k < |s| ==> IsDigit(s[k])
  {
    if s == [] then 0 else DecimalValue(s[..|s| - 1]) * 10 + DigitValue(s[|s| - 1])
  }

  /** Reading back the digits of `str(n)` gives `n`. */
  lemma {:induction false} DecimalRoundTrip(n: nat)
    ensures DecimalValue(DecimalString(n)) == n
  {
    if n >= 10 {
      var s := DecimalString(n);
      assert s[..|s| - 1] == DecimalString(n / 10);
      DecimalRoundTrip(n / 10);
    }
  }

  /** A four-digit number is written with exactly four digits. */
  lemma FourDigits(n: nat)
    requires 1000 <= n < 10000
    ensures DecimalString(n) == [DigitChar(n / 1000), DigitChar(n / 100 % 10), DigitChar(n / 10 % 10), DigitChar(n % 10)]
  {
    assert n / 10 / 10 == n / 100 && n / 100 / 10 == n / 1000;
    assert DecimalString(n) == DecimalString(n / 10) + [DigitChar(n % 10)];
    assert DecimalString(n / 10) == DecimalString(n / 100) + [DigitChar(n / 10 % 10)];
    assert DecimalString(n / 100) == DecimalString(n / 1000) + [DigitChar(n / 100 % 10)];
    assert DecimalString(n / 1000) == [DigitChar(n / 1000)];
  }

  /** `[str(y) for y in range(2015, 2024)]`. */
  function YearColumns(): (years: seq<string>)
    ensures |years| == 9
  {
    seq(9, j requires 0 <= j < 9 => DecimalString(2015 + j))
  }

  /** Year column `j` is 2, 0 and the two digits of 15 + j. */
  lemma YearColumn(j: nat)
    requires j < 9
    ensures YearColumns()[j] == [DigitChar(2), DigitChar(0), DigitChar((15 + j) / 10), DigitChar((5 + j) % 10)]
    ensures DecimalValue(YearColumns()[j]) == 2015 + j
  {
    FourDigits(2015 + j);
    YearDigits(j);
    DecimalRoundTrip(2015 + j);
  }

  lemma YearDigits(j: nat)
    requires j < 9
    ensures (2015 + j) / 1000 == 2 && (2015 + j) / 100 % 10 == 0
    ensures (2015 + j) / 10 % 10 == (15 + j) / 10 && (2015 + j) % 10 == (5 + j) % 10
  {
  }

  /** The year columns are "2015" to "2023", in ascending order of the years they name. */
  lemma YearColumnsAreTheYears()
    ensures YearColumns() == ["2015", "2016", "2017", "2018", "2019", "2020", "2021", "2022", "2023"]
    ensures forall j :: 0 <= j < 9 ==> DecimalValue(YearColumns()[j]) == 2015 + j
  {
    forall j | 0 <= j < 9 ensures DecimalValue(YearColumns()[j]) == 2015 + j {
      YearColumn(j);
    }
    YearColumnsLow();
    YearColumnsHigh();
  }

  lemma YearColumnsLow()
    ensures YearColumns()[..5] == ["2015", "2016", "2017", "2018", "2019"]
  {
    YearColumn(0);
    YearColumn(1);
    YearColumn(2);
    YearColumn(3);
    YearColumn(4);
  }

  lemma YearColumnsHigh()
    ensures YearColumns()[5..] == ["2020", "2021", "2022", "2023"]
  {
    YearColumn(5);
    YearColumn(6);
    YearColumn(7);
    YearColumn(8);
  }

  // ---- columns ----

  /** Named float columns in insertion order: the pivot table's columns, and the two dicts
      of results. */
  type Columns = Dict<seq<Float>>

  /** Every column holds `rows` values. */
  predicate Rows(d: Columns, rows: nat) {
    forall k :: k in d.entries ==> |d.entries[k]| == rows
  }

  /** Every year named has a column. */
  predicate HasYears(d: Columns, years: seq<string>) {
    forall y :: y in years ==> y in d.entries
  }

  // ---- the change and percentage of one council ----

  /** `pivot[curr] - pivot[prev]` for one council. */
  function Change(prev: Float, curr: Float): Float {
    Sub(curr, prev)
  }

  /** `(pivot[curr] - pivot[prev]) / pivot[prev] * 100` for one council. */
  function Percent(prev: Float, curr: Float): Float {
    Scale(Div(Sub(curr, prev), prev), 100.0)
  }

  /** For consumptions on record, the change is the difference, and the percentage is the
      difference relative to the previous year when that is not zero. */
  lemma ChangeAndPercentOfNumbers(p: real, c: real)
    ensures Change(Num(p), Num(c)) == Num(c - p)
    ensures p != 0.0 ==> Percent(Num(p), Num(c)) == Num((c - p) / p * 100.0)
  {
  }

  /** When the previous year is positive, the percentage has the sign of the change. */
  lemma PercentHasSignOfChange(p: real, c: real)
    requires p > 0.0
    ensures var pct := Percent(Num(p), Num(c)).value;
            && (pct > 0.0 <==> c > p)
            && (pct < 0.0 <==> c < p)
            && (pct == 0.0 <==> c == p)
  {
    var q := (c - p) / p;
    assert q * p == c - p;
    if c > p {
      assert q > 0.0;
    } else if c < p {
      assert q < 0.0;
    }
  }

  /** A previous year of zero gives an infinite percentage of the change's sign, or NaN
      when nothing changed; a missing value on either side gives NaN. */
  lemma PercentFromZeroOrMissing(c: real, a: Float)
    ensures Percent(Num(0.0), Num(c)) == (if c > 0.0 then PosInf else if c < 0.0 then NegInf else NaN)
    ensures Percent(NaN, a).NaN? && Percent(a, NaN).NaN?
    ensures Change(NaN, a).NaN? && Change(a, NaN).NaN?
  {
  }

  /** `pivot[curr] - pivot[prev]`, council by council. */
  function ChangeColumn(prev: seq<Float>, curr: seq<Float>): (r: seq<Float>)
    requires |prev| == |curr|
    ensures |r| == |prev|
    decreases |prev|
  {
    if prev == [] then [] else [Change(prev[0], curr[0])] + ChangeColumn(prev[1..], curr[1..])
  }

  /** `(pivot[curr] - pivot[prev]) / pivot[prev] * 100`, council by council. */
  function PercentColumn(prev: seq<Float>, curr: seq<Float>): (r: seq<Float>)
    requires |prev| == |curr|
    ensures |r| == |prev|
    decreases |prev|
  {
    if prev == [] then [] else [Percent(prev[0], curr[0])] + PercentColumn(prev[1..], curr[1..])
  }

  /** Each council's change stands at that council's place: the columns stay aligned. */
  lemma {:induction false} ChangeColumnAligned(prev: seq<Float>, curr: seq<Float>)
    requires |prev| == |curr|
    ensures forall k :: 0 <= k < |prev| ==> ChangeColumn(prev, curr)[k] == Change(prev[k], curr[k])
    decreases |prev|
  {
    if prev != [] {
      ChangeColumnAligned(prev[1..], curr[1..]);
    }
  }

  /** Each council's percentage stands at that council's place. */
  lemma {:induction false} PercentColumnAligned(prev: seq<Float>, curr: seq<Float>)
    requires |prev| == |curr|
    ensures forall k :: 0 <= k < |prev| ==> PercentColumn(prev, curr)[k] == Percent(prev[k], curr[k])
    decreases |prev|
  {
    if prev != [] {
      PercentColumnAligned(prev[1..], curr[1..]);
    }
  }

  // ---- the year-on-year loop ----

  /** `f"Change_{prev}_{curr}"`. */
  function ChangeName(prev: string, curr: string): string {
    "Change_" + prev + "_" + curr
  }

  /** `f"Percent_{prev}_{curr}"`. */
  function PercentName(prev: string, curr: string): string {
    "Percent_" + prev + "_" + curr
  }

  /** The number of passes of `for i in range(1, len(years))`. */
  function Passes(years: seq<string>): nat {
    if years == [] then 0 else |years| - 1
  }

  /** The key each pass writes into `yoy_kwh`, pass by pass. */
  function ChangeNames(years: seq<string>): (names: seq<string>)
    ensures |names| == Passes(years)
  {
    seq(Passes(years), j requires 0 <= j < Passes(years) => ChangeName(years[j], years[j + 1]))
  }

  /** The key each pass writes into `yoy_pct`, pass by pass. */
  function PercentNames(years: seq<string>): (names: seq<string>)
    ensures |names| == Passes(years)
  {
    seq(Passes(years), j requires 0 <= j < Passes(years) => PercentName(years[j], years[j + 1]))
  }

  /** The value each pass writes into `yoy_kwh`. */
  function ChangeColumns(cols: Columns, years: seq<string>, rows: nat): (values: seq<seq<Float>>)
    requires Rows(cols, rows) && HasYears(cols, years)
    ensures |values| == Passes(years) && forall j :: 0 <= j < |values| ==> |values[j]| == rows
  {
    seq(Passes(years), j requires 0 <= j < Passes(years) =>
      ChangeColumn(cols.entries[years[j]], cols.entries[years[j + 1]]))
  }

  /** The value each pass writes into `yoy_pct`. */
  function PercentColumns(cols: Columns, years: seq<string>, rows: nat): (values: seq<seq<Float>>)
    requires Rows(cols, rows) && HasYears(cols, years)
    ensures |values| == Passes(years) && forall j :: 0 <= j < |values| ==> |values[j]| == rows
  {
    seq(Passes(years), j requires 0 <= j < Passes(years) =>
      PercentColumn(cols.entries[years[j]], cols.entries[years[j + 1]]))
  }

  /** `yoy_kwh` after the first `n` passes. */
  function Changes(cols: Columns, years: seq<string>, rows: nat, n: nat): Columns
    requires Rows(cols, rows) && HasYears(cols, years) && n <= Passes(years)
  {
    Assigned(ChangeNames(years), ChangeColumns(cols, years, rows), n)
  }

  /** `yoy_pct` after the first `n` passes. */
  function Percents(cols: Columns, years: seq<string>, rows: nat, n: nat): Columns
    requires Rows(cols, rows) && HasYears(cols, years) && n <= Passes(years)
  {
    Assigned(PercentNames(years), PercentColumns(cols, years, rows), n)
  }

  /** The loop of the analysis: `yoy_kwh` and `yoy_pct` filled pass by pass from the
      pivot's year columns. */
  method YearOnYearChanges(pivot: PivotTable, years: seq<string>) returns (kwh: Columns, pct: Columns)
    requires pivot.Valid() && HasYears(pivot.columns, years)
    ensures kwh == Changes(pivot.columns, years, |pivot.index|, Passes(years))
    ensures pct == Percents(pivot.columns, years, |pivot.index|, Passes(years))
  {
    kwh := Empty();
    pct := Empty();
    var i := 1;
    while i < |years|
      invariant 1 <= i && i - 1 <= Passes(years)
      invariant i < |years| || i - 1 == Passes(years)
      invariant kwh == Changes(pivot.columns, years, |pivot.index|, i - 1)
      invariant pct == Percents(pivot.columns, years, |pivot.index|, i - 1)
    {
      var prev := years[i - 1];
      var curr := years[i];
      ChangePass(pivot.columns, years, |pivot.index|, i);
      PercentPass(pivot.columns, years, |pivot.index|, i);
      kwh := SetItem(kwh, ChangeName(prev, curr), ChangeColumn(pivot.columns.entries[prev], pivot.columns.entries[curr]));
      pct := SetItem(pct, PercentName(prev, curr), PercentColumn(pivot.columns.entries[prev], pivot.columns.entries[curr]));
      i := i + 1;
    }
  }

  /** Pass `n` writes the `n`-th pair's changes under its name. */
  lemma ChangePass(cols: Columns, years: seq<string>, rows: nat, n: nat)
    requires Rows(cols, rows) && HasYears(cols, years) && 0 < n <= Passes(years)
    ensures Changes(cols, years, rows, n)
              == SetItem(Changes(cols, years, rows, n - 1), ChangeName(years[n - 1], years[n]),
                         ChangeColumn(cols.entries[years[n - 1]], cols.entries[years[n]]))
  {
    ChangeWrites(cols, years, rows, n);
    ChangeNameAt(years, n);
    ChangeColumnAt(cols, years, rows, n);
  }

  /** Pass `n` writes the `n`-th pair's percentages under its name. */
  lemma PercentPass(cols: Columns, years: seq<string>, rows: nat, n: nat)
    requires Rows(cols, rows) && HasYears(cols, years) && 0 < n <= Passes(years)
    ensures Percents(cols, years, rows, n)
              == SetItem(Percents(cols, years, rows, n - 1), PercentName(years[n - 1], years[n]),
                         PercentColumn(cols.entries[years[n - 1]], cols.entries[years[n]]))
  {
    PercentWrites(cols, years, rows, n);
    PercentNameAt(years, n);
    PercentColumnAt(cols, years, rows, n);
  }

  /** One unfolding of `Changes`; a separate step only to keep the proof of `ChangePass` small. */
  lemma ChangeWrites(cols: Columns, years: seq<string>, rows: nat, n: nat)
    requires Rows(cols, rows) && HasYears(cols, years) && 0 < n <= Passes(years)
    ensures Changes(cols, years, rows, n)
              == SetItem(Changes(cols, years, rows, n - 1), ChangeNames(years)[n - 1], ChangeColumns(cols, years, rows)[n - 1])
  {
  }

  /** One unfolding of `Percents`; a separate step only to keep the proof of `PercentPass` small. */
  lemma PercentWrites(cols: Columns, years: seq<string>, rows: nat, n: nat)
    requires Rows(cols, rows) && HasYears(cols, years) && 0 < n <= Passes(years)
    ensures Percents(cols, years, rows, n)
              == SetItem(Percents(cols, years, rows, n - 1), PercentNames(years)[n - 1], PercentColumns(cols, years, rows)[n - 1])
  {
  }

  /** One entry of `ChangeNames`; a separate step only to keep the proof of `ChangePass` small. */
  lemma ChangeNameAt(years: seq<string>, n: nat)
    requires 0 < n <= Passes(years)
    ensures ChangeNames(years)[n - 1] == ChangeName(years[n - 1], years[n])
  {
  }

  /** One entry of `PercentNames`; a separate step only to keep the proof of `PercentPass` small. */
  lemma PercentNameAt(years: seq<string>, n: nat)
    requires 0 < n <= Passes(years)
    ensures PercentNames(years)[n - 1] == PercentName(years[n - 1], years[n])
  {
  }

  /** One entry of `ChangeColumns`; a separate step only to keep the proof of `ChangePass` small. */
  lemma ChangeColumnAt(cols: Columns, years: seq<string>, rows: nat, n: nat)
    requires Rows(cols, rows) && HasYears(cols, years) && 0 < n <= Passes(years)
    ensures ChangeColumns(cols, years, rows)[n - 1] == ChangeColumn(cols.entries[years[n - 1]], cols.entries[years[n]])
  {
  }

  /** One entry of `PercentColumns`; a separate step only to keep the proof of `PercentPass` small. */
  lemma PercentColumnAt(cols: Columns, years: seq<string>, rows: nat, n: nat)
    requires Rows(cols, rows) && HasYears(cols, years) && 0 < n <= Passes(years)
    ensures PercentColumns(cols, years, rows)[n - 1] == PercentColumn(cols.entries[years[n - 1]], cols.entries[years[n]])
  {
  }

  /** When the pair names do not repeat, every pass adds its own entry: `yoy_kwh` holds the
      change names in pass order, each with the changes its pass computed. */
  lemma OneChangePerPair(cols: Columns, years: seq<string>, rows: nat)
    requires Rows(cols, rows) && HasYears(cols, years) && Distinct(ChangeNames(years))
    ensures var kwh := Changes(cols, years, rows, Passes(years));
            && kwh.keys == ChangeNames(years)
            && forall j :: 0 <= j < Passes(years) ==> kwh.entries[ChangeNames(years)[j]] == ChangeColumns(cols, years, rows)[j]
  {
    AssignedEvery(ChangeNames(years), ChangeColumns(cols, years, rows));
  }

  /** The same for `yoy_pct`: the percentage names in pass order, each with the percentages
      its pass computed. */
  lemma OnePercentPerPair(cols: Columns, years: seq<string>, rows: nat)
    requires Rows(cols, rows) && HasYears(cols, years) && Distinct(PercentNames(years))
    ensures var pct := Percents(cols, years, rows, Passes(years));
            && pct.keys == PercentNames(years)
            && forall j :: 0 <= j < Passes(years) ==> pct.entries[PercentNames(years)[j]] == PercentColumns(cols, years, rows)[j]
  {
    AssignedEvery(PercentNames(years), PercentColumns(cols, years, rows));
  }

  /** Every result column has one value per council. */
  lemma ResultsKeepRows(cols: Columns, years: seq<string>, rows: nat)
    requires Rows(cols, rows) && HasYears(cols, years)
    ensures Rows(Changes(cols, years, rows, Passes(years)), rows)
    ensures Rows(Percents(cols, years, rows, Passes(years)), rows)
  {
    var n := Passes(years);
    AssignedAll(ChangeNames(years), ChangeColumns(cols, years, rows), n, (v: seq<Float>) => |v| == rows);
    AssignedAll(PercentNames(years), PercentColumns(cols, years, rows), n, (v: seq<Float>) => |v| == rows);
  }

  /** A pair name's character at a fixed place is the last digit of the earlier year. */
  lemma PairNameDigit(prev: string, curr: string)
    requires |prev| == 4
    ensures ChangeName(prev, curr)[10] == prev[3] && PercentName(prev, curr)[11] == prev[3]
  {
  }

  /** The two kinds of pair name start with different letters. */
  lemma PairNameInitial(prev: string, curr: string)
    ensures |ChangeName(prev, curr)| > 0 && ChangeName(prev, curr)[0] == 'C'
    ensures |PercentName(prev, curr)| > 0 && PercentName(prev, curr)[0] == 'P'
  {
  }

  /** The nine year columns are distinct digit strings, none of them `Council_Area`. */
  lemma YearNamesAreFree()
    ensures Distinct(YearColumns())
    ensures forall y :: y in YearColumns() ==> y != CouncilColumn && |y| == 4 && IsDigit(y[0])
  {
    var years := YearColumns();
    forall i, j | 0 <= i < j < 9 ensures years[i] != years[j] {
      YearColumn(i);
      YearColumn(j);
    }
    forall y | y in years ensures y != CouncilColumn && |y| == 4 && IsDigit(y[0]) {
      var j :| 0 <= j < 9 && years[j] == y;
      YearColumn(j);
      assert CouncilColumn[0] == 'C';
    }
  }

  /** The first eight years end in different digits. */
  lemma LastDigitsDiffer(j: nat, k: nat)
    requires j < k < 8
    ensures |YearColumns()[j]| == |YearColumns()[k]| == 4 && YearColumns()[j][3] != YearColumns()[k][3]
  {
    YearColumn(j);
    YearColumn(k);
    DigitsDiffer(j, k);
  }

  lemma DigitsDiffer(j: nat, k: nat)
    requires j < k < 8
    ensures DigitChar((5 + j) % 10) != DigitChar((5 + k) % 10)
  {
    if 5 + k < 10 || 5 + j >= 10 {
      assert (5 + k) % 10 - (5 + j) % 10 == k - j;
    } else {
      assert (5 + j) % 10 - (5 + k) % 10 == 10 - (k - j);
    }
  }

  /** Pairs whose earlier years end in different digits get different names. */
  lemma PairNamesDiffer(prev: string, curr: string, prev': string, curr': string)
    requires |prev| == |prev'| == 4 && prev[3] != prev'[3]
    ensures ChangeName(prev, curr) != ChangeName(prev', curr')
    ensures PercentName(prev, curr) != PercentName(prev', curr')
  {
    PairNameDigit(prev, curr);
    PairNameDigit(prev', curr');
  }

  /** The eight change names are distinct, and so are the eight percentage names. */
  lemma YearColumnsPairNamesDistinct()
    ensures Distinct(ChangeNames(YearColumns())) && Distinct(PercentNames(YearColumns()))
  {
    var years := YearColumns();
    var changes := ChangeNames(years);
    var percents := PercentNames(years);
    forall j, k | 0 <= j < k < |changes| ensures changes[j] != changes[k] {
      LastDigitsDiffer(j, k);
      PairNamesDiffer(years[j], years[j + 1], years[k], years[k + 1]);
    }
    forall j, k | 0 <= j < k < |percents| ensures percents[j] != percents[k] {
      LastDigitsDiffer(j, k);
      PairNamesDiffer(years[j], years[j + 1], years[k], years[k + 1]);
    }
  }

  /** No change name is a year or a percentage name, and no percentage name is a year. */
  lemma YearColumnsPairNamesFresh()
    ensures forall k :: k in ChangeNames(YearColumns()) ==> k !in YearColumns() && k !in PercentNames(YearColumns())
    ensures forall k :: k in PercentNames(YearColumns()) ==> k !in YearColumns()
  {
    YearNamesAreFree();
    ChangeNamesInitial();
    PercentNamesInitial();
  }

  lemma ChangeNamesInitial()
    ensures forall k :: k in ChangeNames(YearColumns()) ==> |k| > 0 && k[0] == 'C'
  {
    var years := YearColumns();
    var names := ChangeNames(years);
    forall k | k in names ensures |k| > 0 && k[0] == 'C' {
      var j :| 0 <= j < |names| && names[j] == k;
      PairNameInitial(years[j], years[j + 1]);
    }
  }

  lemma PercentNamesInitial()
    ensures forall k :: k in PercentNames(YearColumns()) ==> |k| > 0 && k[0] == 'P'
  {
    var years := YearColumns();
    var names := PercentNames(years);
    forall k | k in names ensures |k| > 0 && k[0] == 'P' {
      var j :| 0 <= j < |names| && names[j] == k;
      PairNameInitial(years[j], years[j + 1]);
    }
  }

  // ---- the pivot table, changed in place ----

  /** `df.set_index("Council_Area")[year_cols]` and the columns the script adds to it. */
  class PivotTable {
    var index: seq<string>
    var columns: Columns

    /** The column names are well kept and every column has one value per council. */
    ghost predicate Valid()
      reads this
    {
      WellKeyed(columns) && Rows(columns, |index|)
    }

    constructor (index: seq<string>, columns: Columns)
      requires WellKeyed(columns) && Rows(columns, |index|)
      ensures this.index == index && this.columns == columns && Valid()
    {
      this.index := index;
      this.columns := columns;
    }

    /** `pivot[name] = values`. */
    method SetColumn(name: string, values: seq<Float>)
      requires Valid() && |values| == |index|
      modifies this
      ensures index == old(index) && columns == SetItem(old(columns), name, values)
      ensures Valid()
    {
      columns := SetItem(columns, name, values);
    }

    /** `for c in d: pivot[c] = d[c]`. */
    method AddColumns(d: Columns)
      requires Valid() && WellKeyed(d) && Rows(d, |index|)
      modifies this
      ensures index == old(index) && columns == SetAll(old(columns), d.keys, d.entries)
      ensures Valid()
    {
      for i := 0 to |d.keys|
        invariant index == old(index) && columns == SetAll(old(columns), d.keys[..i], d.entries)
        invariant Valid()
      {
        SetAllPrefix(old(columns), d.keys, i, d.entries);
        SetColumn(d.keys[i], d.entries[d.keys[i]]);
      }
      assert d.keys[..|d.keys|] == d.keys;
    }
  }

  // ---- the bar chart of the last percentages ----

  /** One bar: a council and its percentage. */
  datatype Bar = Bar(council: string, value: Float)

  /** A column as a series indexed by council. */
  function Series(index: seq<string>, values: seq<Float>): (bars: seq<Bar>)
    requires |index| == |values|
    ensures |bars| == |index| && forall k :: 0 <= k < |bars| ==> bars[k] == Bar(index[k], values[k])
  {
    seq(|index|, k requires 0 <= k < |index| => Bar(index[k], values[k]))
  }

  predicate SortedDescending(bars: seq<Bar>) {
    forall i, j :: 0 <= i < j < |bars| ==> NotBelow(bars[i].value, bars[j].value)
  }

  /** Puts `b` before the first bar it is not below. */
  function Insert(b: Bar, sorted: seq<Bar>): (r: seq<Bar>)
    ensures multiset(r) == multiset(sorted) + multiset{b}
  {
    if sorted == [] || NotBelow(b.value, sorted[0].value) then [b] + sorted
    else
      assert sorted == [sorted[0]] + sorted[1..];
      [sorted[0]] + Insert(b, sorted[1..])
  }

  lemma {:induction false} InsertSorted(b: Bar, sorted: seq<Bar>)
    requires SortedDescending(sorted)
    ensures SortedDescending(Insert(b, sorted))
  {
    if sorted != [] && !NotBelow(b.value, sorted[0].value) {
      var rest := Insert(b, sorted[1..]);
      InsertSorted(b, sorted[1..]);
      NotBelowTotal(b.value, sorted[0].value);
      var r := [sorted[0]] + rest;
      forall j | 0 < j < |r| ensures NotBelow(sorted[0].value, r[j].value) {
        assert r[j] in multiset(rest);
        if r[j] != b {
          assert r[j] in multiset(sorted[1..]);
          var k :| 0 <= k < |sorted[1..]| && sorted[1..][k] == r[j];
          assert sorted[k + 1] == r[j];
        }
      }
    } else if sorted != [] {
      forall j | 0 < j < |sorted| ensures NotBelow(b.value, sorted[j].value) {
        NotBelowTransitive(b.value, sorted[0].value, sorted[j].value);
      }
    }
  }

  /** `series.sort_values(ascending=False)`: the same bars, largest first and NaN last. */
  function SortDescending(bars: seq<Bar>): (r: seq<Bar>)
    ensures multiset(r) == multiset(bars)
    ensures SortedDescending(r)
  {
    if bars == [] then []
    else
      assert bars == [bars[0]] + bars[1..];
      var rest := SortDescending(bars[1..]);
      InsertSorted(bars[0], rest);
      Insert(bars[0], rest)
  }

  // ---- the whole analysis ----

  const CouncilColumn := "Council_Area"

  /** The loaded CSV: the `Council_Area` column and the other columns. */
  datatype Frame = Frame(councilArea: seq<string>, columns: Columns)

  predicate FrameValid(df: Frame) {
    WellKeyed(df.columns) && Rows(df.columns, |df.councilArea|) && CouncilColumn !in df.columns.entries
  }

  /** `df.columns`. */
  function ColumnNames(df: Frame): seq<string> {
    [CouncilColumn] + df.columns.keys
  }

  /** `[c for c in year_cols if c not in df.columns]`. */
  function MissingColumns(years: seq<string>, df: Frame): (missing: seq<string>)
    ensures forall c :: c in missing <==> c in years && c !in ColumnNames(df)
  {
    Select(years, c => c !in ColumnNames(df))
  }

  /** The columns of `df.set_index("Council_Area")[years]`. */
  function PivotColumns(df: Frame, years: seq<string>): (pivot: Columns)
    requires FrameValid(df) && HasYears(df.columns, years)
    ensures pivot.keys == years && forall k :: k in pivot.entries <==> k in years
    ensures forall y :: y in years ==> pivot.entries[y] == df.columns.entries[y]
    ensures Rows(pivot, |df.councilArea|) && HasYears(pivot, years)
  {
    Dict(years, map y | y in years :: df.columns.entries[y])
  }

  datatype Outcome =
    | MissingYears(missing: seq<string>)
    | Analysed(index: seq<string>, columns: Columns, bars: Option<seq<Bar>>)

  /** `pivot[col].sort_values(ascending=False)` when the pivot has the 2022 to 2023
      percentage column. */
  function BarData(index: seq<string>, columns: Columns): Option<seq<Bar>>
    requires Rows(columns, |index|)
  {
    var col := PercentName("2022", "2023");
    if col in columns.entries then Some(SortDescending(Series(index, columns.entries[col]))) else None
  }

  /** The missing-column check passes exactly when the frame has every year column. */
  lemma NothingMissing(df: Frame)
    requires FrameValid(df)
    ensures MissingColumns(YearColumns(), df) == [] <==> HasYears(df.columns, YearColumns())
  {
    var years := YearColumns();
    YearNamesAreFree();
    if MissingColumns(years, df) == [] {
      forall y | y in years ensures y in df.columns.entries {
        assert y !in MissingColumns(years, df);
      }
    } else {
      var c := MissingColumns(years, df)[0];
      assert c in years && c !in df.columns.entries;
    }
  }

  /** With every year present, the pivot's column names are well kept. */
  lemma PivotIsValid(df: Frame)
    requires FrameValid(df) && HasYears(df.columns, YearColumns())
    ensures WellKeyed(PivotColumns(df, YearColumns()))
  {
    YearNamesAreFree();
  }

  /** The pivot after the change columns and then the percentage columns are added. */
  function AnalysedColumns(df: Frame): Columns
    requires FrameValid(df) && HasYears(df.columns, YearColumns())
  {
    var years := YearColumns();
    PivotIsValid(df);
    var pct := Percents(PivotColumns(df, years), years, |df.councilArea|, 8);
    SetAll(WithChanges(df), pct.keys, pct.entries)
  }

  /** The analysis: a missing year stops it before anything is computed; otherwise the
      pivot gets the change columns and then the percentage columns, and the bar data is
      the 2022 to 2023 percentage column sorted. */
  method Analyse(df: Frame) returns (outcome: Outcome)
    requires FrameValid(df)
    ensures outcome.MissingYears? <==> MissingColumns(YearColumns(), df) != []
    ensures outcome.MissingYears? ==> outcome.missing == MissingColumns(YearColumns(), df)
    ensures outcome.Analysed? ==>
              && HasYears(df.columns, YearColumns())
              && outcome.index == df.councilArea
              && outcome.columns == AnalysedColumns(df)
              && Rows(outcome.columns, |outcome.index|)
              && outcome.bars == BarData(outcome.index, outcome.columns)
  {
    var years := YearColumns();
    var missing := MissingColumns(years, df);
    NothingMissing(df);
    if missing != [] {
      return MissingYears(missing);
    }
    PivotIsValid(df);
    var pivot := new PivotTable(df.councilArea, PivotColumns(df, years));
    var kwh, pct := YearOnYearChanges(pivot, years);
    ResultsKeepRows(pivot.columns, years, |df.councilArea|);
    pivot.AddColumns(kwh);
    pivot.AddColumns(pct);
    outcome := Analysed(pivot.index, pivot.columns, BarData(pivot.index, pivot.columns));
  }

  /** The pivot after the change columns are added, before the percentage columns. */
  function WithChanges(df: Frame): Columns
    requires FrameValid(df) && HasYears(df.columns, YearColumns())
  {
    var years := YearColumns();
    PivotIsValid(df);
    var kwh := Changes(PivotColumns(df, years), years, |df.councilArea|, 8);
    SetAll(PivotColumns(df, years), kwh.keys, kwh.entries)
  }

  /** What the analysis leaves in the pivot, in column order: the nine years, then the eight
      change columns, then the eight percentage columns. */
  lemma AnalysedColumnOrder(df: Frame)
    requires FrameValid(df) && HasYears(df.columns, YearColumns())
    ensures var years := YearColumns();
            AnalysedColumns(df).keys == years + ChangeNames(years) + PercentNames(years)
  {
    var years := YearColumns();
    var rows := |df.councilArea|;
    PivotIsValid(df);
    var pivot := PivotColumns(df, years);
    YearColumnsPairNamesDistinct();
    YearColumnsPairNamesFresh();
    OneChangePerPair(pivot, years, rows);
    OnePercentPerPair(pivot, years, rows);
    var kwh := Changes(pivot, years, rows, 8);
    var pct := Percents(pivot, years, rows, 8);
    SetAllEntries(pivot, kwh.keys, kwh.entries);
    SetAllFreshKeys(pivot, kwh.keys, kwh.entries);
    SetAllFreshKeys(WithChanges(df), pct.keys, pct.entries);
  }

  /** The year columns come out of the analysis as they were loaded. */
  lemma AnalysedKeepsYears(df: Frame)
    requires FrameValid(df) && HasYears(df.columns, YearColumns())
    ensures forall y :: y in YearColumns() ==>
              y in AnalysedColumns(df).entries && AnalysedColumns(df).entries[y] == df.columns.entries[y]
  {
    var years := YearColumns();
    var rows := |df.councilArea|;
    PivotIsValid(df);
    var pivot := PivotColumns(df, years);
    YearColumnsPairNamesDistinct();
    YearColumnsPairNamesFresh();
    OneChangePerPair(pivot, years, rows);
    OnePercentPerPair(pivot, years, rows);
    var kwh := Changes(pivot, years, rows, 8);
    var pct := Percents(pivot, years, rows, 8);
    SetAllEntries(pivot, kwh.keys, kwh.entries);
    SetAllEntries(WithChanges(df), pct.keys, pct.entries);
  }

  /** Each change column after the analysis holds the changes between its two years. */
  lemma AnalysedChanges(df: Frame)
    requires FrameValid(df) && HasYears(df.columns, YearColumns())
    ensures var years := YearColumns();
            forall j :: 0 <= j < 8 ==>
              && ChangeNames(years)[j] in AnalysedColumns(df).entries
              && AnalysedColumns(df).entries[ChangeNames(years)[j]]
                   == ChangeColumns(PivotColumns(df, years), years, |df.councilArea|)[j]
  {
    var years := YearColumns();
    var rows := |df.councilArea|;
    PivotIsValid(df);
    var pivot := PivotColumns(df, years);
    YearColumnsPairNamesDistinct();
    YearColumnsPairNamesFresh();
    OneChangePerPair(pivot, years, rows);
    OnePercentPerPair(pivot, years, rows);
    var kwh := Changes(pivot, years, rows, 8);
    var pct := Percents(pivot, years, rows, 8);
    var mid := WithChanges(df);
    assert mid == SetAll(pivot, kwh.keys, kwh.entries);
    assert AnalysedColumns(df) == SetAll(mid, pct.keys, pct.entries);
    SetAllEntries(pivot, kwh.keys, kwh.entries);
    SetAllEntries(mid, pct.keys, pct.entries);
    forall j | 0 <= j < 8
      ensures ChangeNames(years)[j] in AnalysedColumns(df).entries
      ensures AnalysedColumns(df).entries[ChangeNames(years)[j]] == ChangeColumns(pivot, years, rows)[j]
    {
      var name := ChangeNames(years)[j];
      assert name in kwh.keys && name !in pct.keys;
      assert mid.entries[name] == kwh.entries[name];
    }
  }

  /** Each percentage column after the analysis holds the percentages between its two
      years. */
  lemma AnalysedPercents(df: Frame)
    requires FrameValid(df) && HasYears(df.columns, YearColumns())
    ensures var years := YearColumns();
            forall j :: 0 <= j < 8 ==>
              && PercentNames(years)[j] in AnalysedColumns(df).entries
              && AnalysedColumns(df).entries[PercentNames(years)[j]]
                   == PercentColumns(PivotColumns(df, years), years, |df.councilArea|)[j]
  {
    var years := YearColumns();
    var rows := |df.councilArea|;
    PivotIsValid(df);
    var pivot := PivotColumns(df, years);
    YearColumnsPairNamesDistinct();
    OnePercentPerPair(pivot, years, rows);
    var pct := Percents(pivot, years, rows, 8);
    var mid := WithChanges(df);
    assert AnalysedColumns(df) == SetAll(mid, pct.keys, pct.entries);
    SetAllEntries(mid, pct.keys, pct.entries);
    forall j | 0 <= j < 8
      ensures PercentNames(years)[j] in AnalysedColumns(df).entries
      ensures AnalysedColumns(df).entries[PercentNames(years)[j]] == PercentColumns(pivot, years, rows)[j]
    {
      assert PercentNames(years)[j] in pct.keys;
    }
  }

  /** After the analysis the bar data is there: every council's 2022 to 2023 percentage
      once, largest first. */
  lemma AnalysedBars(df: Frame)
    requires FrameValid(df) && HasYears(df.columns, YearColumns())
    ensures var cols := AnalysedColumns(df);
            var col := PercentName("2022", "2023");
            && col in cols.entries
            && Rows(cols, |df.councilArea|)
            && var bars := BarData(df.councilArea, cols);
            && bars.Some?
            && multiset(bars.value) == multiset(Series(df.councilArea, cols.entries[col]))
            && SortedDescending(bars.value)
  {
    var years := YearColumns();
    AnalysedPercents(df);
    AnalysedRows(df);
    YearColumnsAreTheYears();
    assert PercentNames(years)[7] == PercentName("2022", "2023");
  }

  /** Every column after the analysis has one value per council. */
  lemma AnalysedRows(df: Frame)
    requires FrameValid(df) && HasYears(df.columns, YearColumns())
    ensures Rows(AnalysedColumns(df), |df.councilArea|)
  {
    var years := YearColumns();
    var rows := |df.councilArea|;
    PivotIsValid(df);
    var pivot := PivotColumns(df, years);
    ResultsKeepRows(pivot, years, rows);
    var kwh := Changes(pivot, years, rows, 8);
    var pct := Percents(pivot, years, rows, 8);
    var mid := WithChanges(df);
    assert mid == SetAll(pivot, kwh.keys, kwh.entries);
    assert AnalysedColumns(df) == SetAll(mid, pct.keys, pct.entries);
    var hasRows := (v: seq<Float>) => |v| == rows;
    SetAllKeeps(pivot, kwh.keys, kwh.entries, hasRows);
    SetAllKeeps(mid, pct.keys, pct.entries, hasRows);
  }
}
