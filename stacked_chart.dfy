/** The lifecycle-stage stacked area chart (`drawStackedChart`, stackedChart.js):
    translate the selected ISO codes into FAO country names, keep those countries'
    rows, sum emissions by (year, stage) and lay out one row per year. */
module StackedChart {
  import opened Records

  /** One row of the FAO lifecycle table. The emission may be null. */
  datatype FaoRow = FaoRow(country: string, year: int, stage: string, emission: Option<real>)

  /** The fixed ISO-to-FAO name table; other codes have no stage data. */
  const ISO_TO_FAO: map<string, string> := map[
    "FRA" := "France", "USA" := "États-Unis d'Amérique", "CHN" := "Chine, continentale",
    "BRA" := "Brésil", "IND" := "Inde", "DEU" := "Allemagne",
    "GBR" := "Royaume-Uni", "CAN" := "Canada", "AUS" := "Australie", "RUS" := "Fédération de Russie"]

  /** The eight stages, in layer order. */
  const STAGES: seq<string> := [
    "Changement d'utilisation des terres", "Farm gate", "Transformation des aliments",
    "Emballage alimentaire", "Transporte des alimentaires", "Commerce de détail alimentaire",
    "Consommation des ménages", "Évacuation des déchets des systèmes agroalimentaires"]

  /** The code has an entry in the table and it names `name`. */
  predicate MapsTo(code: string, name: string) {
    code in ISO_TO_FAO && ISO_TO_FAO[code] == name
  }

  /** `selected.map(code => isoToFao[code]).filter(Boolean)`: codes outside the table vanish. */
  function FaoNames(selected: seq<string>): (names: seq<string>)
    ensures |names| <= |selected|
  {
    if selected == [] then []
    else (if selected[0] in ISO_TO_FAO then [ISO_TO_FAO[selected[0]]] else []) + FaoNames(selected[1..])
  }

  /** A name is in the list exactly when some selected code translates to it. */
  lemma {:induction false} FaoNamesSpec(selected: seq<string>, n: string)
    ensures n in FaoNames(selected) <==> exists c :: c in selected && MapsTo(c, n)
  {
    if selected != [] {
      var rest := selected[1..];
      FaoNamesSpec(rest, n);
      if exists c :: c in selected && MapsTo(c, n) {
        var c :| c in selected && MapsTo(c, n);
        if c != selected[0] {
          assert c in rest;
        }
      }
      if n in FaoNames(selected) {
        if n in FaoNames(rest) {
          var c :| c in rest && MapsTo(c, n);
          assert c in selected;
        } else {
          assert MapsTo(selected[0], n);
        }
      }
    }
  }

  /** `fao.filter(d => names.includes(d.country))`. */
  function RowsOf(fao: seq<FaoRow>, names: seq<string>): (rows: seq<FaoRow>)
    ensures |rows| <= |fao|
    ensures forall r :: r in rows <==> r in fao && r.country in names
  {
    if fao == [] then []
    else (if fao[0].country in names then [fao[0]] else []) + RowsOf(fao[1..], names)
  }

  /** The rows the chart aggregates (`currentData`). */
  function SelectRows(fao: seq<FaoRow>, selected: seq<string>): seq<FaoRow> {
    if |selected| == 0 then fao
    else
      var names := FaoNames(selected);
      if |names| > 0 then RowsOf(fao, names) else []
  }

  /** No selection means every FAO row; otherwise exactly the rows of countries that
      some selected code translates to, so a selection with no code in the table
      yields no rows at all. */
  lemma SelectRowsSpec(fao: seq<FaoRow>, selected: seq<string>, r: FaoRow)
    ensures |selected| == 0 ==> SelectRows(fao, selected) == fao
    ensures |selected| > 0 ==>
      (r in SelectRows(fao, selected) <==> r in fao && exists c :: c in selected && MapsTo(c, r.country))
  {
    FaoNamesSpec(selected, r.country);
    if |selected| > 0 && |FaoNames(selected)| == 0 {
      FaoNamesSpec(selected, r.country);
      assert r.country !in FaoNames(selected);
    }
  }

  /** A row's share of its (year, stage) sum: `d3.sum` skips null values. */
  function Contribution(r: FaoRow): real {
    if r.emission.Some? then r.emission.value else 0.0
  }

  /** The sum of the emissions of the rows of one year and one stage, 0 when there are none. */
  function StageSum(rows: seq<FaoRow>, year: int, stage: string): real {
    if rows == [] then 0.0
    else
      var last := rows[|rows| - 1];
      StageSum(rows[..|rows| - 1], year, stage) + (if last.year == year && last.stage == stage then Contribution(last) else 0.0)
  }

  /** Rows of other years or stages add nothing. */
  lemma {:induction false} StageSumNone(rows: seq<FaoRow>, year: int, stage: string)
    requires forall r :: r in rows ==> r.year != year || r.stage != stage
    ensures StageSum(rows, year, stage) == 0.0
  {
    if rows != [] {
      assert rows[|rows| - 1] in rows;
      StageSumNone(rows[..|rows| - 1], year, stage);
    }
  }

  lemma {:induction false} StageSumAppend(a: seq<FaoRow>, b: seq<FaoRow>, year: int, stage: string)
    ensures StageSum(a + b, year, stage) == StageSum(a, year, stage) + StageSum(b, year, stage)
  {
    if b == [] {
      assert a + b == a;
    } else {
      assert (a + b)[..|a + b| - 1] == a + b[..|b| - 1];
      StageSumAppend(a, b[..|b| - 1], year, stage);
    }
  }

  lemma RemoveAtMultiset(b: seq<FaoRow>, k: int)
    requires 0 <= k < |b|
    ensures multiset(b[..k] + b[k + 1..]) + multiset{b[k]} == multiset(b)
  {
    assert b == b[..k] + [b[k]] + b[k + 1..];
  }

  lemma StageSumRemoveAt(b: seq<FaoRow>, k: int, year: int, stage: string)
    requires 0 <= k < |b|
    ensures StageSum(b, year, stage) == StageSum(b[..k] + b[k + 1..], year, stage) + StageSum([b[k]], year, stage)
  {
    var left, x, right := b[..k], b[k], b[k + 1..];
    assert b == (left + [x]) + right;
    StageSumAppend(left + [x], right, year, stage);
    StageSumAppend(left, [x], year, stage);
    StageSumAppend(left, right, year, stage);
  }

  lemma MultisetCancel(p: multiset<FaoRow>, q: multiset<FaoRow>, x: FaoRow)
    requires p + multiset{x} == q + multiset{x}
    ensures p == q
  {
    forall y ensures p[y] == q[y] {
      assert (p + multiset{x})[y] == p[y] + multiset{x}[y];
      assert (q + multiset{x})[y] == q[y] + multiset{x}[y];
    }
  }

  /** The sums do not depend on the order of the rows. */
  lemma {:induction false} StageSumPermutation(a: seq<FaoRow>, b: seq<FaoRow>, year: int, stage: string)
    requires multiset(a) == multiset(b)
    ensures StageSum(a, year, stage) == StageSum(b, year, stage)
    decreases |a|
  {
    if a == [] {
      assert |b| == |multiset(b)| == 0;
    } else {
      var init, x := a[..|a| - 1], a[|a| - 1];
      assert a == init + [x];
      assert multiset(a) == multiset(init) + multiset{x};
      assert x in multiset(b);
      var k :| 0 <= k < |b| && b[k] == x;
      RemoveAtMultiset(b, k);
      MultisetCancel(multiset(b[..k] + b[k + 1..]), multiset(init), x);
      StageSumPermutation(init, b[..k] + b[k + 1..], year, stage);
      StageSumRemoveAt(b, k, year, stage);
      assert [x][..0] == [];
    }
  }

  /** `d3.rollup(rows, v => d3.sum(v, d => d.Emission), d => d.Annee, d => d.stage)`. */
  function Rollup(rows: seq<FaoRow>): map<int, map<string, real>> {
    if rows == [] then map[]
    else
      var grouped := Rollup(rows[..|rows| - 1]);
      var r := rows[|rows| - 1];
      var inner := if r.year in grouped then grouped[r.year] else map[];
      var before := if r.stage in inner then inner[r.stage] else 0.0;
      grouped[r.year := inner[r.stage := before + Contribution(r)]]
  }

  /** The rollup has a group for each year present and, inside it, an entry for
      each stage present in that year, holding that (year, stage) sum. */
  lemma {:induction false} RollupSpec(rows: seq<FaoRow>, year: int, stage: string)
    ensures year in Rollup(rows) <==> exists r :: r in rows && r.year == year
    ensures year in Rollup(rows) ==>
      (stage in Rollup(rows)[year] <==> exists r :: r in rows && r.year == year && r.stage == stage)
    ensures year in Rollup(rows) && stage in Rollup(rows)[year] ==>
      Rollup(rows)[year][stage] == StageSum(rows, year, stage)
  {
    if rows != [] {
      var init, r := rows[..|rows| - 1], rows[|rows| - 1];
      assert rows == init + [r];
      RollupSpec(init, year, stage);
      if !(r.year == year && r.stage == stage) && year in Rollup(init) && stage !in Rollup(init)[year] {
        StageSumNone(init, year, stage);
      }
      if r.year == year && r.stage == stage && (year !in Rollup(init) || stage !in Rollup(init)[year]) {
        StageSumNone(init, year, stage);
      }
    }
  }

  /** Strictly increasing. */
  predicate Ascending(ys: seq<int>) {
    forall i, j :: 0 <= i < j < |ys| ==> ys[i] < ys[j]
  }

  /** Puts `y` into its place in an ascending sequence, unless it is already there. */
  function InsertYear(ys: seq<int>, y: int): (r: seq<int>)
    requires Ascending(ys)
    ensures Ascending(r)
    ensures forall z :: z in r <==> z in ys || z == y
  {
    if ys == [] then [y]
    else if y < ys[0] then [y] + ys
    else if y == ys[0] then ys
    else
      AscendingTail(ys);
      var rest := InsertYear(ys[1..], y);
      PrependAscending(ys[0], rest);
      [ys[0]] + rest
  }

  /** The tail of an ascending sequence is ascending and lies above its head. */
  lemma AscendingTail(ys: seq<int>)
    requires Ascending(ys) && ys != []
    ensures Ascending(ys[1..])
    ensures forall z :: z in ys[1..] ==> ys[0] < z
  {
    forall z | z in ys[1..] ensures ys[0] < z {
      var k :| 0 <= k < |ys[1..]| && ys[1..][k] == z;
      assert ys[k + 1] == z;
    }
  }

  /** A head below every element of an ascending tail gives an ascending sequence. */
  lemma PrependAscending(x: int, rest: seq<int>)
    requires Ascending(rest) && forall z :: z in rest ==> x < z
    ensures Ascending([x] + rest)
  {
    var r := [x] + rest;
    forall i, j | 0 <= i < j < |r| ensures r[i] < r[j] {
      assert r[j] == rest[j - 1];
      if i > 0 {
        assert r[i] == rest[i - 1];
      } else {
        assert rest[j - 1] in rest;
      }
    }
  }

  /** The rollup's years sorted ascending (`.sort((a, b) => a.Annee - b.Annee)`). */
  function YearsOf(rows: seq<FaoRow>): (ys: seq<int>)
    ensures Ascending(ys)
    ensures forall y :: y in ys <==> exists r :: r in rows && r.year == y
  {
    if rows == [] then []
    else
      var init, last := rows[..|rows| - 1], rows[|rows| - 1];
      assert rows == init + [last];
      InsertYear(YearsOf(init), last.year)
  }

  /** Two ascending sequences with the same elements are equal. */
  lemma {:induction false} AscendingUnique(xs: seq<int>, ys: seq<int>)
    requires Ascending(xs) && Ascending(ys)
    requires forall z :: z in xs <==> z in ys
    ensures xs == ys
  {
    if xs != [] {
      assert xs[0] in xs;
    }
    if ys != [] {
      assert ys[0] in ys;
    }
    if xs != [] && ys != [] {
      assert xs[0] == ys[0] by {
        var i :| 0 <= i < |xs| && xs[i] == ys[0];
        var j :| 0 <= j < |ys| && ys[j] == xs[0];
      }
      forall z ensures z in xs[1..] <==> z in ys[1..] {
        if z in xs[1..] { assert z != xs[0] && z in ys; }
        if z in ys[1..] { assert z != ys[0] && z in xs; }
      }
      AscendingUnique(xs[1..], ys[1..]);
      assert xs == [xs[0]] + xs[1..] && ys == [ys[0]] + ys[1..];
    }
  }

  /** One element of `stackData`: the year and one field per stage. */
  datatype StackRow = StackRow(year: int, values: map<string, real>)

  /** The row for one year built from its stage map: each of the eight stages gets
      its sum or 0; other stages get no field. */
  function RowOf(year: int, stageMap: map<string, real>): StackRow {
    StackRow(year, map s | s in STAGES :: if s in stageMap then stageMap[s] else 0.0)
  }

  /** The `for (let stage of stages)` loop that fills one row. */
  method BuildRow(year: int, stageMap: map<string, real>) returns (row: StackRow)
    ensures row == RowOf(year, stageMap)
  {
    var values: map<string, real> := map[];
    for i := 0 to |STAGES|
      invariant values == map s | s in STAGES[..i] :: if s in stageMap then stageMap[s] else 0.0
    {
      var stage := STAGES[i];
      assert STAGES[..i + 1] == STAGES[..i] + [stage];
      values := values[stage := if stage in stageMap then stageMap[stage] else 0.0];
    }
    assert STAGES[..|STAGES|] == STAGES;
    row := StackRow(year, values);
  }

  /** `stackData`: one row per year of the rollup, ascending. */
  function StackData(rows: seq<FaoRow>): seq<StackRow> {
    var grouped := Rollup(rows);
    var years := YearsOf(rows);
    seq(|years|, i requires 0 <= i < |years| =>
      RowOf(years[i], if years[i] in grouped then grouped[years[i]] else map[]))
  }

  /** The row of one year read directly from the sums. */
  function SumRow(rows: seq<FaoRow>, year: int): StackRow {
    StackRow(year, map s | s in STAGES :: StageSum(rows, year, s))
  }

  /** The row built from a year's rollup group holds that year's stage sums. */
  lemma RowOfRollup(rows: seq<FaoRow>, year: int)
    requires year in Rollup(rows)
    ensures RowOf(year, Rollup(rows)[year]) == SumRow(rows, year)
  {
    var group := Rollup(rows)[year];
    forall s | s in STAGES ensures (if s in group then group[s] else 0.0) == StageSum(rows, year, s) {
      RollupSpec(rows, year, s);
      if s !in group {
        StageSumNone(rows, year, s);
      }
    }
    assert RowOf(year, group).values == SumRow(rows, year).values;
  }

  /** The i-th row of `stackData` is the i-th year's row of sums. */
  lemma StackDataAt(rows: seq<FaoRow>, i: int)
    requires 0 <= i < |YearsOf(rows)|
    ensures |StackData(rows)| == |YearsOf(rows)|
    ensures StackData(rows)[i] == SumRow(rows, YearsOf(rows)[i])
  {
    var y := YearsOf(rows)[i];
    assert y in YearsOf(rows);
    RollupSpec(rows, y, "");
    RowOfRollup(rows, y);
  }

  /** Row by row, `stackData` is the ascending years' rows of sums. */
  lemma StackDataRows(rows: seq<FaoRow>)
    ensures |StackData(rows)| == |YearsOf(rows)|
    ensures forall i :: 0 <= i < |YearsOf(rows)| ==> StackData(rows)[i] == SumRow(rows, YearsOf(rows)[i])
  {
    forall i | 0 <= i < |YearsOf(rows)| ensures StackData(rows)[i] == SumRow(rows, YearsOf(rows)[i]) {
      StackDataAt(rows, i);
    }
  }

  /** One row per distinct year of the rows, in ascending order. */
  lemma StackDataYears(rows: seq<FaoRow>)
    ensures var data := StackData(rows);
      (forall i, j :: 0 <= i < j < |data| ==> data[i].year < data[j].year) &&
      (forall i :: 0 <= i < |data| ==> exists r :: r in rows && r.year == data[i].year) &&
      (forall r :: r in rows ==> exists i :: 0 <= i < |data| && data[i].year == r.year)
  {
    var data := StackData(rows);
    var years := YearsOf(rows);
    assert |data| == |years|;
    assert forall i :: 0 <= i < |data| ==> data[i].year == years[i];
    forall i | 0 <= i < |data| ensures exists r :: r in rows && r.year == data[i].year {
      assert years[i] in years;
    }
    forall r | r in rows ensures exists i :: 0 <= i < |data| && data[i].year == r.year {
      assert r.year in years;
      var i :| 0 <= i < |years| && years[i] == r.year;
      assert data[i].year == r.year;
    }
  }

  /** Each row holds, for each of the eight stages, the sum of that year's rows of
      that stage (0 if none). */
  lemma StackDataSums(rows: seq<FaoRow>)
    ensures var data := StackData(rows);
      forall i :: 0 <= i < |data| ==> data[i] == SumRow(rows, data[i].year)
  {
    StackDataRows(rows);
  }

  /** Stages outside the eight never become fields, and all eight always do. */
  lemma StackDataFields(rows: seq<FaoRow>, i: int, stage: string)
    requires 0 <= i < |StackData(rows)|
    ensures stage in StackData(rows)[i].values <==> stage in STAGES
  {
  }

  lemma SameYears(a: seq<FaoRow>, b: seq<FaoRow>)
    requires multiset(a) == multiset(b)
    ensures YearsOf(a) == YearsOf(b)
  {
    forall y ensures y in YearsOf(a) <==> y in YearsOf(b) {
      if exists r :: r in a && r.year == y {
        var r :| r in a && r.year == y;
        assert r in multiset(b);
      }
      if exists r :: r in b && r.year == y {
        var r :| r in b && r.year == y;
        assert r in multiset(a);
      }
    }
    AscendingUnique(YearsOf(a), YearsOf(b));
  }

  /** Reordering the rows changes nothing in the chart's data. */
  lemma StackDataPermutation(a: seq<FaoRow>, b: seq<FaoRow>)
    requires multiset(a) == multiset(b)
    ensures StackData(a) == StackData(b)
  {
    SameYears(a, b);
    var years := YearsOf(a);
    forall i | 0 <= i < |years| ensures StackData(a)[i] == StackData(b)[i] {
      StackDataAt(a, i);
      StackDataAt(b, i);
      var y := years[i];
      forall s | s in STAGES ensures StageSum(a, y, s) == StageSum(b, y, s) {
        StageSumPermutation(a, b, y, s);
      }
      assert SumRow(a, y).values == SumRow(b, y).values;
    }
  }

  /** There is a row of data exactly when there is a row to aggregate. */
  lemma StackDataEmpty(rows: seq<FaoRow>)
    ensures |StackData(rows)| == 0 <==> rows == []
  {
    if rows != [] {
      assert rows[0] in rows;
      assert rows[0].year in YearsOf(rows);
    }
  }

  /** What the chart draws. */
  datatype Chart = NoDataPlaceholder | Layers(keys: seq<string>, data: seq<StackRow>)

  /** `drawStackedChart` up to the layers it stacks. */
  function DrawStacked(fao: seq<FaoRow>, selected: seq<string>): (c: Chart)
    ensures c.NoDataPlaceholder? <==> SelectRows(fao, selected) == []
    ensures c.Layers? ==> c.keys == STAGES && c.data == StackData(SelectRows(fao, selected))
  {
    var rows := SelectRows(fao, selected);
    StackDataEmpty(rows);
    if |StackData(rows)| == 0 then NoDataPlaceholder else Layers(STAGES, StackData(rows))
  }

  /** A selection of codes none of which is in the table draws the placeholder, not an error. */
  lemma UnmappableSelection(fao: seq<FaoRow>, selected: seq<string>)
    requires |selected| > 0 && forall c :: c in selected ==> c !in ISO_TO_FAO
    ensures DrawStacked(fao, selected) == NoDataPlaceholder
  {
    assert |FaoNames(selected)| == 0 by {
      if |FaoNames(selected)| > 0 {
        var n := FaoNames(selected)[0];
        FaoNamesSpec(selected, n);
      }
    }
  }
}
