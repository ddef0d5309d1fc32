/** The time-series line chart (`drawLineChart`, lineChart.js): the selected regions'
    records over all years, one line per region, and the hover read-out for one year. */
module LineChart {
  import opened Records
  import opened Extents
  import opened Sorting

  /** `data.filter(d => selectedCountries.includes(d.id))`: every year is kept. */
  function SelectedRecords(data: seq<EmissionRecord>, selected: seq<string>): (recs: seq<EmissionRecord>)
    ensures |recs| <= |data|
    ensures forall r :: r in recs <==> r in data && r.id in selected
  {
    if data == [] then []
    else (if data[0].id in selected then [data[0]] else []) + SelectedRecords(data[1..], selected)
  }

  /** The filter works record by record, so the kept records stay in their original order. */
  lemma {:induction false} SelectedRecordsAppend(a: seq<EmissionRecord>, b: seq<EmissionRecord>, selected: seq<string>)
    ensures SelectedRecords(a + b, selected) == SelectedRecords(a, selected) + SelectedRecords(b, selected)
  {
    if a == [] {
      assert a + b == b;
    } else {
      assert (a + b)[1..] == a[1..] + b;
      SelectedRecordsAppend(a[1..], b, selected);
    }
  }

  /** When every record belongs to a selected region, nothing is dropped or moved. */
  lemma {:induction false} SelectedRecordsAll(data: seq<EmissionRecord>, selected: seq<string>)
    requires forall i :: 0 <= i < |data| ==> data[i].id in selected
    ensures SelectedRecords(data, selected) == data
  {
    if data != [] {
      SelectedRecordsAll(data[1..], selected);
    }
  }

  /** The fallback top of the y axis: 1e6 tonnes, or 100 percent. */
  function FallbackMax(m: Metric): real {
    match m
    case Total => 1000000.0
    case Share => 100.0
  }

  /** `d3.max(filteredData, getValue) || (isTotal ? 1e6 : 100)`. */
  function MaxY(recs: seq<EmissionRecord>, m: Metric): real {
    var top := Max(recs, m);
    if Truthy(top) then top.v else FallbackMax(m)
  }

  /** The y axis never has a zero top, and it reaches every plotted value: it is
      the largest value, or the fallback when there is no value or the largest is 0. */
  lemma MaxYBounds(recs: seq<EmissionRecord>, m: Metric)
    ensures MaxY(recs, m) != 0.0
    ensures forall i :: 0 <= i < |recs| && MetricValue(recs[i], m).Some? ==>
      MetricValue(recs[i], m).value <= MaxY(recs, m)
    ensures (exists i :: 0 <= i < |recs| && MetricValue(recs[i], m) == Some(MaxY(recs, m)))
      || MaxY(recs, m) == FallbackMax(m)
    ensures !HasValue(recs, m) ==> MaxY(recs, m) == FallbackMax(m)
    ensures HasValue(recs, m) && Max(recs, m).v != 0.0 ==> MaxY(recs, m) == Max(recs, m).v
    ensures HasValue(recs, m) && Max(recs, m).v == 0.0 ==> MaxY(recs, m) == FallbackMax(m)
  {
  }

  /** One plotted value lies under the y axis's top. */
  lemma MaxYReaches(recs: seq<EmissionRecord>, m: Metric, i: int)
    requires 0 <= i < |recs| && MetricValue(recs[i], m).Some?
    ensures MetricValue(recs[i], m).value <= MaxY(recs, m)
  {
    MaxYBounds(recs, m);
  }

  /** The distinct ids in order of first occurrence: the keys of `d3.group`. */
  function GroupKeys(recs: seq<EmissionRecord>): (ids: seq<string>)
    ensures forall i, j :: 0 <= i < j < |ids| ==> ids[i] != ids[j]
    ensures forall id :: id in ids <==> exists r :: r in recs && r.id == id
  {
    if recs == [] then []
    else
      var init, last := recs[..|recs| - 1], recs[|recs| - 1];
      assert recs == init + [last];
      var keys := GroupKeys(init);
      if last.id in keys then keys else keys + [last.id]
  }

  /** The records of one id, in their order. */
  function Group(recs: seq<EmissionRecord>, id: string): (g: seq<EmissionRecord>)
    ensures |g| <= |recs|
    ensures forall r :: r in g <==> r in recs && r.id == id
  {
    if recs == [] then []
    else (if recs[0].id == id then [recs[0]] else []) + Group(recs[1..], id)
  }

  lemma {:induction false} GroupAppend(a: seq<EmissionRecord>, b: seq<EmissionRecord>, id: string)
    ensures Group(a + b, id) == Group(a, id) + Group(b, id)
  {
    if a == [] {
      assert a + b == b;
    } else {
      assert (a + b)[1..] == a[1..] + b;
      GroupAppend(a[1..], b, id);
    }
  }

  /** One line of the chart: a region and its records. */
  datatype Series = Series(id: string, points: seq<EmissionRecord>)

  /** `d3.group(filteredData, d => d.id)`, iterated in key order. */
  function Grouped(recs: seq<EmissionRecord>): seq<Series> {
    var keys := GroupKeys(recs);
    seq(|keys|, i requires 0 <= i < |keys| => Series(keys[i], Group(recs, keys[i])))
  }

  /** Each series is non-empty and holds only its own id's records, in order; no two
      series share an id; and every record lies on the series of its id. */
  lemma GroupedSpec(recs: seq<EmissionRecord>)
    ensures var lines := Grouped(recs);
      (forall i :: 0 <= i < |lines| ==> |lines[i].points| > 0 && lines[i].points == Group(recs, lines[i].id)) &&
      (forall i, j :: 0 <= i < j < |lines| ==> lines[i].id != lines[j].id) &&
      (forall r :: r in recs ==> exists i :: 0 <= i < |lines| && r in lines[i].points)
  {
    var lines := Grouped(recs);
    var keys := GroupKeys(recs);
    forall i | 0 <= i < |lines| ensures |lines[i].points| > 0 {
      assert keys[i] in keys;
      var r :| r in recs && r.id == keys[i];
      assert r in lines[i].points;
    }
    forall r | r in recs ensures exists i :: 0 <= i < |lines| && r in lines[i].points {
      assert r.id in keys;
      var i :| 0 <= i < |keys| && keys[i] == r.id;
      assert r in lines[i].points;
    }
  }

  /** What the chart draws. */
  datatype LineView = SelectPrompt | Lines(maxY: real, series: seq<Series>)

  /** `drawLineChart` up to the lines it draws. */
  function DrawLines(data: seq<EmissionRecord>, selected: seq<string>, m: Metric): (v: LineView)
    ensures v.SelectPrompt? <==> |selected| == 0
  {
    if |selected| == 0 then SelectPrompt
    else
      var filtered := SelectedRecords(data, selected);
      Lines(MaxY(filtered, m), Grouped(filtered))
  }

  /** With a selection, every line belongs to a selected region and every selected region
      with a record has its line; the y axis reaches all plotted values. */
  lemma DrawLinesSpec(data: seq<EmissionRecord>, selected: seq<string>, m: Metric)
    requires |selected| > 0
    ensures var v := DrawLines(data, selected, m);
      (forall i :: 0 <= i < |v.series| ==> v.series[i].id in selected) &&
      (forall r :: r in data && r.id in selected ==> exists i :: 0 <= i < |v.series| && v.series[i].id == r.id) &&
      (forall r :: r in data && r.id in selected && MetricValue(r, m).Some? ==> MetricValue(r, m).value <= v.maxY)
  {
    var filtered := SelectedRecords(data, selected);
    SeriesOfSelected(filtered, selected);
    SeriesCoverRecords(filtered);
    forall r | r in data && r.id in selected && MetricValue(r, m).Some?
      ensures MetricValue(r, m).value <= MaxY(filtered, m)
    {
      var i :| 0 <= i < |filtered| && filtered[i] == r;
      MaxYReaches(filtered, m, i);
    }
  }

  /** Lines are drawn only for the ids of the records grouped. */
  lemma SeriesOfSelected(recs: seq<EmissionRecord>, selected: seq<string>)
    requires forall r :: r in recs ==> r.id in selected
    ensures forall i :: 0 <= i < |Grouped(recs)| ==> Grouped(recs)[i].id in selected
  {
    var keys := GroupKeys(recs);
    forall i | 0 <= i < |Grouped(recs)| ensures Grouped(recs)[i].id in selected {
      assert keys[i] in keys;
    }
  }

  /** Every grouped record's id has its line. */
  lemma SeriesCoverRecords(recs: seq<EmissionRecord>)
    ensures forall r :: r in recs ==> exists i :: 0 <= i < |Grouped(recs)| && Grouped(recs)[i].id == r.id
  {
    var keys := GroupKeys(recs);
    forall r | r in recs ensures exists i :: 0 <= i < |Grouped(recs)| && Grouped(recs)[i].id == r.id {
      assert r.id in keys;
      var i :| 0 <= i < |keys| && keys[i] == r.id;
      assert Grouped(recs)[i].id == r.id;
    }
  }

  /** The x axis spans 1990 to 2015; a hovered year outside it is ignored. */
  predicate InChartYears(year: int) {
    1990 <= year <= 2015
  }

  /** `yearData.find(d => d.id === id)`. */
  function Find(recs: seq<EmissionRecord>, id: string): (r: Option<EmissionRecord>)
    ensures r.None? <==> forall i :: 0 <= i < |recs| ==> recs[i].id != id
    ensures r.Some? ==> exists i :: 0 <= i < |recs| && recs[i] == r.value && r.value.id == id &&
                                  (forall j :: 0 <= j < i ==> recs[j].id != id)
  {
    if recs == [] then None
    else if recs[0].id == id then Some(recs[0])
    else
      var rest := Find(recs[1..], id);
      if rest.Some? then
        var i :| 0 <= i < |recs| - 1 && recs[1..][i] == rest.value && rest.value.id == id &&
                 (forall j :: 0 <= j < i ==> recs[1..][j].id != id);
        assert recs[i + 1] == rest.value;
        rest
      else rest
  }

  /** A hover dot: at the first record's value, or parked off the chart at -1000. */
  datatype Dot = OnChart(value: Option<real>) | OffChart

  function DotFor(yearData: seq<EmissionRecord>, id: string, m: Metric): (d: Dot)
    ensures d.OffChart? <==> forall i :: 0 <= i < |yearData| ==> yearData[i].id != id
  {
    var found := Find(yearData, id);
    if found.Some? then OnChart(MetricValue(found.value, m)) else OffChart
  }

  /** One tooltip line: the region's colour key, its name and its formatted value. */
  datatype TooltipLine = TooltipLine(id: string, country: string, value: Option<real>)

  /** The line one record contributes. */
  function LineOf(r: EmissionRecord, m: Metric): TooltipLine {
    TooltipLine(r.id, r.country, MetricValue(r, m))
  }

  /** The tooltip's lines for records in the order given. */
  function TooltipOf(recs: seq<EmissionRecord>, m: Metric): (lines: seq<TooltipLine>)
    ensures |lines| == |recs|
  {
    seq(|recs|, i requires 0 <= i < |recs| => LineOf(recs[i], m))
  }

  /** The `yearData.forEach` loop that appends one line per record. */
  method BuildTooltip(recs: seq<EmissionRecord>, m: Metric) returns (lines: seq<TooltipLine>)
    ensures lines == TooltipOf(recs, m)
  {
    lines := [];
    for i := 0 to |recs|
      invariant lines == TooltipOf(recs[..i], m)
    {
      lines := lines + [LineOf(recs[i], m)];
    }
    assert recs[..|recs|] == recs;
  }

  /** What one mouse move does. */
  datatype Hover = NoUpdate | Update(year: int, dots: seq<Dot>, tooltip: seq<TooltipLine>)

  /** The `mousemove` handler for the year under the mouse. */
  function HoverAt(filtered: seq<EmissionRecord>, selected: seq<string>, m: Metric, year: int): (h: Hover)
    ensures h.NoUpdate? <==> !InChartYears(year)
    ensures h.Update? ==> h.year == year && |h.dots| == |selected| && |h.tooltip| == |YearRecords(filtered, year)|
  {
    if !InChartYears(year) then NoUpdate
    else
      var yearData := YearRecords(filtered, year);
      Update(year,
        seq(|selected|, i requires 0 <= i < |selected| => DotFor(yearData, selected[i], m)),
        TooltipOf(SortDesc(yearData, MetricKey(m)), m))
  }

  /** In the read-out for a chart year, the tooltip lists exactly that year's records,
      largest value first (a null value counting as 0), records of equal value keeping
      their order; a selected region without a record that year has its dot off the chart. */
  lemma HoverSpec(filtered: seq<EmissionRecord>, selected: seq<string>, m: Metric, year: int)
    requires InChartYears(year)
    ensures var h := HoverAt(filtered, selected, m, year);
      var yearData := YearRecords(filtered, year);
      var sorted := SortDesc(yearData, MetricKey(m));
      h.tooltip == TooltipOf(sorted, m) &&
      multiset(sorted) == multiset(yearData) &&
      (forall i, j :: 0 <= i < j < |h.tooltip| ==>
        ValueOrZero(h.tooltip[i].value) >= ValueOrZero(h.tooltip[j].value)) &&
      (forall k :: WithKey(sorted, MetricKey(m), k) == WithKey(yearData, MetricKey(m), k)) &&
      (forall i :: 0 <= i < |selected| ==>
        (h.dots[i].OffChart? <==> forall r :: r in filtered && r.year == year ==> r.id != selected[i]))
  {
    var yearData := YearRecords(filtered, year);
    var sorted := SortDesc(yearData, MetricKey(m));
    var h := HoverAt(filtered, selected, m, year);
    SortDescCorrect(yearData, MetricKey(m));
    forall i, j | 0 <= i < j < |h.tooltip| ensures ValueOrZero(h.tooltip[i].value) >= ValueOrZero(h.tooltip[j].value) {
      assert MetricKey(m)(sorted[i]) >= MetricKey(m)(sorted[j]);
    }
    forall i | 0 <= i < |selected|
      ensures h.dots[i].OffChart? <==> forall r :: r in filtered && r.year == year ==> r.id != selected[i]
    {
      if !h.dots[i].OffChart? {
        var k :| 0 <= k < |yearData| && yearData[k].id == selected[i];
        assert yearData[k] in yearData;
      }
    }
  }
}
