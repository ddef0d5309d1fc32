/** The ranking bar chart (`drawBarChart`, barChart.js): the selected regions' records
    of the current year, largest value first, one horizontal bar each. */
module BarChart {
  import opened Records
  import opened Extents
  import opened Sorting

  /** `data.filter(d => d.year === currentYear && selectedCountries.includes(d.id))`. */
  function BarRecords(data: seq<EmissionRecord>, year: int, selected: seq<string>): (recs: seq<EmissionRecord>)
    ensures |recs| <= |data|
    ensures forall r :: r in recs <==> r in data && r.year == year && r.id in selected
  {
    if data == [] then []
    else
      var keep := data[0].year == year && data[0].id in selected;
      (if keep then [data[0]] else []) + BarRecords(data[1..], year, selected)
  }

  /** The filter keeps the records' original order. */
  lemma {:induction false} BarRecordsAppend(a: seq<EmissionRecord>, b: seq<EmissionRecord>, year: int, selected: seq<string>)
    ensures BarRecords(a + b, year, selected) == BarRecords(a, year, selected) + BarRecords(b, year, selected)
  {
    if a == [] {
      assert a + b == b;
    } else {
      assert (a + b)[1..] == a[1..] + b;
      BarRecordsAppend(a[1..], b, year, selected);
    }
  }

  /** `barData` after `barData.sort((a, b) => getValue(b) - getValue(a))`. */
  function BarData(data: seq<EmissionRecord>, year: int, selected: seq<string>, m: Metric): seq<EmissionRecord> {
    SortDesc(BarRecords(data, year, selected), MetricKey(m))
  }

  /** The bars are exactly the current year's records of selected regions, each as often
      as in the data, ordered by descending value (a null value counting as 0), with ties
      in data order. */
  lemma BarDataSpec(data: seq<EmissionRecord>, year: int, selected: seq<string>, m: Metric)
    ensures var bars := BarData(data, year, selected, m);
      (forall r :: r in bars <==> r in data && r.year == year && r.id in selected) &&
      multiset(bars) == multiset(BarRecords(data, year, selected)) &&
      (forall i, j :: 0 <= i < j < |bars| ==> ValueOrZero(MetricValue(bars[i], m)) >= ValueOrZero(MetricValue(bars[j], m))) &&
      (forall k :: WithKey(bars, MetricKey(m), k) == WithKey(BarRecords(data, year, selected), MetricKey(m), k))
  {
    var recs := BarRecords(data, year, selected);
    var bars := BarData(data, year, selected, m);
    SortDescCorrect(recs, MetricKey(m));
    forall r ensures r in bars <==> r in recs {
      SortDescMembers(recs, MetricKey(m), r);
    }
    forall i, j | 0 <= i < j < |bars|
      ensures ValueOrZero(MetricValue(bars[i], m)) >= ValueOrZero(MetricValue(bars[j], m))
    {
      assert MetricKey(m)(bars[i]) >= MetricKey(m)(bars[j]);
    }
  }

  function Abs(x: real): real {
    if x < 0.0 then -x else x
  }

  /** `Math.abs(x(v) - x(0))` for the linear scale from `[0, top]` onto a range of length
      `span`: `NaN` for a null value or an undefined top, 0 for a zero top (d3 maps
      every input of a one-point domain to the range's middle), else `|v / top * span|`. */
  function BarWidth(v: Option<real>, top: Num, span: real): (w: Num)
    ensures w.Real? ==> w.v >= 0.0
    ensures w.Real? <==> v.Some? && top.Real?
  {
    if v.None? || top.NaN? then NaN
    else if top.v == 0.0 then Real(0.0)
    else Real(Abs(v.value / top.v * span))
  }

  /** A bar of a value between 0 and the top fits in the range, and the top value's
      bar fills it. */
  lemma BarWidthBounds(v: real, top: real, span: real)
    requires 0.0 <= v <= top && top > 0.0 && span >= 0.0
    ensures BarWidth(Some(v), Real(top), span).v <= span
    ensures v == top ==> BarWidth(Some(v), Real(top), span).v == span
  {
    assert v / top <= 1.0;
    assert v / top * span <= span by {
      assert v / top * span <= 1.0 * span;
    }
  }

  /** Among non-negative values, a larger value never gets a shorter bar. */
  lemma BarWidthMonotone(a: real, b: real, top: real, span: real)
    requires 0.0 <= a <= b && top > 0.0 && span >= 0.0
    ensures BarWidth(Some(a), Real(top), span).v <= BarWidth(Some(b), Real(top), span).v
  {
    assert a / top <= b / top;
    assert a / top * span <= b / top * span;
  }

  /** One drawn bar. */
  datatype Bar = Bar(id: string, country: string, value: Option<real>, width: Num)

  /** The bars for records in the order given, against a domain top. */
  function BarsOf(recs: seq<EmissionRecord>, m: Metric, top: Num, span: real): (bars: seq<Bar>)
    ensures |bars| == |recs|
  {
    seq(|recs|, i requires 0 <= i < |recs| =>
      Bar(recs[i].id, recs[i].country, MetricValue(recs[i], m), BarWidth(MetricValue(recs[i], m), top, span)))
  }

  /** Over records in descending order, all with a non-negative value, no bar is
      shorter than a later one. */
  lemma WidthsDescending(recs: seq<EmissionRecord>, m: Metric, top: real, span: real)
    requires Descending(recs, MetricKey(m))
    requires forall i :: 0 <= i < |recs| ==> MetricValue(recs[i], m).Some? && MetricValue(recs[i], m).value >= 0.0
    requires top >= 0.0 && span >= 0.0
    ensures var bars := BarsOf(recs, m, Real(top), span);
      forall i, j :: 0 <= i < j < |bars| ==> bars[i].width.v >= bars[j].width.v
  {
    var bars := BarsOf(recs, m, Real(top), span);
    forall i, j | 0 <= i < j < |bars| ensures bars[i].width.v >= bars[j].width.v {
      assert MetricKey(m)(recs[i]) >= MetricKey(m)(recs[j]);
      if top > 0.0 {
        BarWidthMonotone(MetricValue(recs[j], m).value, MetricValue(recs[i], m).value, top, span);
      }
    }
  }

  /** What the chart draws. */
  datatype BarView = NoDataText | Bars(top: Num, bars: seq<Bar>)

  /** `drawBarChart` up to the bars it draws, for a range of length `span`. */
  function DrawBars(data: seq<EmissionRecord>, year: int, selected: seq<string>, m: Metric, span: real): (v: BarView)
    ensures v.NoDataText? <==> BarRecords(data, year, selected) == []
  {
    var recs := BarData(data, year, selected, m);
    if |recs| == 0 then NoDataText
    else
      var top := Max(recs, m);
      Bars(top, BarsOf(recs, m, top, span))
  }

  /** The x domain's top is the largest value among the bars and belongs to one of them. */
  lemma DrawBarsTop(data: seq<EmissionRecord>, year: int, selected: seq<string>, m: Metric, span: real)
    requires DrawBars(data, year, selected, m, span).Bars?
    ensures var v := DrawBars(data, year, selected, m, span);
      (forall i :: 0 <= i < |v.bars| && v.bars[i].value.Some? ==> v.top.Real? && v.bars[i].value.value <= v.top.v) &&
      (v.top.Real? ==> exists i :: 0 <= i < |v.bars| && v.bars[i].value == Some(v.top.v))
  {
    var recs := BarData(data, year, selected, m);
    var v := DrawBars(data, year, selected, m, span);
    forall i | 0 <= i < |v.bars| && v.bars[i].value.Some? ensures v.top.Real? && v.bars[i].value.value <= v.top.v {
      assert MetricValue(recs[i], m) == v.bars[i].value;
    }
    if v.top.Real? {
      var i :| 0 <= i < |recs| && MetricValue(recs[i], m) == Some(v.top.v);
      assert v.bars[i].value == Some(v.top.v);
    }
  }

  /** When every bar has a non-negative value, the widths never grow down the list. */
  lemma DrawBarsWidths(data: seq<EmissionRecord>, year: int, selected: seq<string>, m: Metric, span: real)
    requires DrawBars(data, year, selected, m, span).Bars?
    requires span >= 0.0
    requires forall r :: r in BarRecords(data, year, selected) ==> MetricValue(r, m).Some? && MetricValue(r, m).value >= 0.0
    ensures var v := DrawBars(data, year, selected, m, span);
      forall i, j :: 0 <= i < j < |v.bars| ==>
        v.bars[i].width.Real? && v.bars[j].width.Real? && v.bars[i].width.v >= v.bars[j].width.v
  {
    var kept := BarRecords(data, year, selected);
    var recs := BarData(data, year, selected, m);
    SortDescCorrect(kept, MetricKey(m));
    forall i | 0 <= i < |recs| ensures MetricValue(recs[i], m).Some? && MetricValue(recs[i], m).value >= 0.0 {
      SortDescMembers(kept, MetricKey(m), recs[i]);
    }
    var top := Max(recs, m);
    assert top.Real? by {
      assert MetricValue(recs[0], m).Some?;
    }
    WidthsDescending(recs, m, top.v, span);
    assert DrawBars(data, year, selected, m, span) == Bars(top, BarsOf(recs, m, top, span));
  }
}
