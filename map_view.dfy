/** The choropleth map (`drawMap`) in its two revisions: map.js, driven by main.js,
    and the earlier standalone script.js. Only the logic is modelled: the id
    lookup of the year's records, the colour-domain guards, the fill and stroke choice,
    the legend cursor and the info panel. */
module MapView {
  import opened Records
  import opened Extents

  /** map.js (with main.js) is `Dashboard`; script.js is `Standalone`. */
  datatype Revision = Dashboard | Standalone

  /** The last clicked region: its code, its name and the value it had when clicked. */
  datatype Focus = Focus(id: string, name: string, value: Option<real>)

  /** `new Map(recs.map(d => [d.id, getValue(d)]))`: entries are set in order, so a
      later entry for the same id overwrites an earlier one. */
  function Lookup(recs: seq<EmissionRecord>, m: Metric): (lookup: map<string, Option<real>>)
    ensures lookup.Keys == set r | r in recs :: r.id
  {
    if recs == [] then map[]
    else
      var init, last := recs[..|recs| - 1], recs[|recs| - 1];
      assert recs == init + [last];
      Lookup(init, m)[last.id := MetricValue(last, m)]
  }

  /** The lookup `drawMap` builds for the current year and metric. */
  function YearLookup(data: seq<EmissionRecord>, year: int, m: Metric): map<string, Option<real>> {
    Lookup(YearRecords(data, year), m)
  }

  /** The map holds exactly the ids that have a record in the current year. */
  lemma YearLookupKeys(data: seq<EmissionRecord>, year: int, m: Metric, id: string)
    ensures id in YearLookup(data, year, m) <==> exists r :: r in data && r.year == year && r.id == id
  {
    assert id in YearLookup(data, year, m) <==> id in set r | r in YearRecords(data, year) :: r.id;
  }

  /** The lookup of a non-empty list is that of all but its last record, updated by
      the last record when it is of the year. */
  lemma YearLookupSnoc(data: seq<EmissionRecord>, year: int, m: Metric)
    requires |data| > 0
    ensures var init, last := data[..|data| - 1], data[|data| - 1];
      YearLookup(data, year, m) ==
        if last.year == year then YearLookup(init, year, m)[last.id := MetricValue(last, m)]
        else YearLookup(init, year, m)
  {
    var init, last := data[..|data| - 1], data[|data| - 1];
    var recs := YearRecords(init, year);
    if last.year == year {
      assert YearRecords(data, year) == recs + [last];
      assert (recs + [last])[..|recs|] == recs;
    } else {
      assert YearRecords(data, year) == recs;
    }
  }

  /** For an id recorded more than once in the current year, the last record's value wins. */
  lemma {:induction false} YearLookupLastWins(data: seq<EmissionRecord>, year: int, m: Metric, i: int)
    requires 0 <= i < |data| && data[i].year == year
    requires forall j :: i < j < |data| && data[j].year == year ==> data[j].id != data[i].id
    ensures data[i].id in YearLookup(data, year, m)
    ensures YearLookup(data, year, m)[data[i].id] == MetricValue(data[i], m)
  {
    var init, last := data[..|data| - 1], data[|data| - 1];
    YearLookupSnoc(data, year, m);
    if i < |data| - 1 {
      assert init[i] == data[i];
      assert forall j :: i < j < |init| ==> init[j] == data[j];
      YearLookupLastWins(init, year, m, i);
      assert last.year == year ==> last.id != data[i].id;
    }
  }

  /** `dataMap.get(id)` followed by the `!= null` test: a missing id and a null value
      both read as no data. */
  function ValueAt(lookup: map<string, Option<real>>, id: string): Option<real> {
    if id in lookup then lookup[id] else None
  }

  /** A value found in the lookup belongs to a record of the current year. */
  lemma {:induction false} ValueAtFromRecord(data: seq<EmissionRecord>, year: int, m: Metric, id: string)
    requires ValueAt(YearLookup(data, year, m), id).Some?
    ensures exists i :: 0 <= i < |data| && data[i].year == year && data[i].id == id &&
              MetricValue(data[i], m) == ValueAt(YearLookup(data, year, m), id)
  {
    var init, last := data[..|data| - 1], data[|data| - 1];
    YearLookupSnoc(data, year, m);
    if last.year == year && last.id == id {
      assert data[|data| - 1] == last;
    } else {
      ValueAtFromRecord(init, year, m, id);
      var i :| 0 <= i < |init| && init[i].year == year && init[i].id == id &&
               MetricValue(init[i], m) == ValueAt(YearLookup(init, year, m), id);
      assert data[i] == init[i];
    }
  }

  /** The log scale's lower bound guard. */
  const LOG_FLOOR: real := 100000.0

  /** The domain after the guard of map.js:29-34 (`Dashboard`) or script.js:72-75 (`Standalone`). */
  function GuardedDomain(rev: Revision, m: Metric, d: Domain): (g: Domain)
    ensures m == Total ==> g.hi == d.hi && g.lo.Real? && g.lo.v >= LOG_FLOOR
    ensures m == Total ==> g.lo.v == if Truthy(d.lo) && d.lo.v > LOG_FLOOR then d.lo.v else LOG_FLOOR
    ensures m == Share && rev == Dashboard ==>
              (g.lo.Real? <==> d.lo.Real?) && (g.hi.Real? <==> d.hi.Real?) &&
              (g.lo.Real? ==> g.lo.v >= 0.0 && g.lo.v >= d.lo.v) &&
              (g.hi.Real? ==> g.hi.v <= 100.0 && g.hi.v <= d.hi.v)
    ensures m == Share && rev == Dashboard && d.lo.Real? ==>
              g.lo.v == if d.lo.v < 0.0 then 0.0 else d.lo.v
    ensures m == Share && rev == Dashboard && d.hi.Real? ==>
              g.hi.v == if d.hi.v > 100.0 then 100.0 else d.hi.v
    ensures m == Share && rev == Standalone ==> g == d
  {
    match m
    case Total => Domain(JsMax(Real(LOG_FLOOR), if Truthy(d.lo) then d.lo else Real(LOG_FLOOR)), d.hi)
    case Share =>
      if rev == Dashboard then Domain(JsMax(Real(0.0), d.lo), JsMin(Real(100.0), d.hi)) else d
  }

  /** The guard as the source runs it: writes into the two-element domain array. */
  method GuardDomain(rev: Revision, m: Metric, domain: array<Num>)
    requires domain.Length == 2
    modifies domain
    ensures Domain(domain[0], domain[1]) == GuardedDomain(rev, m, Domain(old(domain[0]), old(domain[1])))
  {
    if m == Total {
      domain[0] := JsMax(Real(LOG_FLOOR), if Truthy(domain[0]) then domain[0] else Real(LOG_FLOOR));
    } else if rev == Dashboard {
      domain[0] := JsMax(Real(0.0), domain[0]);
      domain[1] := JsMin(Real(100.0), domain[1]);
    }
  }

  /** The colour-scale domain of one redraw. */
  function MapDomain(rev: Revision, data: seq<EmissionRecord>, year: int, m: Metric): Domain {
    GuardedDomain(rev, m, Extent(YearRecords(data, year), m))
  }

  /** A region's fill: the neutral grey when it has no value, otherwise the colour
      of the value the scale receives. The Share scale has the fixed domain [0, 100]
      with clamping in both revisions; the Total log scale does not clamp. */
  datatype Fill = NoDataFill | ScaleFill(input: real)

  function RegionFill(m: Metric, value: Option<real>): (f: Fill)
    ensures f.NoDataFill? <==> value.None?
    ensures f.ScaleFill? && m == Total ==> f.input == value.value
    ensures f.ScaleFill? && m == Share ==> 0.0 <= f.input <= 100.0
    ensures f.ScaleFill? && m == Share && 0.0 <= value.value <= 100.0 ==> f.input == value.value
    ensures f.ScaleFill? && m == Share && value.value < 0.0 ==> f.input == 0.0
    ensures f.ScaleFill? && m == Share && value.value > 100.0 ==> f.input == 100.0
  {
    match value
    case None => NoDataFill
    case Some(v) =>
      if m == Total then ScaleFill(v)
      else ScaleFill(if v < 0.0 then 0.0 else if v > 100.0 then 100.0 else v)
  }

  datatype Stroke = Stroke(colour: string, width: real)

  /** Selected regions get the dark, wide outline. */
  function RegionStroke(id: string, selected: seq<string>): (s: Stroke)
    ensures s.width == 2.0 <==> id in selected
    ensures s == Stroke("#333", 2.0) || s == Stroke("white", 0.5)
  {
    if id in selected then Stroke("#333", 2.0) else Stroke("white", 0.5)
  }

  /** The position, in domain units, at which `drawCursor` puts the legend cursor,
      or `None` when it hides the cursor. */
  function CursorInput(rev: Revision, m: Metric, d: Domain, value: Option<real>): (c: Option<Num>)
    ensures c.None? <==> value.None?
    ensures c.Some? && rev == Standalone ==> c.value == Real(value.value)
    ensures c.Some? && rev == Dashboard && m == Share ==> c.value.Real? && 0.0 <= c.value.v <= 100.0
    ensures c.Some? && rev == Dashboard && m == Share ==>
              c.value.v == if value.value < 0.0 then 0.0 else if value.value > 100.0 then 100.0 else value.value
    ensures c.Some? && rev == Dashboard && m == Total ==> (c.value.Real? <==> d.lo.Real? && d.hi.Real?)
    ensures c.Some? && rev == Dashboard && m == Total && d.lo.Real? && d.hi.Real? ==>
              c.value.Real? && d.lo.v <= c.value.v && (d.lo.v <= d.hi.v ==> c.value.v <= d.hi.v)
    ensures c.Some? && rev == Dashboard && m == Total && d.lo.Real? && d.hi.Real? && d.lo.v <= d.hi.v ==>
              c.value.v == if value.value < d.lo.v then d.lo.v else if value.value > d.hi.v then d.hi.v else value.value
    ensures c.Some? && rev == Dashboard && m == Total && d.lo.Real? && d.hi.Real? && d.lo.v > d.hi.v ==>
              c.value.v == d.lo.v
  {
    match value
    case None => None
    case Some(v) =>
      if rev == Standalone then Some(Real(v))
      else if m == Share then Some(JsMax(Real(0.0), JsMin(Real(100.0), Real(v))))
      else Some(JsMax(d.lo, JsMin(d.hi, Real(v))))
  }

  /** The text under the info panel's title. */
  datatype InfoText = NoDataThisYear | EmissionsText(tonnes: real) | SharePercentText(percent: real)

  /** The info panel: the initial prompt, or the focused region's name and value. */
  datatype InfoPanel = Prompt | Info(title: string, text: InfoText)

  /** `drawInfo(name, value)`. */
  function InfoTextFor(m: Metric, value: Option<real>): (t: InfoText)
    ensures t.NoDataThisYear? <==> value.None?
    ensures t.EmissionsText? <==> value.Some? && m == Total
  {
    match value
    case None => NoDataThisYear
    case Some(v) => if m == Total then EmissionsText(v) else SharePercentText(v)
  }

  datatype RegionStyle = RegionStyle(id: string, fill: Fill, stroke: Stroke)

  /** What one call of `drawMap` shows, for the given regions of the boundary file. */
  datatype MapFrame = MapFrame(domain: Domain, regions: seq<RegionStyle>, info: InfoPanel, cursor: Option<Num>)

  function DrawMap(rev: Revision, data: seq<EmissionRecord>, year: int, m: Metric,
                   selected: seq<string>, focus: Option<Focus>, regionIds: seq<string>): MapFrame
  {
    var lookup := YearLookup(data, year, m);
    var domain := MapDomain(rev, data, year, m);
    var regions := seq(|regionIds|, i requires 0 <= i < |regionIds| =>
      RegionStyle(regionIds[i], RegionFill(m, ValueAt(lookup, regionIds[i])), RegionStroke(regionIds[i], selected)));
    match focus
    case None => MapFrame(domain, regions, Prompt, None)
    case Some(f) =>
      var current := ValueAt(lookup, f.id);
      MapFrame(domain, regions, Info(f.name, InfoTextFor(m, current)), CursorInput(rev, m, domain, current))
  }

  /** Each region is filled from its own current-year value (grey exactly when it
      has none) and outlined exactly when it is selected. */
  lemma DrawMapRegions(rev: Revision, data: seq<EmissionRecord>, year: int, m: Metric,
                       selected: seq<string>, focus: Option<Focus>, regionIds: seq<string>, i: int)
    requires 0 <= i < |regionIds|
    ensures var f := DrawMap(rev, data, year, m, selected, focus, regionIds);
      |f.regions| == |regionIds| && f.regions[i].id == regionIds[i] &&
      (f.regions[i].fill.NoDataFill? <==> !exists r :: r in data && r.year == year && r.id == regionIds[i] &&
                                                    Lookup(YearRecords(data, year), m)[r.id].Some?) &&
      (f.regions[i].stroke.width == 2.0 <==> regionIds[i] in selected) &&
      (f.regions[i].fill.ScaleFill? ==>
         exists j :: 0 <= j < |data| && data[j].year == year && data[j].id == regionIds[i] &&
                     f.regions[i].fill == RegionFill(m, MetricValue(data[j], m)))
  {
    var lookup := YearLookup(data, year, m);
    YearLookupKeys(data, year, m, regionIds[i]);
    if ValueAt(lookup, regionIds[i]).Some? {
      ValueAtFromRecord(data, year, m, regionIds[i]);
    }
  }

  /** The record that fills a region is the last one of its id in the current year:
      an earlier duplicate's value is overwritten. */
  lemma RegionFillLastRecord(rev: Revision, data: seq<EmissionRecord>, year: int, m: Metric,
                             selected: seq<string>, focus: Option<Focus>, regionIds: seq<string>, i: int, j: int)
    requires 0 <= i < |regionIds| && 0 <= j < |data|
    requires data[j].year == year && data[j].id == regionIds[i]
    requires forall k :: j < k < |data| && data[k].year == year ==> data[k].id != regionIds[i]
    ensures DrawMap(rev, data, year, m, selected, focus, regionIds).regions[i].fill ==
            RegionFill(m, MetricValue(data[j], m))
  {
    YearLookupLastWins(data, year, m, j);
  }

  /** After a redraw the panel and the cursor use the focused region's value in the
      current year and metric; the value stored when it was clicked plays no part. */
  lemma FocusUsesCurrentValue(rev: Revision, data: seq<EmissionRecord>, year: int, m: Metric,
                              selected: seq<string>, id: string, name: string, stored: Option<real>,
                              regionIds: seq<string>)
    ensures var f := DrawMap(rev, data, year, m, selected, Some(Focus(id, name, stored)), regionIds);
      var current := ValueAt(YearLookup(data, year, m), id);
      f.info == Info(name, InfoTextFor(m, current)) &&
      (f.info.text.NoDataThisYear? <==> current.None?) &&
      (f.cursor.None? <==> current.None?) &&
      f == DrawMap(rev, data, year, m, selected, Some(Focus(id, name, None)), regionIds)
  {
  }

  /** When the focused region has a value, the cursor lands on a number: the domain
      bounds it is clamped against are never `undefined`. In map.js it also stays inside
      the legend's range; script.js draws it at the raw value. */
  lemma {:induction false} CursorOnANumber(rev: Revision, data: seq<EmissionRecord>, year: int, m: Metric,
                                          selected: seq<string>, focus: Focus, regionIds: seq<string>)
    requires ValueAt(YearLookup(data, year, m), focus.id).Some?
    ensures var f := DrawMap(rev, data, year, m, selected, Some(focus), regionIds);
      f.cursor.Some? && f.cursor.value.Real? &&
      (rev == Standalone ==> f.cursor.value.v == ValueAt(YearLookup(data, year, m), focus.id).value) &&
      (rev == Dashboard && m == Share ==> 0.0 <= f.cursor.value.v <= 100.0) &&
      (rev == Dashboard && m == Total && f.domain.lo.v <= f.domain.hi.v ==>
         f.domain.lo.v <= f.cursor.value.v <= f.domain.hi.v)
  {
    ValueAtFromRecord(data, year, m, focus.id);
    var i :| 0 <= i < |data| && data[i].year == year && data[i].id == focus.id &&
             MetricValue(data[i], m) == ValueAt(YearLookup(data, year, m), focus.id);
    var recs := YearRecords(data, year);
    assert data[i] in recs;
    var k :| 0 <= k < |recs| && recs[k] == data[i];
    assert HasValue(recs, m);
  }

  /** In Total mode both revisions give the log scale a lower bound of at least 100000. */
  lemma TotalDomainFloor(rev: Revision, data: seq<EmissionRecord>, year: int)
    ensures var d := MapDomain(rev, data, year, Total);
      d.lo.Real? && d.lo.v >= LOG_FLOOR && d == MapDomain(Dashboard, data, year, Total) &&
      (HasValue(YearRecords(data, year), Total) ==> d.lo.v >= Extent(YearRecords(data, year), Total).lo.v)
  {
  }

  /** A single record of year `y`: the year's lookup maps its id to its value, and the
      extent is that value at both ends. */
  lemma SingleRecord(r: EmissionRecord, m: Metric)
    ensures YearRecords([r], r.year) == [r]
    ensures YearLookup([r], r.year, m) == map[r.id := MetricValue(r, m)]
    ensures MetricValue(r, m).Some? ==>
      Extent([r], m) == Domain(Real(MetricValue(r, m).value), Real(MetricValue(r, m).value))
  {
    assert [r][..0] == [];
  }

  /** The revisions differ in Share mode: for a lone region whose share is above 100
      (possible for a net-absorbing country), map.js caps the domain's upper end and
      the cursor at 100, which leaves the domain reversed ([v, 100]); script.js keeps
      [v, v] and draws the cursor at v. The fill is clamped to 100 in both. */
  lemma ShareRevisionsDiffer(r: EmissionRecord, name: string, selected: seq<string>, regionIds: seq<string>)
    requires r.share.Some? && r.share.value > 100.0
    ensures var v := r.share.value;
      var focus := Some(Focus(r.id, name, None));
      var a := DrawMap(Dashboard, [r], r.year, Share, selected, focus, regionIds);
      var b := DrawMap(Standalone, [r], r.year, Share, selected, focus, regionIds);
      a.domain == Domain(Real(v), Real(100.0)) && a.cursor == Some(Real(100.0)) &&
      b.domain == Domain(Real(v), Real(v)) && b.cursor == Some(Real(v)) &&
      a.regions == b.regions && a.info == b.info == Info(name, SharePercentText(v)) &&
      (forall i :: 0 <= i < |regionIds| && regionIds[i] == r.id ==> a.regions[i].fill == ScaleFill(100.0))
  {
    SingleRecord(r, Share);
  }

  /** Two regions of one year in Total mode, both above the floor: the lookup holds both
      totals and the domain spans them. */
  lemma TwoRegionDomain(r1: EmissionRecord, r2: EmissionRecord, a: real, b: real)
    requires r1.year == r2.year && r1.id != r2.id
    requires r1.total == Some(a) && r2.total == Some(b) && LOG_FLOOR <= a <= b
    ensures YearLookup([r1, r2], r1.year, Total) == map[r1.id := Some(a), r2.id := Some(b)]
    ensures MapDomain(Dashboard, [r1, r2], r1.year, Total) == Domain(Real(a), Real(b))
  {
    var data := [r1, r2];
    assert data[..1] == [r1] && [r1][..0] == [];
    assert YearRecords(data, r1.year) == data;
    assert Lookup([r1], Total) == map[r1.id := Some(a)];
    assert Extent([r1], Total) == Domain(Real(a), Real(a));
  }
}
