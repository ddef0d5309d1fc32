/** The food-product panel (`drawFoodCharts`, foodCharts.js): a bar per product for the
    fifteen largest emitters, and a donut and legend breaking one product down by stage.
    Hovering a bar previews its product; clicking makes it the active one. */
module FoodCharts {
  import opened Records
  import opened Extents
  import opened Sorting

  /** One row of the food-production table: its name, its total after `+` coercion,
      and each stage column as `+` reads it (`NaN` for text that is not a number). */
  datatype FoodProduct = FoodProduct(name: string, total: real, stageValues: map<string, Num>)

  /** The sort key of `(a, b) => b.Total_emissions - a.Total_emissions`. */
  function ByTotal(f: FoodProduct): real {
    f.total
  }

  /** How many products the bar chart shows. */
  const TOP_COUNT: nat := 15

  function TopCount(n: nat): nat {
    if n < TOP_COUNT then n else TOP_COUNT
  }

  /** `data.slice(0, 15)` after sorting the data by descending total. */
  function TopFoods(data: seq<FoodProduct>): (top: seq<FoodProduct>)
    ensures |top| == TopCount(|data|)
  {
    SortDesc(data, ByTotal)[..TopCount(|data|)]
  }

  /** The products the slice leaves out. */
  function Dropped(data: seq<FoodProduct>): seq<FoodProduct> {
    SortDesc(data, ByTotal)[TopCount(|data|)..]
  }

  /** The shown products come largest first; together with the dropped ones they are
      exactly the data; none of the dropped ones emits more than a shown one; and the
      first product, the initial active one, emits at least as much as any product. */
  lemma TopFoodsSpec(data: seq<FoodProduct>)
    ensures var top := TopFoods(data);
      Descending(top, ByTotal) &&
      multiset(top) + multiset(Dropped(data)) == multiset(data) &&
      (forall i, j :: 0 <= i < |top| && 0 <= j < |Dropped(data)| ==> top[i].total >= Dropped(data)[j].total) &&
      (|data| > 0 ==> forall f :: f in data ==> f.total <= top[0].total)
  {
    var sorted := SortDesc(data, ByTotal);
    var c := TopCount(|data|);
    SortDescCorrect(data, ByTotal);
    DescendingSplit(sorted, ByTotal, c);
    assert sorted == sorted[..c] + sorted[c..];
    if |data| > 0 {
      forall f | f in data ensures f.total <= sorted[0].total {
        assert f in multiset(data);
        DescendingFirst(sorted, ByTotal, f);
      }
    }
  }

  /** `d3.max(topFoods, d => d.Total_emissions)`, for a non-empty list. */
  function MaxTotal(foods: seq<FoodProduct>): (top: real)
    requires |foods| > 0
    ensures forall i :: 0 <= i < |foods| ==> foods[i].total <= top
    ensures exists i :: 0 <= i < |foods| && foods[i].total == top
  {
    if |foods| == 1 then foods[0].total
    else
      var rest := MaxTotal(foods[1..]);
      assert forall i :: 1 <= i < |foods| ==> foods[i] == foods[1..][i - 1];
      if foods[0].total >= rest then foods[0].total else rest
  }

  /** The x range of the bar chart is [140, 540] in its 600-wide view box. */
  const BAR_SPAN: real := 400.0

  /** `Math.max(0, xBar(total) - xBar(0))` for the scale from `[0, top]` onto the range. */
  function FoodBarWidth(total: real, top: real): (w: real)
    ensures w >= 0.0
  {
    if top == 0.0 then 0.0
    else
      var x := total / top * BAR_SPAN;
      if x > 0.0 then x else 0.0
  }

  /** Against a positive top, a larger total never gets a shorter bar, no bar passes the
      range's end, and the top's own bar reaches it. */
  lemma FoodBarWidthOrder(a: real, b: real, top: real)
    requires a <= b <= top && top > 0.0
    ensures FoodBarWidth(a, top) <= FoodBarWidth(b, top) <= BAR_SPAN
    ensures FoodBarWidth(top, top) == BAR_SPAN
  {
    assert a / top <= b / top <= 1.0;
    assert a / top * BAR_SPAN <= b / top * BAR_SPAN <= 1.0 * BAR_SPAN;
  }

  /** The axis top is the first product's total; when it is positive, the first bar
      fills the range and no bar is longer than an earlier one. */
  lemma TopFoodBars(data: seq<FoodProduct>)
    requires |data| > 0
    ensures var top := TopFoods(data);
      MaxTotal(top) == top[0].total &&
      (top[0].total > 0.0 ==>
        FoodBarWidth(top[0].total, MaxTotal(top)) == BAR_SPAN &&
        forall i, j :: 0 <= i < j < |top| ==>
          FoodBarWidth(top[j].total, MaxTotal(top)) <= FoodBarWidth(top[i].total, MaxTotal(top)) <= BAR_SPAN)
  {
    var top := TopFoods(data);
    TopFoodsSpec(data);
    var t := MaxTotal(top);
    assert t == top[0].total by {
      var i0 :| 0 <= i0 < |top| && top[i0].total == t;
      assert i0 == 0 || ByTotal(top[0]) >= ByTotal(top[i0]);
    }
    if t > 0.0 {
      forall i, j | 0 <= i < j < |top|
        ensures FoodBarWidth(top[j].total, t) <= FoodBarWidth(top[i].total, t) <= BAR_SPAN
      {
        assert ByTotal(top[i]) >= ByTotal(top[j]);
        FoodBarWidthOrder(top[j].total, top[i].total, t);
      }
      FoodBarWidthOrder(t, t, t);
    }
  }

  /** `d === hoveredFood || (!hoveredFood && d === activeFood)` for the bar at index `i`:
      products are compared by identity, which the index stands for. */
  predicate Lit(i: nat, hovered: Option<nat>, active: Option<nat>) {
    hovered == Some(i) || (hovered.None? && active == Some(i))
  }

  /** `updateBarStyles(hoveredFood)`: which of the `n` bars are drawn opaque and red. */
  function Highlights(n: nat, hovered: Option<nat>, active: Option<nat>): (lit: seq<bool>)
    ensures |lit| == n
  {
    seq(n, i requires 0 <= i < n => Lit(i, hovered, active))
  }

  /** Exactly one bar is highlighted: the hovered one if there is one, otherwise the active one. */
  lemma ExactlyOneLit(n: nat, hovered: Option<nat>, active: Option<nat>)
    requires hovered.Some? ==> hovered.value < n
    requires active.Some? && active.value < n
    ensures var lit := Highlights(n, hovered, active);
      var chosen := if hovered.Some? then hovered.value else active.value;
      forall i :: 0 <= i < n ==> (lit[i] <==> i == chosen)
  {
  }

  /** The seven stages of the breakdown, in drawing order (the column names as spelt). */
  const STAGES: seq<string> := ["Land use change", "Animal Feed", "Farm", "Processing", "Transport", "Packging", "Retail"]

  /** The legend's French label of each stage. */
  const STAGE_LABELS: map<string, string> := map[
    "Land use change" := "Déforestation", "Animal Feed" := "Alimentation animale",
    "Farm" := "À la Ferme", "Processing" := "Transformation", "Transport" := "Transport",
    "Packging" := "Emballage", "Retail" := "Supermarché"]

  /** `+foodItem[stage] || 0`: a missing column, a non-number and 0 all give 0. */
  function StageValue(f: FoodProduct, stage: string): real {
    if stage in f.stageValues && Truthy(f.stageValues[stage]) then f.stageValues[stage].v else 0.0
  }

  /** One entry of `pieData`. */
  datatype Slice = Slice(key: string, value: real)

  /** `stages.map(stage => ({ key: stage, value: +foodItem[stage] || 0 }))`. */
  function PieData(f: FoodProduct): (pie: seq<Slice>)
    ensures |pie| == |STAGES|
  {
    seq(|STAGES|, i requires 0 <= i < |STAGES| => Slice(STAGES[i], StageValue(f, STAGES[i])))
  }

  /** Seven slices in the fixed stage order; each is the stage's number when it has a
      non-zero one, and 0 when the column is missing or not a number. */
  lemma PieDataSpec(f: FoodProduct, i: int)
    requires 0 <= i < |STAGES|
    ensures |PieData(f)| == 7 && PieData(f)[i].key == STAGES[i]
    ensures STAGES[i] !in f.stageValues || f.stageValues[STAGES[i]].NaN? ==> PieData(f)[i].value == 0.0
    ensures STAGES[i] in f.stageValues && f.stageValues[STAGES[i]].Real? ==>
      PieData(f)[i].value == f.stageValues[STAGES[i]].v
  {
  }

  /** The slice label: the value (formatted) when the slice is more than 5% of the
      product's total, otherwise the empty string, here `None`. */
  function SliceLabel(value: real, total: real): Option<real> {
    if value > total * 0.05 then Some(value) else None
  }

  /** For a positive total, a slice is labelled exactly when its share of the total is above 1/20. */
  lemma SliceLabelShare(value: real, total: real)
    requires total > 0.0
    ensures SliceLabel(value, total).Some? <==> value / total > 1.0 / 20.0
  {
    if value > total * 0.05 {
      assert value / total > (total * 0.05) / total;
    } else {
      assert value / total <= (total * 0.05) / total;
    }
  }

  /** The sum of the slices. */
  function SliceSum(pie: seq<Slice>): real {
    if pie == [] then 0.0 else pie[0].value + SliceSum(pie[1..])
  }

  /** A list of slices none of which exceeds a bound sums to at most that many bounds. */
  lemma {:induction false} SliceSumBound(pie: seq<Slice>, bound: real)
    requires forall i :: 0 <= i < |pie| ==> pie[i].value <= bound
    ensures SliceSum(pie) <= |pie| as real * bound
  {
    if pie != [] {
      SliceSumBound(pie[1..], bound);
    }
  }

  /** When the stages add up to a positive total, at least one slice carries a label:
      seven slices of at most 5% each cannot make up the whole. */
  lemma SomeSliceLabelled(f: FoodProduct)
    requires f.total > 0.0 && SliceSum(PieData(f)) == f.total
    ensures exists i :: 0 <= i < |STAGES| && SliceLabel(PieData(f)[i].value, f.total).Some?
  {
    var pie := PieData(f);
    if forall i :: 0 <= i < |pie| ==> SliceLabel(pie[i].value, f.total).None? {
      SliceSumBound(pie, f.total * 0.05);
      assert false;
    }
  }

  /** A legend amount: "0.00" for a value of at most 0, else the value to two decimals. */
  datatype LegendValue = ZeroShown | Amount(v: real)

  /** One legend entry: the stage's label and its amount in kg. */
  datatype LegendEntry = LegendEntry(caption: string, amount: LegendValue)

  function LegendValueOf(val: real): LegendValue {
    if val > 0.0 then Amount(val) else ZeroShown
  }

  function EntryFor(f: FoodProduct, stage: string): LegendEntry
    requires stage in STAGE_LABELS
  {
    LegendEntry(STAGE_LABELS[stage], LegendValueOf(StageValue(f, stage)))
  }

  /** The legend of a product: one entry per stage, in stage order. */
  function Legend(f: FoodProduct): (entries: seq<LegendEntry>)
    ensures |entries| == |STAGES|
  {
    seq(|STAGES|, i requires 0 <= i < |STAGES| => EntryFor(f, STAGES[i]))
  }

  /** The `stages.forEach` loop that appends one entry per stage to the legend. */
  method BuildLegend(f: FoodProduct) returns (entries: seq<LegendEntry>)
    ensures entries == Legend(f)
  {
    entries := [];
    for i := 0 to |STAGES|
      invariant entries == Legend(f)[..i]
    {
      entries := entries + [EntryFor(f, STAGES[i])];
    }
  }

  /** Each legend entry agrees with its pie slice: it shows "0.00" exactly when the
      slice is at most 0, and the slice's value otherwise. */
  lemma LegendMatchesPie(f: FoodProduct, i: int)
    requires 0 <= i < |STAGES|
    ensures Legend(f)[i].caption == STAGE_LABELS[PieData(f)[i].key]
    ensures Legend(f)[i].amount.ZeroShown? <==> PieData(f)[i].value <= 0.0
    ensures Legend(f)[i].amount.Amount? ==> Legend(f)[i].amount.v == PieData(f)[i].value > 0.0
  {
  }

  /** What the donut shows: the product's name and total, its slices, their labels and
      the legend; or the failure when there is no product to show. */
  datatype DonutView =
    | NoProductError
    | Donut(title: string, total: real, slices: seq<Slice>, labels: seq<Option<real>>, legend: seq<LegendEntry>)

  /** `drawDonut(foodItem)` for a product. */
  function DonutOf(f: FoodProduct): DonutView {
    var pie := PieData(f);
    Donut(f.name, f.total, pie,
      seq(|pie|, i requires 0 <= i < |pie| => SliceLabel(pie[i].value, f.total)),
      Legend(f))
  }

  /** `drawDonut`, building the legend with its loop. The centre shows the product's
      name and total; slice `i` is stage `i`'s value, labelled exactly when it is above
      5% of the total; legend entry `i` names stage `i` and shows "0.00" exactly when
      the slice is at most 0, the slice's value otherwise. */
  method DrawDonut(f: FoodProduct) returns (d: DonutView)
    ensures d == DonutOf(f)
    ensures d.Donut? && d.title == f.name && d.total == f.total
    ensures |d.slices| == |d.labels| == |d.legend| == |STAGES|
    ensures forall i :: 0 <= i < |STAGES| ==> d.slices[i] == Slice(STAGES[i], StageValue(f, STAGES[i]))
    ensures forall i :: 0 <= i < |STAGES| ==>
      (d.labels[i].Some? <==> d.slices[i].value > f.total * 0.05) &&
      (d.labels[i].Some? ==> d.labels[i].value == d.slices[i].value)
    ensures forall i :: 0 <= i < |STAGES| ==>
      d.legend[i].caption == STAGE_LABELS[STAGES[i]] &&
      (d.legend[i].amount.ZeroShown? <==> d.slices[i].value <= 0.0) &&
      (d.legend[i].amount.Amount? ==> d.legend[i].amount.v == d.slices[i].value)
  {
    var legend := BuildLegend(f);
    var pie := PieData(f);
    d := Donut(f.name, f.total, pie,
      seq(|pie|, i requires 0 <= i < |pie| => SliceLabel(pie[i].value, f.total)),
      legend);
    forall i | 0 <= i < |STAGES|
      ensures d.legend[i].caption == STAGE_LABELS[STAGES[i]] &&
        (d.legend[i].amount.ZeroShown? <==> d.slices[i].value <= 0.0) &&
        (d.legend[i].amount.Amount? ==> d.legend[i].amount.v == d.slices[i].value)
    {
      LegendMatchesPie(f, i);
    }
  }

  /** The panel's state after loading: the shown products, the active one (by index),
      the bars' highlight and what the donut shows. */
  class FoodPanel {
    const topFoods: seq<FoodProduct>
    var active: Option<nat>
    var lit: seq<bool>
    var donut: DonutView

    ghost predicate Valid()
      reads this
    {
      (active.Some? <==> |topFoods| > 0) &&
      (active.Some? ==> active.value < |topFoods|) &&
      |lit| == |topFoods|
    }

    /** The load: sort, keep the top fifteen, make the first active, highlight it and
        draw its donut. With no product at all, `drawDonut(undefined)` fails. */
    constructor (data: seq<FoodProduct>)
      ensures Valid()
      ensures topFoods == TopFoods(data)
      ensures active == if |topFoods| > 0 then Some(0) else None
      ensures lit == Highlights(|topFoods|, None, active)
      ensures donut == if |topFoods| > 0 then DonutOf(topFoods[0]) else NoProductError
    {
      var top := TopFoods(data);
      var first: Option<nat> := None;
      var shown := NoProductError;
      if |top| > 0 {
        first := Some(0);
        shown := DrawDonut(top[0]);
      }
      topFoods := top;
      active := first;
      lit := Highlights(|top|, None, first);
      donut := shown;
    }

    /** `mouseenter` on bar `i`: preview its product; the active product stays. */
    method Enter(i: nat)
      requires Valid() && i < |topFoods|
      modifies this
      ensures Valid()
      ensures active == old(active)
      ensures lit == Highlights(|topFoods|, Some(i), active)
      ensures forall j :: 0 <= j < |lit| ==> (lit[j] <==> j == i)
      ensures donut == DonutOf(topFoods[i])
    {
      lit := Highlights(|topFoods|, Some(i), active);
      donut := DrawDonut(topFoods[i]);
    }

    /** `mouseleave`: back to the active product. A bar exists, so there is one. */
    method Leave()
      requires Valid() && |topFoods| > 0
      modifies this
      ensures Valid()
      ensures active == old(active)
      ensures lit == Highlights(|topFoods|, None, active)
      ensures forall j :: 0 <= j < |lit| ==> (lit[j] <==> active == Some(j))
      ensures donut == DonutOf(topFoods[active.value])
    {
      lit := Highlights(|topFoods|, None, active);
      donut := DrawDonut(topFoods[active.value]);
    }

    /** `click` on bar `i`: commit its product. */
    method Click(i: nat)
      requires Valid() && i < |topFoods|
      modifies this
      ensures Valid()
      ensures active == Some(i)
      ensures lit == Highlights(|topFoods|, None, active)
      ensures forall j :: 0 <= j < |lit| ==> (lit[j] <==> j == i)
      ensures donut == DonutOf(topFoods[i])
    {
      active := Some(i);
      lit := Highlights(|topFoods|, None, active);
      donut := DrawDonut(topFoods[i]);
    }
  }

  /** A hover followed by leaving shows the active product again, as if nothing happened. */
  method HoverThenLeave(panel: FoodPanel, i: nat)
    requires panel.Valid() && i < |panel.topFoods|
    modifies panel
    ensures panel.Valid()
    ensures panel.active == old(panel.active)
    ensures panel.lit == Highlights(|panel.topFoods|, None, old(panel.active))
    ensures panel.donut == DonutOf(panel.topFoods[old(panel.active).value])
  {
    panel.Enter(i);
    panel.Leave();
  }
}
