/** JavaScript numbers at the edges of a scale domain, and d3's extent and maximum. */
module Extents {
  import opened Records

  /** A number as the domain code sees it. `undefined` and `NaN` behave alike there:
      both are falsy and both make `Math.max` and `Math.min` return `NaN`. */
  datatype Num = NaN | Real(v: real)

  /** `Math.max(a, b)`. */
  function JsMax(a: Num, b: Num): (r: Num)
    ensures r.Real? <==> a.Real? && b.Real?
    ensures r.Real? ==> r.v >= a.v && r.v >= b.v && (r.v == a.v || r.v == b.v)
  {
    if a.NaN? || b.NaN? then NaN else Real(if a.v >= b.v then a.v else b.v)
  }

  /** `Math.min(a, b)`. */
  function JsMin(a: Num, b: Num): (r: Num)
    ensures r.Real? <==> a.Real? && b.Real?
    ensures r.Real? ==> r.v <= a.v && r.v <= b.v && (r.v == a.v || r.v == b.v)
  {
    if a.NaN? || b.NaN? then NaN else Real(if a.v <= b.v then a.v else b.v)
  }

  /** JavaScript truthiness of a number. */
  predicate Truthy(n: Num) {
    n.Real? && n.v != 0.0
  }

  /** The `[lo, hi]` pair a domain array holds. */
  datatype Domain = Domain(lo: Num, hi: Num)

  /** Some record carries a value for the metric. */
  predicate HasValue(recs: seq<EmissionRecord>, m: Metric) {
    exists i :: 0 <= i < |recs| && MetricValue(recs[i], m).Some?
  }

  /** `d3.extent(recs, getValue)`: the least and greatest non-null value, or
      `[undefined, undefined]` when there is none. */
  function Extent(recs: seq<EmissionRecord>, m: Metric): (d: Domain)
    ensures d.lo.Real? <==> HasValue(recs, m)
    ensures d.hi.Real? <==> HasValue(recs, m)
    ensures d.lo.Real? ==> forall i :: 0 <= i < |recs| && MetricValue(recs[i], m).Some? ==>
              d.lo.v <= MetricValue(recs[i], m).value <= d.hi.v
    ensures d.lo.Real? ==> exists i :: 0 <= i < |recs| && MetricValue(recs[i], m) == Some(d.lo.v)
    ensures d.hi.Real? ==> exists i :: 0 <= i < |recs| && MetricValue(recs[i], m) == Some(d.hi.v)
  {
    if recs == [] then Domain(NaN, NaN)
    else
      var init := recs[..|recs| - 1];
      var d := Extent(init, m);
      var last := MetricValue(recs[|recs| - 1], m);
      assert forall i :: 0 <= i < |init| ==> recs[i] == init[i];
      if last.None? then
        assert HasValue(recs, m) ==> HasValue(init, m);
        d
      else if d.lo.NaN? then Domain(Real(last.value), Real(last.value))
      else
        Domain(Real(if last.value < d.lo.v then last.value else d.lo.v),
               Real(if last.value > d.hi.v then last.value else d.hi.v))
  }

  /** `d3.max(recs, getValue)`: the greatest non-null value, `undefined` when there is none. */
  function Max(recs: seq<EmissionRecord>, m: Metric): (r: Num)
    ensures r.Real? <==> HasValue(recs, m)
    ensures r.Real? ==> forall i :: 0 <= i < |recs| && MetricValue(recs[i], m).Some? ==>
              MetricValue(recs[i], m).value <= r.v
    ensures r.Real? ==> exists i :: 0 <= i < |recs| && MetricValue(recs[i], m) == Some(r.v)
  {
    Extent(recs, m).hi
  }
}
