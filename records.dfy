/** Emission records as the dashboard holds them after loading (main.js, script.js). */
module Records {

  datatype Option<+T> = None | Some(value: T)

  /** The metric radio button. The source compares the chosen string with the
      Total label; every other value selects the share. */
  datatype Metric = Total | Share

  /** One row of the merged emissions CSV after automatic typing: an empty cell is null. */
  datatype RawRow = RawRow(
    entity: string,
    code: Option<string>,
    year: int,
    foodEmissions: Option<real>,   // "Greenhouse gas emissions from food"
    foodShare: Option<real>)       // "Share of total greenhouse gas emissions that come from food"

  /** A normalised record: one region in one year. */
  datatype EmissionRecord = EmissionRecord(
    country: string,
    id: string,
    year: int,
    total: Option<real>,
    share: Option<real>)

  /** The code is truthy: present and not the empty string. */
  predicate HasCode(row: RawRow) {
    row.code.Some? && row.code.value != ""
  }

  /** The column renaming of one row. */
  function Convert(row: RawRow): EmissionRecord
    requires HasCode(row)
  {
    EmissionRecord(row.entity, row.code.value, row.year, row.foodEmissions, row.foodShare)
  }

  /** `csvData.map(...).filter(d => d.id)`: rename the columns and keep the rows with a truthy code. */
  function Normalise(rows: seq<RawRow>): (recs: seq<EmissionRecord>)
    ensures |recs| <= |rows|
    ensures forall r :: r in recs ==> r.id != "" && exists row :: row in rows && HasCode(row) && r == Convert(row)
  {
    if rows == [] then []
    else (if HasCode(rows[0]) then [Convert(rows[0])] else []) + Normalise(rows[1..])
  }

  /** Normalisation works row by row: it distributes over concatenation, so the
      kept records appear in the order of their rows. */
  lemma {:induction false} NormaliseAppend(a: seq<RawRow>, b: seq<RawRow>)
    ensures Normalise(a + b) == Normalise(a) + Normalise(b)
  {
    if a == [] {
      assert a + b == b;
    } else {
      var head := if HasCode(a[0]) then [Convert(a[0])] else [];
      assert (a + b)[0] == a[0] && (a + b)[1..] == a[1..] + b;
      assert Normalise(a + b) == head + Normalise(a[1..] + b);
      assert Normalise(a) == head + Normalise(a[1..]);
      NormaliseAppend(a[1..], b);
      AppendAssoc(head, Normalise(a[1..]), Normalise(b));
    }
  }

  lemma AppendAssoc<T>(x: seq<T>, y: seq<T>, z: seq<T>)
    ensures x + (y + z) == (x + y) + z
  {
  }

  /** One row is kept, renamed, exactly when its code is truthy. */
  lemma NormaliseSingle(row: RawRow)
    ensures Normalise([row]) == if HasCode(row) then [Convert(row)] else []
  {
    assert [row][1..] == [];
  }

  /** Every row with a truthy code contributes its record. */
  lemma {:induction false} NormaliseComplete(rows: seq<RawRow>, row: RawRow)
    requires row in rows && HasCode(row)
    ensures Convert(row) in Normalise(rows)
  {
    if rows[0] != row {
      NormaliseComplete(rows[1..], row);
    }
  }

  /** The metric accessor `getValue`: the total or the share, by mode. */
  function MetricValue(r: EmissionRecord, m: Metric): Option<real> {
    match m
    case Total => r.total
    case Share => r.share
  }

  /** A null value in JavaScript arithmetic (`a - b` in a sort comparator) counts as 0. */
  function ValueOrZero(v: Option<real>): real {
    if v.Some? then v.value else 0.0
  }

  /** The sort key of the comparator `(a, b) => getValue(b) - getValue(a)`. */
  function MetricKey(m: Metric): EmissionRecord -> real {
    r => ValueOrZero(MetricValue(r, m))
  }

  /** `data.filter(d => d.year === currentYear)`: the year filter the map and the line
      chart's hover read-out share. */
  function YearRecords(data: seq<EmissionRecord>, year: int): (recs: seq<EmissionRecord>)
    ensures |recs| <= |data|
    ensures forall r :: r in recs <==> r in data && r.year == year
  {
    if data == [] then []
    else
      var init, last := data[..|data| - 1], data[|data| - 1];
      assert data == init + [last];
      YearRecords(init, year) + (if last.year == year then [last] else [])
  }
}
