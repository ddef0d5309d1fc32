/** The dashboard's selection state (the module-level globals of main.js and of
    script.js), its three mutations and the redraws that follow each of them. */
module Selection {
  import opened Records
  import opened MapView

  /** No code occurs twice. */
  predicate NoDuplicates(s: seq<string>) {
    forall i, j :: 0 <= i < j < |s| ==> s[i] != s[j]
  }

  /** `sel.filter(c => c !== code)`. */
  function Without(sel: seq<string>, code: string): (r: seq<string>)
    ensures forall c :: c in r <==> c in sel && c != code
    ensures |r| <= |sel|
  {
    if sel == [] then []
    else (if sel[0] == code then [] else [sel[0]]) + Without(sel[1..], code)
  }

  /** The map-click toggle: remove the code if it is selected, otherwise append it. */
  function Toggled(sel: seq<string>, code: string): seq<string> {
    if code in sel then Without(sel, code) else sel + [code]
  }

  lemma {:induction false} WithoutAppend(a: seq<string>, b: seq<string>, code: string)
    ensures Without(a + b, code) == Without(a, code) + Without(b, code)
  {
    if a == [] {
      assert a + b == b;
    } else {
      assert (a + b)[1..] == a[1..] + b;
      WithoutAppend(a[1..], b, code);
    }
  }

  lemma {:induction false} WithoutAbsent(sel: seq<string>, code: string)
    requires code !in sel
    ensures Without(sel, code) == sel
  {
    if sel != [] {
      WithoutAbsent(sel[1..], code);
    }
  }

  lemma SplitNotInParts(before: seq<string>, code: string, after: seq<string>)
    requires NoDuplicates(before + [code] + after)
    ensures code !in before && code !in after
  {
    var sel := before + [code] + after;
    assert sel[|before|] == code;
    forall i | 0 <= i < |before| ensures before[i] != code {
      assert sel[i] == before[i];
    }
    forall i | 0 <= i < |after| ensures after[i] != code {
      assert sel[|before| + 1 + i] == after[i];
    }
  }

  /** A selected code is removed and every other code keeps its place relative to the rest. */
  lemma ToggleRemoves(before: seq<string>, code: string, after: seq<string>)
    requires NoDuplicates(before + [code] + after)
    ensures Toggled(before + [code] + after, code) == before + after
  {
    var sel := before + [code] + after;
    SplitNotInParts(before, code, after);
    assert sel[|before|] == code;
    WithoutAppend(before + [code], after, code);
    WithoutAppend(before, [code], code);
    WithoutAbsent(before, code);
    WithoutAbsent(after, code);
    assert Without([code], code) == [];
    calc {
      Toggled(sel, code);
      Without(sel, code);
      Without(before + [code], code) + Without(after, code);
      Without(before, code) + Without([code], code) + Without(after, code);
      before + after;
    }
  }

  /** An unselected code goes to the end; the earlier entries stay as they were. */
  lemma ToggleAppends(sel: seq<string>, code: string)
    requires code !in sel
    ensures var r := Toggled(sel, code);
      |r| == |sel| + 1 && r[..|sel|] == sel && r[|sel|] == code
  {
  }

  /** Membership after a toggle: the clicked code flips, every other code stays. */
  lemma ToggleMembership(sel: seq<string>, code: string, c: string)
    ensures c in Toggled(sel, code) <==> if c == code then code !in sel else c in sel
  {
  }

  lemma {:induction false} WithoutNoDuplicates(sel: seq<string>, code: string)
    requires NoDuplicates(sel)
    ensures NoDuplicates(Without(sel, code))
  {
    if sel != [] {
      assert NoDuplicates(sel[1..]) by {
        forall i, j | 0 <= i < j < |sel[1..]| ensures sel[1..][i] != sel[1..][j] {
          assert sel[1..][i] == sel[i + 1] && sel[1..][j] == sel[j + 1];
        }
      }
      WithoutNoDuplicates(sel[1..], code);
      var rest := Without(sel[1..], code);
      assert sel[0] !in sel[1..] by {
        forall j | 0 <= j < |sel[1..]| ensures sel[1..][j] != sel[0] { assert sel[1..][j] == sel[j + 1]; }
      }
      assert sel[0] !in rest;
    }
  }

  /** A toggle never introduces a duplicate. */
  lemma ToggleNoDuplicates(sel: seq<string>, code: string)
    requires NoDuplicates(sel)
    ensures NoDuplicates(Toggled(sel, code))
  {
    if code in sel {
      WithoutNoDuplicates(sel, code);
    }
  }

  /** Toggling the same code twice restores the selected set. An unselected code
      leaves the list exactly as it was; a selected one ends up moved to the end. */
  lemma ToggleTwice(sel: seq<string>, code: string)
    requires NoDuplicates(sel)
    ensures forall c :: c in Toggled(Toggled(sel, code), code) <==> c in sel
    ensures code !in sel ==> Toggled(Toggled(sel, code), code) == sel
    ensures code in sel ==> Toggled(Toggled(sel, code), code) == Without(sel, code) + [code]
  {
    if code !in sel {
      WithoutAppend(sel, [code], code);
      WithoutAbsent(sel, code);
      assert Without([code], code) == [] + Without([], code);
    }
  }

  /** The renderers one state change runs. */
  datatype View = MapChart | StackedChart | LineChart | BarChart | FoodCharts

  /** `updateAllCharts` in main.js; script.js redraws only its map. */
  function RedrawPass(rev: Revision): (views: seq<View>)
    ensures |views| > 0 && views[0] == MapChart
    ensures rev == Standalone <==> |views| == 1
  {
    match rev
    case Dashboard => [MapChart, StackedChart, LineChart, BarChart]
    case Standalone => [MapChart]
  }

  /** The renderers run once the data has loaded: main.js also draws the food charts. */
  function StartupPass(rev: Revision): (views: seq<View>)
    ensures |views| >= |RedrawPass(rev)| && views[..|RedrawPass(rev)|] == RedrawPass(rev)
    ensures FoodCharts in views <==> rev == Dashboard
  {
    match rev
    case Dashboard => RedrawPass(rev) + [FoodCharts]
    case Standalone => RedrawPass(rev)
  }

  /** The codes selected at start-up. */
  const INITIAL_SELECTION: seq<string> := ["FRA", "USA", "CHN"]

  /** The module-level state of one revision: the loaded records, the four selection
      globals and, as a log, the renderers run so far in order. */
  class DashboardState {
    const revision: Revision
    var data: seq<EmissionRecord>
    var currentYear: int
    var metric: Metric
    var selected: seq<string>
    var lastFocus: Option<Focus>
    var redraws: seq<View>

    ghost predicate Valid()
      reads this
    {
      NoDuplicates(selected)
    }

    /** The globals' initial values (main.js:6-9, script.js:4-7). */
    constructor (revision: Revision)
      ensures Valid()
      ensures this.revision == revision && data == [] && redraws == []
      ensures currentYear == 2015 && metric == Total && selected == INITIAL_SELECTION && lastFocus == None
    {
      this.revision := revision;
      data := [];
      currentYear := 2015;
      metric := Total;
      selected := INITIAL_SELECTION;
      lastFocus := None;
      redraws := [];
    }

    /** The load callback: normalise the rows, then draw everything once. */
    method Load(rows: seq<RawRow>)
      requires Valid()
      modifies this
      ensures Valid()
      ensures data == Normalise(rows)
      ensures redraws == old(redraws) + StartupPass(revision)
      ensures currentYear == old(currentYear) && metric == old(metric)
      ensures selected == old(selected) && lastFocus == old(lastFocus)
    {
      data := Normalise(rows);
      redraws := redraws + StartupPass(revision);
    }

    /** The year slider's input handler. */
    method SetYear(year: int)
      requires Valid()
      modifies this
      ensures Valid()
      ensures currentYear == year
      ensures metric == old(metric) && selected == old(selected) && lastFocus == old(lastFocus)
      ensures data == old(data)
      ensures redraws == old(redraws) + RedrawPass(revision)
    {
      currentYear := year;
      redraws := redraws + RedrawPass(revision);
    }

    /** The metric radio's change handler. */
    method SetMetric(m: Metric)
      requires Valid()
      modifies this
      ensures Valid()
      ensures metric == m
      ensures currentYear == old(currentYear) && selected == old(selected) && lastFocus == old(lastFocus)
      ensures data == old(data)
      ensures redraws == old(redraws) + RedrawPass(revision)
    {
      metric := m;
      redraws := redraws + RedrawPass(revision);
    }

    /** A click on the region `code` named `name`: toggle it, focus it with its value
      in the lookup of the last redraw, then redraw. */
    method Click(code: string, name: string)
      requires Valid()
      modifies this
      ensures Valid()
      ensures selected == Toggled(old(selected), code)
      ensures lastFocus == Some(Focus(code, name, ValueAt(YearLookup(data, currentYear, metric), code)))
      ensures currentYear == old(currentYear) && metric == old(metric) && data == old(data)
      ensures redraws == old(redraws) + RedrawPass(revision)
    {
      var value := ValueAt(YearLookup(data, currentYear, metric), code);
      ToggleNoDuplicates(selected, code);
      if code in selected {
        selected := Without(selected, code);
      } else {
        selected := selected + [code];
      }
      lastFocus := Some(Focus(code, name, value));
      redraws := redraws + RedrawPass(revision);
    }
  }

  /** Two clicks on one region restore the selected set and leave the focus on that region. */
  method ClickTwice(state: DashboardState, code: string, name: string)
    requires state.Valid()
    modifies state
    ensures state.Valid()
    ensures forall c :: c in state.selected <==> c in old(state.selected)
    ensures state.lastFocus.Some? && state.lastFocus.value.id == code
    ensures state.redraws == old(state.redraws) + RedrawPass(state.revision) + RedrawPass(state.revision)
  {
    ToggleTwice(state.selected, code);
    state.Click(code, name);
    state.Click(code, name);
  }
}
