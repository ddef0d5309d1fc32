# Food emissions dashboard: a verified model of its chart logic

The dashboard shows greenhouse-gas emissions from food on a world map.
Four linked charts sit beside it: stacked lifecycle stages, time-series lines,
a yearly ranking of bars, and a food-product breakdown. Clicking a region on
the map adds it to the selection or removes it, and every chart follows. The
drawing itself is D3 code. Inside it is a small amount of logic. This project
models that logic in Dafny and proves what it does.

The modules follow the source files:

- `Records` (main.js, script.js): the emission record, the two-valued metric, the
  normalisation of the loaded CSV rows and the year filter that the map and the line
  chart's read-out share.
- `Extents`: JavaScript's `Math.max`/`Math.min` with `NaN`, truthiness, and
  d3's `extent` and `max`, which skip null values.
- `Sorting`: the ordering that `array.sort((a, b) => key(b) - key(a))` produces. It is
  a stable sort with the largest key first, written as a function on sequences.
- `MapView` (map.js and script.js): the per-year `id → value` lookup, where the last
  entry wins. Also the colour-domain guard, region fill and outline, the info panel
  and the legend cursor. The two revisions are the `Dashboard` and `Standalone`
  variants of `Revision`.
- `Selection` (main.js, map.js, script.js): the module-level state as a class.
  The year slider, the metric radio and the map click are its methods. Each method
  logs the renderers it runs, in order.
- `StackedChart` (stackedChart.js): the ISO-to-FAO name translation, the row
  filter, the (year, stage) rollup and the one-row-per-year table. The `for … of
  stages` loop is a method with a loop invariant.
- `LineChart` (lineChart.js): the selection filter, the y-axis maximum with its
  fallback, grouping by id, and the hover read-out. The read-out covers the year
  range check, the off-chart dots and the sorted tooltip; the tooltip is built by a
  loop method.
- `BarChart` (barChart.js): the year-and-selection filter, the descending sort, the
  x-domain top and the bar widths.
- `FoodCharts` (foodCharts.js): the top fifteen products and the panel state as a
  class. Hover previews a product and click commits it; the class tracks the active
  product, the highlighted bar and the donut shown. Also the pie data, the slice
  labels and the legend, which a loop method builds.

JavaScript's `undefined` and `NaN` are modelled as one value, `Num.NaN`. Both are
falsy, and both make `Math.max` and `Math.min` return `NaN`. CSV nulls are `None`.
Emission values are `real`.

In Share mode, map.js raises the domain's lower end to 0 and lowers its upper end
to 100. A year whose smallest share is above 100 therefore gets a reversed domain,
such as `[120, 100]`. The model keeps this as written; `MapView.ShareRevisionsDiffer`
states it for one region.

## Model

| member | source | states |
|---|---|---|
| Records.Normalise | main.js:21-27 | every kept record has a non-empty id and is the column renaming of a row with a truthy code; there are never more records than rows |
| Records.NormaliseAppend | main.js:21-27 | normalisation works row by row: it distributes over concatenation, so kept records stay in row order |
| Records.NormaliseSingle | script.js:17-23 | one row is kept, renamed, exactly when its code is truthy |
| Records.NormaliseComplete | main.js:27 | no row with a truthy code is dropped |
| Extents.JsMax | map.js:30 | `Math.max` is a number exactly when both arguments are, and then it is the larger one |
| Extents.JsMin | map.js:33 | `Math.min` is a number exactly when both arguments are, and then it is the smaller one |
| Extents.Extent | map.js:28 | both ends are undefined exactly when no record has a value; otherwise the ends bound every value and are attained |
| Extents.Max | barChart.js:33 | the maximum is undefined exactly when no record has a value; otherwise it bounds every value and is attained |
| Sorting.SortDescCorrect | barChart.js:18 | the comparator sort gives descending keys, a permutation of its input, and the input order among equal keys |
| Sorting.SortDescMembers | lineChart.js:88 | sorting keeps exactly the elements it was given |
| Records.YearRecords | map.js:25 | the year filter keeps exactly the records of that year |
| MapView.Lookup | map.js:26 | the lookup's keys are exactly the ids of the records |
| MapView.YearLookupKeys | script.js:67-69 | an id is in the lookup exactly when it has a record in the current year |
| MapView.YearLookupLastWins | map.js:26 | for an id recorded more than once in the year, the last record's value is the one kept |
| MapView.ValueAtFromRecord | map.js:47-48 | a value found in the lookup is the metric value of a current-year record of that id |
| MapView.GuardedDomain | map.js:28-34 | Total: the lower end becomes max(100000, observed min), or 100000 when the min is missing or 0, and the upper end is untouched. Share in map.js: a lower end below 0 becomes 0 and an upper end above 100 becomes 100, any other end is kept, and an undefined end stays undefined. Share in script.js: the domain is unchanged |
| MapView.GuardDomain | script.js:71-75 | the in-place writes to the two-element domain array leave exactly the guarded domain |
| MapView.RegionFill | map.js:36-49 | a region without a value gets the neutral fill, never a scale colour. In Total mode the scale gets the value itself. In Share mode it gets the value clamped to [0, 100]: below 0 gives 0, above 100 gives 100, and in range the value |
| MapView.RegionStroke | map.js:50-51 | the outline is the dark, wide one exactly when the region is selected |
| MapView.CursorInput | map.js:137-146 | the cursor is hidden exactly when the value is null. script.js puts it at the raw value. map.js clamps it in Share mode to [0, 100] (below gives 0, above gives 100, in range the value). In Total mode map.js clamps it to the domain: nearest end outside it, the value inside it, the lower end for a reversed domain, and undefined when an end is undefined |
| MapView.InfoTextFor | script.js:146-158 | the panel shows the no-data text exactly when the value is null |
| MapView.DrawMapRegions | map.js:42-51 | each region is grey exactly when it has no current-year value. A coloured region takes the fill of a current-year record of its own id, and it is outlined exactly when it is selected |
| MapView.RegionFillLastRecord | map.js:26-48 | when a region's id has several records in the year, its fill comes from the last one |
| MapView.FocusUsesCurrentValue | map.js:148-152 | after a redraw the panel and the cursor use the focused id's current value; the value stored at the click plays no part |
| MapView.CursorOnANumber | map.js:137-152 | when the focused region has a value, the cursor is at a number. In map.js it lies in [0, 100] (Share) or in a forward domain (Total); script.js puts it at the raw value |
| MapView.TotalDomainFloor | script.js:71-75 | in Total mode both revisions give the same domain, with a lower end of at least 100000 and at least the observed minimum |
| MapView.SingleRecord | map.js:25-28 | a single record of the year gives a one-entry lookup and a one-point extent |
| MapView.ShareRevisionsDiffer | script.js:71-80 | for a lone share above 100, map.js gives the reversed domain [v, 100] and a cursor at 100; script.js gives [v, v] and a cursor at v; both fill with the clamped 100 |
| MapView.TwoRegionDomain | map.js:25-30 | two regions of one year above the floor: the lookup holds both totals and the domain spans them |
| Selection.Without | map.js:86 | the filter keeps exactly the other codes and never lengthens the list |
| Selection.ToggleRemoves | map.js:85-86 | toggling a selected code removes it; the other codes keep their relative order |
| Selection.ToggleAppends | map.js:87-88 | toggling an unselected code appends it at the end; earlier entries are unchanged |
| Selection.ToggleMembership | script.js:127-131 | after a toggle the clicked code's membership is flipped, and every other code's is unchanged |
| Selection.WithoutNoDuplicates | map.js:86 | removing a code keeps a duplicate-free list duplicate-free |
| Selection.ToggleNoDuplicates | map.js:85-89 | a toggle never introduces a duplicate |
| Selection.ToggleTwice | map.js:85-89 | two toggles of one code restore the selected set; an unselected code restores the list, and a selected one ends up moved to the end |
| Selection.RedrawPass | main.js:48-53 | a state change redraws the map first; main.js then redraws stacked, line and bar, and script.js redraws only the map |
| Selection.StartupPass | main.js:33-34 | the first draw is the redraw pass, plus the food charts in main.js only |
| Selection.DashboardState.constructor | main.js:6-9 | the initial state is year 2015, metric Total, selection [FRA, USA, CHN] and no focus |
| Selection.DashboardState.Load | main.js:21-34 | loading stores the normalised records, runs the start-up pass and changes nothing else |
| Selection.DashboardState.SetYear | main.js:36-40 | the slider sets the year, keeps metric, selection and focus, and runs one redraw pass |
| Selection.DashboardState.SetMetric | main.js:42-45 | the radio sets the metric, keeps every other field, and runs one redraw pass |
| Selection.DashboardState.Click | map.js:80-94 | a click toggles the code and keeps the list duplicate-free. It always sets the focus to the code, the name and the code's current-year value, then runs one redraw pass |
| Selection.ClickTwice | script.js:122-135 | two clicks on one region restore the selected set and leave the focus on it |
| StackedChart.FaoNamesSpec | stackedChart.js:20-28 | a name is in the translated list exactly when a selected code maps to it; codes outside the table are dropped |
| StackedChart.RowsOf | stackedChart.js:30 | the filter keeps exactly the rows of the listed countries |
| StackedChart.SelectRowsSpec | stackedChart.js:26-34 | an empty selection uses every FAO row. A non-empty one uses exactly the rows of countries a selected code maps to, so no row when no code maps |
| StackedChart.StageSumNone | stackedChart.js:43 | rows of other years or stages add nothing to a sum |
| StackedChart.StageSumAppend | stackedChart.js:43 | the sum over joined rows is the sum of the parts' sums |
| StackedChart.StageSumPermutation | stackedChart.js:42-46 | the (year, stage) sums do not depend on the order of the rows |
| StackedChart.RollupSpec | stackedChart.js:42-46 | the rollup has a group for each year present and, within it, an entry for each stage present, holding that (year, stage) sum |
| StackedChart.InsertYear | stackedChart.js:54 | inserting a year keeps the list ascending and adds exactly that year |
| StackedChart.YearsOf | stackedChart.js:48-54 | the years are ascending and are exactly the years of the rows |
| StackedChart.AscendingUnique | stackedChart.js:54 | there is only one ascending order of a set of years |
| StackedChart.BuildRow | stackedChart.js:49-52 | the stage loop builds one field per fixed stage, holding its sum or 0 |
| StackedChart.RowOfRollup | stackedChart.js:48-52 | the row built from a year's group holds that year's eight stage sums |
| StackedChart.StackDataYears | stackedChart.js:48-54 | there is one row per distinct year, sorted ascending by year |
| StackedChart.StackDataSums | stackedChart.js:42-53 | each row's field for each of the 8 stages is the sum of that (year, stage), or 0 when there are none |
| StackedChart.StackDataFields | stackedChart.js:36-40 | stages outside the fixed list never become fields, and all eight always do |
| StackedChart.StackDataPermutation | stackedChart.js:42-54 | reordering the input rows leaves the table unchanged |
| StackedChart.StackDataEmpty | stackedChart.js:76-80 | the table is empty exactly when there is no row to aggregate |
| StackedChart.DrawStacked | stackedChart.js:76-83 | the placeholder is drawn exactly when no row is selected; otherwise the eight stages are stacked over the table |
| StackedChart.UnmappableSelection | stackedChart.js:27-33 | a selection with no code in the table draws the placeholder |
| LineChart.SelectedRecords | lineChart.js:31 | the filter keeps exactly the records, of all years, whose id is selected |
| LineChart.SelectedRecordsAppend | lineChart.js:31 | the filter keeps the records' original order |
| LineChart.SelectedRecordsAll | lineChart.js:31 | when every record is selected, the filter returns the data unchanged |
| LineChart.MaxYBounds | lineChart.js:40 | the y maximum is the largest plotted value when that is non-zero. It is 1e6 (Total) or 100 (Share) when there is no value or the largest is 0. It is never 0 and reaches every plotted value |
| LineChart.GroupKeys | lineChart.js:50 | the group keys are distinct and are exactly the ids present |
| LineChart.Group | lineChart.js:50 | a group holds exactly the records of its id |
| LineChart.GroupAppend | lineChart.js:50 | a group keeps its records' original order |
| LineChart.GroupedSpec | lineChart.js:50-56 | each line is non-empty and holds only its id's records; no two lines share an id; every record is on its id's line |
| LineChart.DrawLines | lineChart.js:33-37 | the placeholder is drawn exactly when the selection is empty |
| LineChart.DrawLinesSpec | lineChart.js:31-56 | every line is a selected region's, every selected region with records has a line, and the y axis reaches every plotted value |
| LineChart.Find | lineChart.js:84 | the search returns the first record of the id, and nothing exactly when there is none |
| LineChart.DotFor | lineChart.js:83-86 | a selected region's dot is off the chart exactly when it has no record that year |
| LineChart.BuildTooltip | lineChart.js:90-91 | the loop appends one line per record, in the records' order |
| LineChart.HoverAt | lineChart.js:75-80 | a hovered year outside [1990, 2015] causes no update. Otherwise there is one dot per selected code and one tooltip line per record of that year |
| LineChart.HoverSpec | lineChart.js:77-91 | the tooltip lists exactly the hovered year's records, largest value first (null as 0), ties in data order; a selected id without a record there is off the chart |
| BarChart.BarRecords | barChart.js:17 | the filter keeps exactly the current year's records whose id is selected |
| BarChart.BarRecordsAppend | barChart.js:17 | the filter keeps the records' original order |
| BarChart.BarDataSpec | barChart.js:17-18 | the bars are exactly the filtered records, each as often as in the data, sorted by descending value (null as 0), ties in data order |
| BarChart.BarWidth | barChart.js:47 | a width is never negative. It is a number exactly when the value is non-null and the domain top is defined |
| BarChart.BarWidthBounds | barChart.js:32-34 | a bar of a value between 0 and the top fits in the range, and the top's bar fills it |
| BarChart.BarWidthMonotone | barChart.js:47 | among non-negative values, a larger value never gets a shorter bar |
| BarChart.WidthsDescending | barChart.js:43-47 | over descending non-negative values, no bar is shorter than a later one |
| BarChart.DrawBars | barChart.js:25-30 | the placeholder is drawn exactly when no record passes the filter |
| BarChart.DrawBarsTop | barChart.js:32-34 | the x domain's top is the largest bar value and belongs to one of the bars |
| BarChart.DrawBarsWidths | barChart.js:43-47 | when all values are non-negative, the widths never grow down the sorted list |
| FoodCharts.TopFoodsSpec | foodCharts.js:14-22 | the shown products come largest first. With the dropped ones they make up the data, no dropped product emits more than a shown one, and the first (active) product emits the most |
| FoodCharts.MaxTotal | foodCharts.js:51 | the domain top bounds every shown total and is one of them |
| FoodCharts.FoodBarWidth | foodCharts.js:61 | a bar width is never negative |
| FoodCharts.FoodBarWidthOrder | foodCharts.js:51-61 | against a positive top, larger totals get bars at least as long, bars stay within the range, and the top's bar fills it |
| FoodCharts.TopFoodBars | foodCharts.js:51-61 | the domain top is the first product's total. When it is positive, the first bar fills the range and no bar is longer than an earlier one |
| FoodCharts.ExactlyOneLit | foodCharts.js:54-57 | exactly one bar is highlighted: the hovered one if any, otherwise the active one |
| FoodCharts.PieDataSpec | foodCharts.js:24-103 | there are 7 slices in the fixed stage order. A missing or non-numeric stage value becomes 0, and a numeric one is kept |
| FoodCharts.SliceLabelShare | foodCharts.js:116 | for a positive total, a slice is labelled exactly when it is more than 5% of it |
| FoodCharts.SomeSliceLabelled | foodCharts.js:103-116 | when the stages add up to a positive total, at least one slice is labelled |
| FoodCharts.BuildLegend | foodCharts.js:120-130 | the loop appends one entry per stage, in stage order |
| FoodCharts.LegendMatchesPie | foodCharts.js:121-122 | each entry carries its stage's label and shows "0.00" exactly when the slice is at most 0, else the slice's value |
| FoodCharts.DrawDonut | foodCharts.js:102-131 | the centre shows the product's name and total. Slice i is stage i's value, labelled (with that value) exactly when it is above 5% of the total. Legend entry i carries stage i's label and shows "0.00" exactly when the slice is at most 0, else the slice's value |
| FoodCharts.FoodPanel.constructor | foodCharts.js:21-22 | the panel shows the top products, and the first is active, highlighted and drawn; with no product the donut fails |
| FoodCharts.FoodPanel.Enter | foodCharts.js:65 | hovering highlights only that bar and draws its product, and the active product is unchanged |
| FoodCharts.FoodPanel.Leave | foodCharts.js:66 | leaving highlights only the active bar and draws the active product |
| FoodCharts.FoodPanel.Click | foodCharts.js:67 | a click makes the product active, highlights only it and draws it |
| FoodCharts.HoverThenLeave | foodCharts.js:65-66 | a hover then a leave shows the active product again, as before |

## Left out

- Rendering: element creation, projections, paths, arcs, axes, tooltips' pixel positions and `getBoundingClientRect`. These are D3 and DOM work the model cannot see.
- Data loading: `Promise.all` over `d3.csv`/`d3.json`, the remote boundary file and the `try/catch` around the food CSV. The loaded rows are parameters.
- `d3.autoType`: the model takes its output as given. An empty cell is null and a year is an integer.
- Colour interpolation, the log and linear scales' output colours, and the legend gradient stops. These are floating-point numerics. Only the domain guards and the inputs the scales receive are modelled.
- `d3.format` and the "G" to "Md" replacement. The info panel, tooltip and legend keep the numbers they would format.
- The stacked chart's tooltip: `d3.bisector` and the lookup of the layer under the mouse. This is mouse geometry over floats.
- The stacked chart's y-axis maximum and the colour and label tables: these are display only.
- merge_csv_script.py: a file-to-file join through pandas, which the model does not run.
- The sorts of barChart.js:18, lineChart.js:88 and foodCharts.js:14 work in place, but each sorts a fresh local array. They are modelled as the value the sort produces, so there is no aliasing to capture.
- StackedChart.StageSumPermutation and StackedChart.StackDataPermutation: the sums are exact `real` additions. `d3.sum` adds floating-point numbers, so in the source the order of the rows can change a sum in its last bits; the order-independence holds there only up to rounding.
- The `Total_emissions` coercion of foodCharts.js:13 (`+text`): totals are taken as numbers. A non-numeric total would give `NaN`; then the comparator is inconsistent and the sort order is unspecified.
- The metric radio's string value: every value other than the Total label selects the share, so `Metric` has two values.
- A click on the food panel's bar only happens on a drawn bar: `FoodPanel.Enter`, `Leave` and `Click` require an index below the number of bars.
- FoodCharts.FoodPanel.constructor: with an empty food table the source throws a `TypeError` in `drawDonut(undefined)`. The model records this as `NoProductError` and does not model the abandoned rest of the call.
- The mouse position on the line chart is given as the hovered year. The `x.invert` and `Math.round` that compute it are pixel geometry.
