# Political leaders dashboard: the coordination core

This project models the coordination logic of a three-view dashboard over a list
of national leaders: a bar chart of leaders per gender, a Lexis timeline with one
arrow per term of office, and a scatter plot of GDP per capita against age at
inauguration. The views share one piece of state:

- `filteredData`: the records of the region chosen in the selector;
- `currentGender`: the gender filter, or none;
- `selectedItems`: the records clicked in the timeline or the scatter plot;
- each view's own `data`.

The drawing code is left out. What remains is a small state machine plus pure
classifiers:

- Each handler is a pure function from one `Dashboard.State` to the next. The
  handlers are the initial load, a region change, the `filterGender` and
  `selectedItems` listeners, and the four view clicks.
- Each view's visuals come from a classifier over the state: the timeline's tier,
  the scatter's opacity and fill, the bar chart's counts and highlighted bar,
  and the tooltip's fields.

Modules, one per source file or shared concept:

- `Wrappers`: `Option`, standing for JavaScript's `null`.
- `Seqs`: order-preserving `Filter` and the subsequence relation.
- `Records`: the `Leader` record, identity by `id`, region and gender subsets.
- `Loading`: coercion, the duration filter and the stable sort by label (js/main.js).
- `Selection`: the item toggle, the gender toggle, selection pruning, the dispatcher's events.
- `Tooltip`: the tooltip's field texts.
- `Lexis`: js/lexisChart.js.
- `Scatter`: js/scatterPlot.js.
- `Bars`: js/barChart.js.
- `Dashboard`: js/main.js, the state, the handlers and the invariant `Inv` that every handler keeps.

Modelling choices:

- **Record identity.** The source compares records by object reference. Here each
  record carries its row index as `id`, and `Includes` tests membership by `id`.
  `Inv` keeps identifiers distinct in the data and in the selection.
- **Dispatcher.** `d3.dispatch` is replaced by a list of `Selection.Event` values
  that each view handler returns. `Dashboard.DispatchAll` runs the matching
  listener for each event, in order.
- **Hidden side effect.** The scatter plot's update pass drops null-GDP records
  and prunes the shared selection to the current gender. It is kept inside
  `Dashboard.RefreshScatter` because the source does it there. So every handler
  that updates the scatter prunes the selection.
- **Bar chart quirk.** The `filterGender` listener reassigns the bar chart's data
  but never updates it. The bars therefore always count the whole region
  (`Dashboard.BarsCountWholeRegion`).
- **Details of the code that the model keeps.**
  - The duration suffix is singular for any duration `<= 1`, so 0 reads "0 year".
  - After a region change, the scatter plot holds only the region's records that
    have a GDP figure, because its update pass filters them at once.
  - The selection is an ordered list: a click appends the record at the end.

## Model

| member | source | states |
|---|---|---|
| Records.IndexOf | js/lexisChart.js:220-221 | `indexOf`: -1 exactly when no record has the id; otherwise the first position holding it |
| Records.Includes | js/lexisChart.js:220 | `includes` holds exactly when some element of the list has the record's identity |
| Records.Column | js/main.js:64 | `d[key]`: the label, duration and GDP columns give their values, a missing GDP is undefined, and any other non-numeric key gives the region flag or undefined |
| Records.RegionSubset | js/main.js:64 | the region's records are exactly those whose column `key` equals 1, kept in load order |
| Records.GenderView | js/main.js:81-87 | the gender-filtered data is exactly the records of that gender, in order; with no filter it is all of `filteredData` |
| Loading.Coerce | js/main.js:15-23 | `pcgdp` is null exactly when the cell is `NA`; every other non-text column becomes the number its text denotes |
| Loading.CoerceAll | js/main.js:15-23 | every row is coerced, and the row index gives each record a distinct identity |
| Loading.KeepPositive | js/main.js:26-28 | the retained records are exactly those with duration > 0, in their original order |
| Loading.SortByLabel | js/main.js:31 | the result is sorted by label and is a permutation of its input |
| Loading.SortStable | js/main.js:31 | records with equal labels keep their relative order (the sort is stable) |
| Loading.LoadRecords | js/main.js:15-31 | the loaded data is exactly the coerced rows with positive duration, a permutation of them, sorted stably by label, with distinct ids |
| Loading.LabelOneLast | js/main.js:31 | with labels 0 and 1 only, every record after a label-1 record also has label 1 |
| Selection.ToggleItem | js/lexisChart.js:220-224 | an absent record is appended; a present one is removed; exactly that id's membership flips and ids stay distinct |
| Selection.RemoveAt | js/lexisChart.js:221 | `splice(i, 1)` removes exactly the element at `i`, keeping the order of the rest |
| Selection.ToggleAbsentTwice | js/lexisChart.js:220-224 | clicking an unselected record twice restores the exact selection list |
| Selection.TogglePresentTwice | js/scatterPlot.js:180-184 | clicking a selected record twice restores the set of selected ids |
| Selection.PruneToGender | js/scatterPlot.js:82-84 | the pruned selection holds exactly the selected records of the current gender, as a subsequence; with no filter it is unchanged |
| Selection.PruneIdempotent | js/scatterPlot.js:82-84 | pruning a pruned selection changes nothing |
| Selection.ToggleGender | js/main.js:81-87 | the filter becomes none exactly when the clicked gender is the current one; otherwise it becomes that gender |
| Selection.ToggleGenderTwice | js/main.js:81-86 | two clicks on one gender restore the filter exactly when it started at none or at that gender; from another gender they end at none |
| Tooltip.IntTextRoundTrip | js/lexisChart.js:242-245 | a number in the tooltip text reads back as the same number |
| Tooltip.IntText | js/lexisChart.js:242-245 | a number is rendered as a canonical decimal text (no leading zero, no `-0`) that starts with a minus exactly when the number is negative; `Tooltip.IntTextRoundTrip` shows it reads back |
| Tooltip.IntTextCanonical | js/lexisChart.js:242-245 | every canonical integer text is the rendering of its value, so a field that reads back as a number is exactly the text JavaScript prints for it |
| Tooltip.GdpText | js/lexisChart.js:233 | the GDP field is `missing` exactly when `pcgdp` is null; otherwise it is the canonical text that reads back as the figure |
| Tooltip.DurationText | js/lexisChart.js:234 | the duration field is exactly the canonical text of the number, directly followed by ` year` when the duration is at most 1 and by ` years` otherwise |
| Tooltip.DurationExamples | js/scatterPlot.js:130 | a duration of 1 reads `1 year`; a duration of 4 reads `4 years` |
| Tooltip.GdpExamples | js/scatterPlot.js:129 | a null GDP reads `missing`; a GDP of 1235 reads `1235` |
| Tooltip.ContentFor | js/lexisChart.js:232-246 | the tooltip shows the leader's name; the country, a comma, and the start and end years joined by a dash, each the canonical text of its number; the canonical text of the age at inauguration; and exactly the `DurationText` and `GdpText` fields |
| Tooltip.YearRangeText | js/lexisChart.js:242 | two years joined by a dash read back as the same two years |
| Lexis.StrokeColour | js/lexisChart.js:171-179 | the stroke follows the tier precedence: selected beats label 1, which beats the default |
| Lexis.StrokeWidth | js/lexisChart.js:180-186 | the width is 3 exactly when the record is selected or has label 1, and 1 otherwise |
| Lexis.Marker | js/lexisChart.js:187-195 | the arrow head follows the same tier precedence as the stroke |
| Lexis.LabelText | js/lexisChart.js:209-215 | the leader's name is shown on the two upper tiers; the label is empty on the default tier |
| Lexis.Rendered | js/lexisChart.js:171-195 | a rendered arrow has the default style exactly when it is on the default tier |
| Lexis.MouseOver | js/lexisChart.js:251-258 | hovering restyles only arrows that are neither selected nor label 1 |
| Lexis.MouseLeave | js/lexisChart.js:259-266 | mouse-leave puts the default style back on default-tier arrows only |
| Lexis.HoverRoundTrip | js/lexisChart.js:251-266 | hovering changes an arrow exactly on the default tier, and leaving restores exactly the rendered style |
| Lexis.Click | js/lexisChart.js:218-226 | a click flips the clicked record's membership, leaves every other record's membership alone, and dispatches `selectedItems` |
| Lexis.TooltipFor | js/lexisChart.js:231-247 | every arrow shows exactly the `ContentFor` tooltip: name, country and years, age, ` year`/` years` duration, and `missing` exactly for a null GDP |
| Scatter.WithGdp | js/scatterPlot.js:79 | the plot's data is exactly the records with a non-null GDP, as a subsequence |
| Scatter.WithGdpIdempotent | js/scatterPlot.js:79 | repeating the null filter changes nothing |
| Scatter.Update | js/scatterPlot.js:79-84 | after the update no plotted record lacks a GDP, and every selected record has the current gender |
| Scatter.UpdateIdempotent | js/scatterPlot.js:79-84 | a second update pass right after the first changes neither the data nor the selection |
| Scatter.MaxGdp | js/scatterPlot.js:90 | the x-domain maximum is undefined exactly when no record has a GDP; otherwise it is the largest GDP, reached by some record |
| Scatter.ScaleDomains | js/scatterPlot.js:87-91 | the x domain runs from 0 to the largest GDP of the plotted records, reached by one of them, with no upper end when none has a GDP; the y domain is the fixed age range [25, 95] |
| Scatter.MaxGdpIgnoresMissing | js/scatterPlot.js:79-90 | records without a GDP do not affect the x domain |
| Scatter.PointOpacity | js/scatterPlot.js:117-123 | a point is at full opacity exactly when there is no gender filter or its gender matches |
| Scatter.PointFill | js/scatterPlot.js:108-114 | a point has the accent fill exactly when it is selected |
| Scatter.RenderedPoint | js/scatterPlot.js:108-123 | a rendered point has no stroke; its fill marks selection and its opacity marks the gender gate |
| Scatter.PointMouseOver | js/scatterPlot.js:145-157 | hovering leaves points that fail the gender gate untouched; on the others it sets the black stroke, gives an unselected point the dark hover fill, and keeps a selected point's fill |
| Scatter.PointMouseLeave | js/scatterPlot.js:160-175 | mouse-leave leaves points that fail the gender gate untouched; on the others it clears the stroke and gives an unselected point the base fill back, while a selected point keeps its fill |
| Scatter.PointHoverRoundTrip | js/scatterPlot.js:145-175 | hover changes a point exactly when it passes the gender gate, and leaving restores its rendered style |
| Scatter.PointTooltip | js/scatterPlot.js:126-143 | a tooltip appears exactly for points that pass the gender gate, and it is exactly the `ContentFor` tooltip |
| Scatter.PointClick | js/scatterPlot.js:177-187 | a click toggles the point only when it passes the gender gate; `selectedItems` is dispatched either way |
| Scatter.BackgroundClick | js/scatterPlot.js:189-196 | a click whose target is the svg empties the selection; any other click leaves it |
| Bars.Rollup | js/barChart.js:65-66 | one bin per distinct gender in the data, with distinct keys; each count is that gender's number of records and is positive |
| Bars.RollupSum | js/barChart.js:65-66 | the counts add up to the number of records |
| Bars.YDomain | js/barChart.js:73 | the y domain runs from 0 to the largest bin count, reached by some bin, with no upper end when there are no bars |
| Bars.MaxCount | js/barChart.js:73 | the y-domain maximum is the largest count, reached by some bin; it is undefined when there are no bars |
| Bars.YDomainCoversEveryGroup | js/barChart.js:73 | no gender's count exceeds the top of the y domain |
| Bars.YDomainIsSomeGroup | js/barChart.js:73 | the top of the y domain is the count of some gender present in the data |
| Bars.Update | js/barChart.js:61-91 | an update pass rebuilds the bins as the rollup of the view's data, one bin per gender with that gender's record count, and gives every bar the base fill |
| Bars.BarFill | js/barChart.js:110-116 | a bar has the selected fill exactly when it is the highlighted one |
| Bars.Click | js/barChart.js:105-119 | clicking the current gender's bar gives all bars the base fill; otherwise only the clicked bar is highlighted. `filterGender` is dispatched with the bar's key |
| Dashboard.RefreshScatter | js/scatterPlot.js:79-84 | the scatter update drops null-GDP records and prunes the shared selection to the current gender; nothing else changes |
| Dashboard.Load | js/main.js:12-47 | the initial state: `filteredData` is the OECD records, no gender filter, an empty selection, and all three views hold that subset (the scatter keeps only its GDP-bearing part) |
| Dashboard.ChangeRegion | js/main.js:54-74 | from any state: no gender filter, empty selection, `filteredData` is the region's records, and every view is reset to them |
| Dashboard.ApplyGenderFilter | js/main.js:79-90 | the gender is toggled and bar and timeline data become `filteredData` restricted to it; `filteredData`, the selection, the scatter's data and the bars are unchanged |
| Dashboard.OnFilterGender | js/main.js:77-94 | after the whole listener the timeline shows the new gender's records, the bars keep their bins and highlight, and the selection keeps exactly the selected records of the new gender, in order |
| Dashboard.OnSelectedItems | js/main.js:97-100 | the `selectedItems` listener keeps exactly the selected records that pass the gender filter, in order, drops null-GDP records from the scatter, and leaves the data, the filters, the timeline and the bars alone |
| Dashboard.DispatchAll | js/main.js:77-100 | running the listeners never changes the loaded data or the region's records; a run of `selectedItems` events leaves the gender filter, the timeline and the bars alone |
| Dashboard.ClickSegment | js/lexisChart.js:218-226 | a timeline click leaves data, filters, timeline and bars alone, and the selection ends as the toggled list pruned to the gender filter; `Dashboard.ClickSegmentFlips` states it under the invariant |
| Dashboard.ClickPoint | js/scatterPlot.js:177-187 | a point click toggles the point only when it passes the gender gate, then prunes; nothing else but the scatter's data changes; `Dashboard.ClickPointGated` states it under the invariant |
| Dashboard.ClickBackground | js/scatterPlot.js:189-196 | a click on the svg itself ends with an empty selection; any other target only re-prunes the selection; nothing else but the scatter's data changes |
| Dashboard.ClickBar | js/barChart.js:105-119 | a bar click toggles the gender filter, highlights exactly the new filter's bar, keeps the bins, shows the filtered timeline and prunes the selection to the new gender |
| Dashboard.ClickSegmentFlips | js/lexisChart.js:218-226 | a timeline click flips exactly that record's membership, appends an absent record, and keeps the invariant |
| Dashboard.ClickPointGated | js/scatterPlot.js:177-187 | a scatter click flips the point's membership only when it passes the gender gate; otherwise the selection is unchanged |
| Dashboard.ClickPointToggles | js/scatterPlot.js:177-187 | a click on a point that passes the gender gate leaves exactly the toggled selection and keeps the invariant |
| Dashboard.ClickPointIgnored | js/scatterPlot.js:177-187 | a click on a point that fails the gender gate leaves the selection as it was and keeps the invariant |
| Dashboard.SelectionEventKeeps | js/main.js:97-100 | a selection of distinct records of the region that pass the gender filter comes out of the `selectedItems` listener unchanged, and the invariant holds |
| Dashboard.ClickBackgroundClears | js/scatterPlot.js:189-196 | a click on the svg itself empties the selection; any other target leaves it unchanged |
| Dashboard.ClickBarTracksGender | js/barChart.js:105-119 | after a bar click and its listener, the highlighted bar is exactly the new gender filter, and the bars are unchanged |
| Dashboard.GenderRoundTripPrunes | js/main.js:77-94 | two clicks on one bar, starting with no filter, restore the filter and the timeline; the selection keeps only records of that gender |
| Dashboard.RepeatedSelectionEvent | js/scatterPlot.js:193-195 | the background click's second dispatch changes nothing further |
| Dashboard.DefaultRegionIsInitial | js/main.js:34-38 | choosing `oecd` in the selector reproduces the state right after loading |
| Dashboard.SelectedNeverDimmed | js/scatterPlot.js:117-123 | a selected record is never dimmed in the scatter plot |
| Dashboard.BarsCountWholeRegion | js/main.js:89-93 | each bar counts its gender over the whole region, since the listener never updates the bar chart |
| Dashboard.LoadExample | js/main.js:26-28 | given a male leader with duration 5 and a female leader with duration 0, the bar chart shows one bar `M` with count 1 |

## Left out

- Drawing: SVG and DOM construction, scales, axes, markers, clip paths and pixel
  positions (the `initVis` bodies and the coordinate attributes). They are layout
  and use floating point.
- The timeline's `updateVis` accessors (js/lexisChart.js:149-158). They change no state.
- Loading the file: the asynchronous `d3.csv` fetch and its error logging are I/O.
  The load starts from already parsed rows.
- Text-to-number conversion: it is the parameter `toNumber`. Cells that do not
  parse (JavaScript's `NaN`) are not modelled, and neither are fractional numbers.
- Records.Column: a comparison `d[key] == 1` on the text columns (country,
  leader, gender) is modelled as never true. JavaScript would convert the text to
  a number first.
- Numbers are unbounded integers, not JavaScript doubles: the rounding of very
  large figures and the exponent form (`1e+21`) of `Tooltip.IntText` are not modelled.
- `Math.round` on the GDP figure: GDP is a whole number here. A fractional figure
  such as 1234.6, which `Math.round` turns into 1235, cannot occur here.
- Exact opacity values: opacity is the two-valued `Scatter.Opacity`.
- The `d3.dispatch` machinery: events are delivered by direct, synchronous calls.
- Tooltip layout: the HTML, the page coordinates, and hiding the tooltip on mouse-leave.
- The bar chart's hover stroke (js/barChart.js:93-102): pure styling with no rule
  beyond "stroke while hovered".
- Event bubbling: a point click also reaches the svg listener with the point as
  its target, which dispatches `selectedItems` once more. Only the separate
  interactions are modelled. `Dashboard.RepeatedSelectionEvent` shows that a
  repeated dispatch changes nothing.
- Bars.Rollup: its contract does not state that bins come in order of first
  occurrence. The definition builds them in that order, which matters only to
  the bar layout.
- Selection.TogglePresentTwice: it states equality of the selected ids only,
  because the second click appends the record at the end of the list.
- Handlers that run before the data has loaded would throw in the source. They are
  not modelled: a `Dashboard.State` exists only after `Dashboard.Load`.
