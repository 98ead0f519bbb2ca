/** The coordinator of js/main.js: the shared state, the initial load, the region
    selector, the two dispatcher handlers, and each view interaction followed by
    the handlers its events reach. `d3.dispatch` is modelled as a direct,
    synchronous call of the handler registered for each event, in order. */
module Dashboard {
  import opened Wrappers
  import opened Seqs
  import opened Records
  import opened Loading
  import opened Selection
  import Lexis
  import Scatter
  import Bars

  /** The global state of js/main.js:4-8 together with each view's `data`
      (and the bar chart's last bins and highlighted bar). */
  datatype State = State(
    data: seq<Leader>,
    filteredData: seq<Leader>,
    currentGender: Option<string>,
    selectedItems: seq<Leader>,
    lexisData: seq<Leader>,
    bar: Bars.BarView,
    scatterData: seq<Leader>)

  /** The selection the page starts with (js/main.js:34-36). */
  const DEFAULT_REGION: string := "oecd"

  /** What every handler leaves behind. */
  ghost predicate Inv(st: State)
  {
    && UniqueIds(st.data)
    && IsSubsequence(st.filteredData, st.data)
    && UniqueIds(st.filteredData)
    && UniqueIds(st.selectedItems)
    && (forall x :: x in st.selectedItems ==> x in st.filteredData)
    && (forall x :: x in st.selectedItems ==> PassesGender(st.currentGender, x))
    && st.lexisData == GenderView(st.filteredData, st.currentGender)
    && st.bar.data == st.lexisData
    && st.bar.bins == Bars.Rollup(st.filteredData)
    && st.bar.highlight == st.currentGender
    && st.scatterData == Scatter.WithGdp(st.filteredData)
  }

  /** `scatterplot.updateVis()`: drops null-GDP records from the scatter's data and
      prunes the shared selection to the current gender (js/scatterPlot.js:79-84). */
  function RefreshScatter(st: State): (res: State)
    ensures res.data == st.data && res.filteredData == st.filteredData
    ensures res.currentGender == st.currentGender
    ensures res.lexisData == st.lexisData && res.bar == st.bar
    ensures forall x :: x in res.scatterData <==> x in st.scatterData && x.pcgdp.Some?
    ensures forall x :: x in res.selectedItems <==> x in st.selectedItems && PassesGender(st.currentGender, x)
    ensures IsSubsequence(res.selectedItems, st.selectedItems)
  {
    var u := Scatter.Update(st.scatterData, st.selectedItems, st.currentGender);
    st.(scatterData := u.data, selectedItems := u.selected)
  }

  /** The load callback after parsing (js/main.js:12-47): coerce, filter and sort the
      rows, select the OECD subset, and give it to the three views. */
  function Load(rows: seq<RawRow>, toNumber: string -> int): (st: State)
    ensures Inv(st)
    ensures st.data == LoadRecords(rows, toNumber)
    ensures forall x :: x in st.filteredData <==> x in st.data && Column(x, DEFAULT_REGION) == Some(1)
    ensures st.currentGender.None? && st.selectedItems == []
    ensures st.lexisData == st.filteredData && st.bar.data == st.filteredData
    ensures forall x :: x in st.scatterData <==> x in st.filteredData && x.pcgdp.Some?
  {
    var data := LoadRecords(rows, toNumber);
    var defaultData := RegionSubset(data, DEFAULT_REGION);
    SubsequenceUnique(defaultData, data);
    var st := State(data, defaultData, None, [], defaultData, Bars.BarView(defaultData, [], None), defaultData);
    var res := RefreshScatter(st.(bar := Bars.Update(st.bar)));
    assert res == ChangeRegion(st, DEFAULT_REGION);
    res
  }

  /** The region selector's change listener (js/main.js:54-74): from any state,
      reset the filters and give the chosen region's records to every view. */
  function ChangeRegion(st: State, key: string): (res: State)
    ensures res.data == st.data
    ensures res.currentGender.None? && res.selectedItems == []
    ensures forall x :: x in res.filteredData <==> x in st.data && Column(x, key) == Some(1)
    ensures res.lexisData == res.filteredData && res.bar.data == res.filteredData
    ensures forall x :: x in res.scatterData <==> x in res.filteredData && x.pcgdp.Some?
    ensures res.bar.highlight.None?
    ensures UniqueIds(st.data) ==> Inv(res)
  {
    var filtered := RegionSubset(st.data, key);
    assert UniqueIds(st.data) ==> UniqueIds(filtered) by {
      if UniqueIds(st.data) { SubsequenceUnique(filtered, st.data); }
    }
    var reset := st.(currentGender := None, selectedItems := [], filteredData := filtered,
                     lexisData := filtered, bar := st.bar.(data := filtered), scatterData := filtered);
    RefreshScatter(reset.(bar := Bars.Update(reset.bar)))
  }

  /** The body of the `filterGender` listener before the scatter update
      (js/main.js:79-90). The bar chart's data is reassigned but it is not
      updated, and the scatter's data is left alone. */
  function ApplyGenderFilter(st: State, g: string): (res: State)
    ensures res.currentGender.None? <==> st.currentGender == Some(g)
    ensures res.currentGender.Some? ==> res.currentGender.value == g
    ensures forall x :: x in res.lexisData <==> x in st.filteredData && PassesGender(res.currentGender, x)
    ensures res.currentGender.None? ==> res.lexisData == st.filteredData
    ensures res.bar.data == res.lexisData
    ensures res.bar.bins == st.bar.bins && res.bar.highlight == st.bar.highlight
    ensures res.data == st.data && res.filteredData == st.filteredData
    ensures res.selectedItems == st.selectedItems && res.scatterData == st.scatterData
  {
    var next := ToggleGender(st.currentGender, g);
    var dataByGender := GenderView(st.filteredData, next);
    st.(currentGender := next, bar := st.bar.(data := dataByGender), lexisData := dataByGender)
  }

  /** The whole `filterGender` listener (js/main.js:77-94). */
  function OnFilterGender(st: State, g: string): (res: State)
    ensures res.currentGender == ToggleGender(st.currentGender, g)
    ensures res.data == st.data && res.filteredData == st.filteredData
    ensures res.lexisData == GenderView(st.filteredData, res.currentGender)
    ensures res.bar.data == res.lexisData && res.bar.bins == st.bar.bins
    ensures res.selectedItems == PruneToGender(st.selectedItems, res.currentGender)
    ensures forall x :: x in res.selectedItems <==> x in st.selectedItems && PassesGender(res.currentGender, x)
    ensures IsSubsequence(res.selectedItems, st.selectedItems)
    ensures res.bar.highlight == st.bar.highlight
    ensures st.scatterData == Scatter.WithGdp(st.filteredData) ==> res.scatterData == st.scatterData
  {
    Scatter.WithGdpIdempotent(st.filteredData);
    RefreshScatter(ApplyGenderFilter(st, g))
  }

  /** The `selectedItems` listener (js/main.js:97-100): the timeline's update pass
      changes no state, the scatter's does. */
  function OnSelectedItems(st: State): (res: State)
    ensures forall x :: x in res.selectedItems <==> x in st.selectedItems && PassesGender(st.currentGender, x)
    ensures IsSubsequence(res.selectedItems, st.selectedItems)
    ensures forall x :: x in res.scatterData <==> x in st.scatterData && x.pcgdp.Some?
    ensures res.data == st.data && res.filteredData == st.filteredData && res.currentGender == st.currentGender
    ensures res.lexisData == st.lexisData && res.bar == st.bar
  {
    RefreshScatter(st)
  }

  function Dispatch(st: State, e: Event): State
  {
    match e
    case FilterGender(g) => OnFilterGender(st, g)
    case SelectedItems => OnSelectedItems(st)
  }

  /** Runs the listener of each event in turn. No listener touches the loaded data
      or the region's records; a run of `selectedItems` events only touches the
      selection and the scatter's data. */
  function DispatchAll(st: State, events: seq<Event>): (res: State)
    ensures res.data == st.data && res.filteredData == st.filteredData
    ensures (forall i :: 0 <= i < |events| ==> events[i] == SelectedItems) ==>
      res.currentGender == st.currentGender && res.lexisData == st.lexisData && res.bar == st.bar
    decreases |events|
  {
    if |events| == 0 then st else DispatchAll(Dispatch(st, events[0]), events[1..])
  }

  lemma DispatchOne(st: State, e: Event)
    ensures DispatchAll(st, [e]) == Dispatch(st, e)
  {
    assert [e][1..] == [];
  }

  /** A timeline arrow is clicked (js/lexisChart.js:218-226, js/main.js:97-100). */
  function ClickSegment(st: State, r: Leader): (res: State)
    ensures res.data == st.data && res.filteredData == st.filteredData
    ensures res.currentGender == st.currentGender && res.lexisData == st.lexisData && res.bar == st.bar
    ensures forall x :: x in res.selectedItems <==>
      x in ToggleItem(st.selectedItems, r) && PassesGender(st.currentGender, x)
  {
    var re := Lexis.Click(st.selectedItems, r);
    DispatchOne(st.(selectedItems := re.selected), SelectedItems);
    DispatchAll(st.(selectedItems := re.selected), re.events)
  }

  /** A scatter point is clicked (js/scatterPlot.js:177-187, js/main.js:97-100). */
  function ClickPoint(st: State, r: Leader): (res: State)
    ensures res.data == st.data && res.filteredData == st.filteredData
    ensures res.currentGender == st.currentGender && res.lexisData == st.lexisData && res.bar == st.bar
    ensures !PassesGender(st.currentGender, r) ==>
      forall x :: x in res.selectedItems <==> x in st.selectedItems && PassesGender(st.currentGender, x)
    ensures PassesGender(st.currentGender, r) ==>
      forall x :: x in res.selectedItems <==> x in ToggleItem(st.selectedItems, r) && PassesGender(st.currentGender, x)
  {
    var re := Scatter.PointClick(st.selectedItems, st.currentGender, r);
    DispatchOne(st.(selectedItems := re.selected), SelectedItems);
    DispatchAll(st.(selectedItems := re.selected), re.events)
  }

  /** The scatter's svg receives a click (js/scatterPlot.js:189-196, js/main.js:97-100). */
  function ClickBackground(st: State, targetId: string): (res: State)
    ensures res.data == st.data && res.filteredData == st.filteredData
    ensures res.currentGender == st.currentGender && res.lexisData == st.lexisData && res.bar == st.bar
    ensures targetId == Scatter.SVG_ID ==> res.selectedItems == []
    ensures targetId != Scatter.SVG_ID ==>
      forall x :: x in res.selectedItems <==> x in st.selectedItems && PassesGender(st.currentGender, x)
  {
    var re := Scatter.BackgroundClick(st.selectedItems, targetId);
    if targetId == Scatter.SVG_ID then
      var cleared := st.(selectedItems := []);
      assert re.events == [SelectedItems, SelectedItems];
      assert DispatchAll(cleared, re.events) == DispatchAll(OnSelectedItems(cleared), [SelectedItems]) by {
        assert re.events[1..] == [SelectedItems];
      }
      DispatchOne(OnSelectedItems(cleared), SelectedItems);
      DispatchAll(cleared, re.events)
    else
      DispatchOne(st.(selectedItems := re.selected), SelectedItems);
      DispatchAll(st.(selectedItems := re.selected), re.events)
  }

  /** A bar is clicked (js/barChart.js:105-119, js/main.js:77-94). */
  function ClickBar(st: State, key: string): (res: State)
    ensures res.data == st.data && res.filteredData == st.filteredData
    ensures res.currentGender == ToggleGender(st.currentGender, key)
    ensures res.bar.highlight == ToggleGender(st.currentGender, key)
    ensures res.bar.bins == st.bar.bins
    ensures res.lexisData == GenderView(st.filteredData, res.currentGender)
    ensures forall x :: x in res.selectedItems <==> x in st.selectedItems && PassesGender(res.currentGender, x)
  {
    var re := Bars.Click(st.bar, st.currentGender, key);
    DispatchOne(st.(bar := re.view), FilterGender(key));
    DispatchAll(st.(bar := re.view), re.events)
  }

  /** Clicking a timeline arrow flips exactly that record's membership in the
      selection and keeps every invariant. */
  lemma ClickSegmentFlips(st: State, r: Leader)
    requires Inv(st) && r in st.lexisData
    ensures Inv(ClickSegment(st, r))
    ensures Includes(ClickSegment(st, r).selectedItems, r) <==> !Includes(st.selectedItems, r)
    ensures forall x: Leader :: x.id != r.id ==>
      (Includes(ClickSegment(st, r).selectedItems, x) <==> Includes(st.selectedItems, x))
    ensures !Includes(st.selectedItems, r) ==> ClickSegment(st, r).selectedItems == st.selectedItems + [r]
  {
    var toggled := ToggleItem(st.selectedItems, r);
    ToggledStaysInView(st, r, toggled);
    SelectionEventKeeps(st, toggled);
  }

  /** Clicking a scatter point toggles it when it passes the gender filter and
      leaves the selection as it was otherwise. */
  lemma ClickPointGated(st: State, r: Leader)
    requires Inv(st) && r in st.scatterData
    ensures Inv(ClickPoint(st, r))
    ensures PassesGender(st.currentGender, r) ==>
      (Includes(ClickPoint(st, r).selectedItems, r) <==> !Includes(st.selectedItems, r))
    ensures PassesGender(st.currentGender, r) ==> forall x: Leader :: x.id != r.id ==>
      (Includes(ClickPoint(st, r).selectedItems, x) <==> Includes(st.selectedItems, x))
    ensures !PassesGender(st.currentGender, r) ==> ClickPoint(st, r).selectedItems == st.selectedItems
  {
    if PassesGender(st.currentGender, r) {
      ClickPointToggles(st, r);
      ToggleIds(st.selectedItems, r);
    } else {
      ClickPointIgnored(st, r);
    }
  }

  lemma ClickPointToggles(st: State, r: Leader)
    requires Inv(st) && r in st.scatterData && PassesGender(st.currentGender, r)
    ensures Inv(ClickPoint(st, r))
    ensures ClickPoint(st, r).selectedItems == ToggleItem(st.selectedItems, r)
  {
    var toggled := ToggleItem(st.selectedItems, r);
    assert Scatter.PointClick(st.selectedItems, st.currentGender, r) == Reaction(toggled, [SelectedItems]);
    assert r in st.filteredData;
    ToggledStaysInView(st, r, toggled);
    SelectionEventKeeps(st, toggled);
  }

  /** Membership after a toggle, one record at a time. */
  lemma ToggleIds(sel: seq<Leader>, r: Leader)
    requires UniqueIds(sel)
    ensures Includes(ToggleItem(sel, r), r) <==> !Includes(sel, r)
    ensures forall x: Leader :: x.id != r.id ==>
      (Includes(ToggleItem(sel, r), x) <==> Includes(sel, x))
  {
  }

  lemma ClickPointIgnored(st: State, r: Leader)
    requires Inv(st) && !PassesGender(st.currentGender, r)
    ensures Inv(ClickPoint(st, r))
    ensures ClickPoint(st, r).selectedItems == st.selectedItems
  {
    assert Scatter.PointClick(st.selectedItems, st.currentGender, r) == Reaction(st.selectedItems, [SelectedItems]);
    SelectionEventKeeps(st, st.selectedItems);
  }

  /** A click on the scatter's own svg empties the selection; a click anywhere else in
      it leaves the selection as it was. */
  lemma ClickBackgroundClears(st: State, targetId: string)
    requires Inv(st)
    ensures Inv(ClickBackground(st, targetId))
    ensures targetId == Scatter.SVG_ID ==> ClickBackground(st, targetId).selectedItems == []
    ensures targetId != Scatter.SVG_ID ==> ClickBackground(st, targetId).selectedItems == st.selectedItems
  {
    var re := Scatter.BackgroundClick(st.selectedItems, targetId);
    if targetId == Scatter.SVG_ID {
      RepeatedSelectionEvent(st.(selectedItems := re.selected));
    }
    SelectionEventKeeps(st, re.selected);
  }

  /** A new selection made of distinct records of the region that pass the gender
      filter survives the `selectedItems` listener unchanged, and the invariant holds. */
  lemma SelectionEventKeeps(st: State, sel: seq<Leader>)
    requires Inv(st) && UniqueIds(sel)
    requires forall x :: x in sel ==> x in st.filteredData && PassesGender(st.currentGender, x)
    ensures Inv(DispatchAll(st.(selectedItems := sel), [SelectedItems]))
    ensures DispatchAll(st.(selectedItems := sel), [SelectedItems]).selectedItems == sel
  {
    var mid := st.(selectedItems := sel);
    DispatchOne(mid, SelectedItems);
    PruneKeepsPassing(sel, st.currentGender);
    Scatter.WithGdpIdempotent(st.filteredData);
  }

  /** After a bar click and the `filterGender` handler, the highlighted bar is exactly
      the new gender filter, and the bars still count the whole region. */
  lemma ClickBarTracksGender(st: State, key: string)
    requires Inv(st)
    ensures Inv(ClickBar(st, key))
    ensures ClickBar(st, key).currentGender == ToggleGender(st.currentGender, key)
    ensures ClickBar(st, key).bar.highlight == ClickBar(st, key).currentGender
    ensures ClickBar(st, key).bar.bins == st.bar.bins
  {
    var re := Bars.Click(st.bar, st.currentGender, key);
    var mid := st.(bar := re.view);
    DispatchOne(mid, FilterGender(key));
    var applied := ApplyGenderFilter(mid, key);
    var res := RefreshScatter(applied);
    assert UniqueIds(res.selectedItems) by {
      SubsequenceUnique(res.selectedItems, st.selectedItems);
    }
    assert forall x :: x in res.selectedItems ==> x in st.filteredData;
  }

  /** Starting without a gender filter, clicking the same bar twice restores the
      filter and the timeline, but the selection keeps only records of that gender:
      the first click's scatter update pruned the others for good. */
  lemma GenderRoundTripPrunes(st: State, g: string)
    requires Inv(st) && st.currentGender.None?
    ensures ClickBar(ClickBar(st, g), g).currentGender.None?
    ensures ClickBar(ClickBar(st, g), g).lexisData == st.lexisData
    ensures ClickBar(ClickBar(st, g), g).selectedItems == PruneToGender(st.selectedItems, Some(g))
  {
    var once := ClickBar(st, g);
    ClickBarTracksGender(st, g);
    ClickBarTracksGender(once, g);
    var re := Bars.Click(st.bar, st.currentGender, g);
    DispatchOne(st.(bar := re.view), FilterGender(g));
    var re2 := Bars.Click(once.bar, once.currentGender, g);
    DispatchOne(once.(bar := re2.view), FilterGender(g));
  }

  /** The background click's second dispatch only repeats the update pass. */
  lemma RepeatedSelectionEvent(st: State)
    ensures DispatchAll(st, [SelectedItems, SelectedItems]) == DispatchAll(st, [SelectedItems])
  {
    DispatchOne(st, SelectedItems);
    var once := Dispatch(st, SelectedItems);
    assert [SelectedItems, SelectedItems][1..] == [SelectedItems];
    DispatchOne(once, SelectedItems);
    Scatter.UpdateIdempotent(st.scatterData, st.selectedItems, st.currentGender);
  }

  /** Choosing the default region in the selector reproduces the state right after loading. */
  lemma DefaultRegionIsInitial(rows: seq<RawRow>, toNumber: string -> int, st: State)
    requires st.data == LoadRecords(rows, toNumber)
    ensures ChangeRegion(st, DEFAULT_REGION) == Load(rows, toNumber)
  {
  }

  /** A selected record is never dimmed in the scatter plot. */
  lemma SelectedNeverDimmed(st: State, x: Leader)
    requires Inv(st) && x in st.selectedItems
    ensures Scatter.PointOpacity(st.currentGender, x) == Scatter.Full
  {
  }

  /** Whatever the gender filter, each bar counts the records of its gender in the
      whole region, not in the gender-filtered data the chart was last given. */
  lemma BarsCountWholeRegion(st: State, i: int)
    requires Inv(st) && 0 <= i < |st.bar.bins|
    ensures st.bar.bins[i].count == Bars.CountOf(st.filteredData, st.bar.bins[i].key)
  {
  }

  lemma ToggledStaysInView(st: State, r: Leader, toggled: seq<Leader>)
    requires Inv(st) && r in st.filteredData && PassesGender(st.currentGender, r)
    requires toggled == ToggleItem(st.selectedItems, r)
    ensures UniqueIds(toggled)
    ensures forall x :: x in toggled ==> x in st.filteredData && PassesGender(st.currentGender, x)
  {
    if Includes(st.selectedItems, r) {
      SubsequenceIds(toggled, st.selectedItems);
    } else {
      assert forall x :: x in toggled ==> x in st.selectedItems || x == r;
    }
  }

  lemma PruneKeepsPassing(sel: seq<Leader>, g: Option<string>)
    requires forall x :: x in sel ==> PassesGender(g, x)
    ensures PruneToGender(sel, g) == sel
  {
    if g.Some? {
      FilterAll(sel, (x: Leader) => x.gender == g.value);
    }
  }

  /** Two rows, one male leader with a five-year term and one female leader with a
      zero-length term, both in the OECD. */
  const EXAMPLE_ROWS: seq<RawRow> := [
    RawRow("A", "Leader A", "M", "2000", "2005", "50", "55", "5", "2000", "0", map["oecd" := "1"]),
    RawRow("B", "Leader B", "F", "2001", "2001", "45", "45", "0", "3000", "0", map["oecd" := "1"])
  ]

  /** After loading, the zero-length term is gone and the bar chart shows a single
      bar "M" of height 1, for any text-to-number conversion that reads these cells. */
  lemma LoadExample(toNumber: string -> int)
    requires toNumber("5") == 5 && toNumber("0") == 0 && toNumber("1") == 1
    ensures Load(EXAMPLE_ROWS, toNumber).bar.bins == [Bars.GenderCount("M", 1)]
  {
    var a := Coerce(EXAMPLE_ROWS[0], 0, toNumber);
    ExampleRecords(toNumber);
    var st := Load(EXAMPLE_ROWS, toNumber);
    assert InRegion(a, DEFAULT_REGION);
    FilterCons(a, [], (x: Leader) => InRegion(x, DEFAULT_REGION));
    assert st.filteredData == [a];
    assert Bars.Rollup([a]) == [Bars.GenderCount("M", 1)] by {
      assert [a][..0] == [];
    }
  }

  /** The load pipeline on the example rows keeps only the first row. */
  lemma ExampleRecords(toNumber: string -> int)
    requires toNumber("5") == 5 && toNumber("0") == 0 && toNumber("1") == 1
    ensures LoadRecords(EXAMPLE_ROWS, toNumber) == [Coerce(EXAMPLE_ROWS[0], 0, toNumber)]
    ensures Coerce(EXAMPLE_ROWS[0], 0, toNumber).gender == "M"
  {
    var coerced := CoerceAll(EXAMPLE_ROWS, toNumber);
    var a := coerced[0];
    var b := coerced[1];
    assert a.duration == 5 && b.duration == 0;
    assert coerced == [a] + [b];
    FilterCons(a, [b], (x: Leader) => x.duration > 0);
    FilterCons(b, [], (x: Leader) => x.duration > 0);
    assert KeepPositive(coerced) == [a];
    assert SortByLabel([a]) == [a];
  }
}
