/** The scatter plot (js/scatterPlot.js): its update pass drops records with a
    null GDP and, as a side effect on the shared state, prunes the selection to
    the current gender; its points are dimmed, filled and made interactive by
    the gender filter and the selection. */
module Scatter {
  import opened Wrappers
  import opened Seqs
  import opened Records
  import opened Selection
  import Tooltip

  /** The element id of the plot's svg; a click whose target is the svg itself is a background click. */
  const SVG_ID: string := "scatter-plot"

  const Y_DOMAIN_MIN: int := 25
  const Y_DOMAIN_MAX: int := 95

  const FILL_SELECTED: string := "#f8a60e"
  const FILL_DEFAULT: string := "#5d29ea"
  const FILL_HOVER: string := "#26115d"
  const HOVER_STROKE: string := "black"

  /** `vis.data.filter(d => d.pcgdp !== null)` (js/scatterPlot.js:79). */
  function WithGdp(s: seq<Leader>): (r: seq<Leader>)
    ensures forall x :: x in r <==> x in s && x.pcgdp.Some?
    ensures IsSubsequence(r, s)
  {
    FilterIsSubsequence(s, (x: Leader) => x.pcgdp.Some?);
    Filter(s, (x: Leader) => x.pcgdp.Some?)
  }

  lemma WithGdpIdempotent(s: seq<Leader>)
    ensures WithGdp(WithGdp(s)) == WithGdp(s)
  {
    FilterIdempotent(s, (x: Leader) => x.pcgdp.Some?);
  }

  /** The view's data and the shared selection after an update pass. */
  datatype Updated = Updated(data: seq<Leader>, selected: seq<Leader>)

  /** `updateVis` (js/scatterPlot.js:79-84). */
  function Update(data: seq<Leader>, sel: seq<Leader>, g: Option<string>): (u: Updated)
    ensures forall x :: x in u.data ==> x.pcgdp.Some?
    ensures forall x :: x in u.data <==> x in data && x.pcgdp.Some?
    ensures forall x :: x in u.selected ==> PassesGender(g, x)
    ensures forall x :: x in u.selected <==> x in sel && PassesGender(g, x)
    ensures IsSubsequence(u.selected, sel)
    ensures g.None? ==> u.selected == sel
  {
    Updated(WithGdp(data), PruneToGender(sel, g))
  }

  /** A second update pass right after the first changes nothing. */
  lemma UpdateIdempotent(data: seq<Leader>, sel: seq<Leader>, g: Option<string>)
    ensures var u := Update(data, sel, g); Update(u.data, u.selected, g) == u
  {
    WithGdpIdempotent(data);
    PruneIdempotent(sel, g);
  }

  /** The upper end of the x domain, `d3.max(vis.data, d => d.pcgdp)`: the largest
      GDP among records that have one, undefined when there is none
      (js/scatterPlot.js:90). */
  function MaxGdp(s: seq<Leader>): (m: Option<int>)
    ensures m.None? <==> forall x :: x in s ==> x.pcgdp.None?
    ensures m.Some? ==> forall x :: x in s && x.pcgdp.Some? ==> x.pcgdp.value <= m.value
    ensures m.Some? ==> exists x :: x in s && x.pcgdp == m
  {
    if |s| == 0 then None
    else
      var rest := MaxGdp(s[1..]);
      assert forall x :: x in s <==> x == s[0] || x in s[1..];
      match s[0].pcgdp
      case None => rest
      case Some(v) =>
        if rest.None? || rest.value < v then Some(v) else rest
  }

  /** The x domain is [0, max GDP]; it is unaffected by records without a GDP. */
  lemma MaxGdpIgnoresMissing(s: seq<Leader>)
    ensures MaxGdp(WithGdp(s)) == MaxGdp(s)
  {
    var w := WithGdp(s);
    var a := MaxGdp(w);
    var b := MaxGdp(s);
    if b.Some? {
      var xb :| xb in s && xb.pcgdp == b;
      assert xb in w;
      assert a.Some?;
      var xa :| xa in w && xa.pcgdp == a;
      assert xa in s;
      assert a.value <= b.value && b.value <= a.value;
    } else {
      assert forall x :: x in w ==> x in s;
    }
  }

  /** The input domains of the two scales. */
  datatype Domains = Domains(x: Extent, y: Extent)

  /** `updateVis` sets the x domain to [0, the largest GDP of the plotted records]
      and the y domain to the fixed age range [25, 95] (js/scatterPlot.js:87-91). */
  function ScaleDomains(data: seq<Leader>): (d: Domains)
    ensures d.x.lo == 0
    ensures d.x.hi.None? <==> forall x :: x in data ==> x.pcgdp.None?
    ensures d.x.hi.Some? ==> forall x :: x in data && x.pcgdp.Some? ==> x.pcgdp.value <= d.x.hi.value
    ensures d.x.hi.Some? ==> exists x :: x in data && x.pcgdp == d.x.hi
    ensures d.y == Extent(25, Some(95))
  {
    Domains(Extent(0, MaxGdp(data)), Extent(Y_DOMAIN_MIN, Some(Y_DOMAIN_MAX)))
  }

  datatype Opacity = Full | Dim

  /** The `opacity` attribute (js/scatterPlot.js:117-123): full (0.7) for points
      that pass the gender filter, dim (0.15) for the rest. */
  function PointOpacity(g: Option<string>, r: Leader): (o: Opacity)
    ensures o == Full <==> PassesGender(g, r)
  {
    if g == None || r.gender == g.value then Full else Dim
  }

  /** The `fill` attribute (js/scatterPlot.js:108-114). */
  function PointFill(sel: seq<Leader>, r: Leader): (f: string)
    ensures f == FILL_SELECTED <==> Includes(sel, r)
  {
    if Includes(sel, r) then FILL_SELECTED else FILL_DEFAULT
  }

  /** Fill, stroke, stroke width and opacity of one point; `None` is an unset attribute. */
  datatype PointStyle = PointStyle(fill: string, stroke: Option<string>, strokeWidth: Option<int>, opacity: Opacity)

  /** The style a render pass gives the point of `r` (js/scatterPlot.js:108-123). */
  function RenderedPoint(sel: seq<Leader>, g: Option<string>, r: Leader): (s: PointStyle)
    ensures s.stroke.None? && s.strokeWidth.None?
    ensures s.fill == FILL_SELECTED <==> Includes(sel, r)
    ensures s.opacity == Full <==> PassesGender(g, r)
  {
    PointStyle(PointFill(sel, r), None, None, PointOpacity(g, r))
  }

  /** `mouseover.point` (js/scatterPlot.js:145-157): dimmed points do not react;
      a selected point keeps its fill. */
  function PointMouseOver(sel: seq<Leader>, g: Option<string>, r: Leader, current: PointStyle): (s: PointStyle)
    ensures !PassesGender(g, r) ==> s == current
    ensures PassesGender(g, r) ==> s.stroke == Some(HOVER_STROKE) && s.strokeWidth == Some(1)
    ensures s.opacity == current.opacity
    ensures Includes(sel, r) ==> s.fill == current.fill
    ensures PassesGender(g, r) && !Includes(sel, r) ==> s.fill == FILL_HOVER
  {
    if g.None? || r.gender == g.value then
      if !Includes(sel, r) then
        current.(stroke := Some(HOVER_STROKE), fill := FILL_HOVER, strokeWidth := Some(1))
      else
        current.(stroke := Some(HOVER_STROKE), strokeWidth := Some(1))
    else current
  }

  /** `mouseleave.point` (js/scatterPlot.js:160-175). */
  function PointMouseLeave(sel: seq<Leader>, g: Option<string>, r: Leader, current: PointStyle): (s: PointStyle)
    ensures !PassesGender(g, r) ==> s == current
    ensures PassesGender(g, r) ==> s.stroke.None? && s.strokeWidth.None?
    ensures s.opacity == current.opacity
    ensures PassesGender(g, r) && !Includes(sel, r) ==> s.fill == FILL_DEFAULT
    ensures Includes(sel, r) ==> s.fill == current.fill
  {
    if g.None? || r.gender == g.value then
      if !Includes(sel, r) then
        current.(stroke := None, strokeWidth := None, fill := FILL_DEFAULT)
      else
        current.(stroke := None, strokeWidth := None)
    else current
  }

  /** Hover reacts exactly on points that pass the gender filter, and leaving a
      point restores its rendered style. */
  lemma PointHoverRoundTrip(sel: seq<Leader>, g: Option<string>, r: Leader)
    ensures var s := RenderedPoint(sel, g, r);
      PointMouseOver(sel, g, r, s) != s <==> PassesGender(g, r)
    ensures var s := RenderedPoint(sel, g, r);
      PointMouseLeave(sel, g, r, PointMouseOver(sel, g, r, s)) == s
  {
  }

  /** `mouseover.tooltip` (js/scatterPlot.js:126-143): only points that pass the
      gender filter show a tooltip. */
  function PointTooltip(g: Option<string>, r: Leader): (c: Option<Tooltip.Content>)
    ensures c.Some? <==> PassesGender(g, r)
    ensures c.Some? ==> c.value.title == r.leader
    ensures c.Some? ==> (c.value.gdpPerCapita == Tooltip.MISSING <==> r.pcgdp.None?)
    ensures c.Some? ==> c.value.timeInOffice == Tooltip.DurationText(r.duration)
    ensures c.Some? ==> c.value.gdpPerCapita == Tooltip.GdpText(r.pcgdp)
    ensures c.Some? ==> c.value == Tooltip.ContentFor(r)
  {
    if g.None? || r.gender == g.value then Some(Tooltip.ContentFor(r)) else None
  }

  /** The point click handler (js/scatterPlot.js:177-187): the toggle is gated by the
      gender filter; the event is dispatched either way. */
  function PointClick(sel: seq<Leader>, g: Option<string>, r: Leader): (re: Reaction)
    ensures re.events == [SelectedItems]
    ensures !PassesGender(g, r) ==> re.selected == sel
    ensures PassesGender(g, r) && !Includes(sel, r) ==> re.selected == sel + [r]
    ensures UniqueIds(sel) ==> UniqueIds(re.selected)
    ensures UniqueIds(sel) && PassesGender(g, r) ==>
      Ids(re.selected) == if Includes(sel, r) then Ids(sel) - {r.id} else Ids(sel) + {r.id}
  {
    if g.None? || r.gender == g.value then
      Reaction(ToggleItem(sel, r), [SelectedItems])
    else
      Reaction(sel, [SelectedItems])
  }

  /** The svg click handler (js/scatterPlot.js:189-196): a click on the svg itself
      empties the selection and dispatches twice; any other click dispatches once. */
  function BackgroundClick(sel: seq<Leader>, targetId: string): (re: Reaction)
    ensures targetId == SVG_ID ==> re.selected == [] && re.events == [SelectedItems, SelectedItems]
    ensures targetId != SVG_ID ==> re.selected == sel && re.events == [SelectedItems]
  {
    if targetId == SVG_ID then Reaction([], [SelectedItems, SelectedItems])
    else Reaction(sel, [SelectedItems])
  }
}
