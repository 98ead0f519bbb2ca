/** The Lexis timeline view (js/lexisChart.js): one arrow per record whose
    stroke colour, stroke width, arrow head and name label follow one three-tier
    precedence, a hover effect for the lowest tier, and a click that toggles
    the record's selection. Scales, markers and pixel positions are not modelled. */
module Lexis {
  import opened Records
  import opened Selection
  import Tooltip

  const COLOUR_SELECTED: string := "#f8a60e"
  const COLOUR_HIGHLIGHTED: string := "#b09aec"
  const COLOUR_DEFAULT: string := "#ddd"
  const COLOUR_HOVER: string := "#818181"

  const MARKER_SELECTED: string := "url(#arrow-head-selected)"
  const MARKER_HIGHLIGHTED: string := "url(#arrow-head-highlighted)"
  const MARKER_DEFAULT: string := "url(#arrow-head)"
  const MARKER_HOVER: string := "url(#arrow-head-hover)"

  const STROKE_WEIGHT_DEFAULT: int := 1
  const STROKE_WEIGHT_HOVER: int := 2
  const STROKE_WEIGHT_HIGHLIGHTED: int := 3

  /** The precedence of the timeline: a selected record outranks a label-1
      record ("leader of interest"), which outranks every other record. */
  datatype Tier = SelectedTier | HighlightedTier | DefaultTier

  function TierOf(sel: seq<Leader>, r: Leader): Tier
  {
    if Includes(sel, r) then SelectedTier
    else if r.labelValue == 1 then HighlightedTier
    else DefaultTier
  }

  function TierColour(t: Tier): string
  {
    match t
    case SelectedTier => COLOUR_SELECTED
    case HighlightedTier => COLOUR_HIGHLIGHTED
    case DefaultTier => COLOUR_DEFAULT
  }

  function TierMarker(t: Tier): string
  {
    match t
    case SelectedTier => MARKER_SELECTED
    case HighlightedTier => MARKER_HIGHLIGHTED
    case DefaultTier => MARKER_DEFAULT
  }

  /** The `stroke` attribute (js/lexisChart.js:171-179). */
  function StrokeColour(sel: seq<Leader>, r: Leader): (c: string)
    ensures c == TierColour(TierOf(sel, r))
    ensures c == COLOUR_SELECTED <==> Includes(sel, r)
    ensures c == COLOUR_HIGHLIGHTED <==> !Includes(sel, r) && r.labelValue == 1
  {
    if Includes(sel, r) then COLOUR_SELECTED
    else if r.labelValue == 1 then COLOUR_HIGHLIGHTED
    else COLOUR_DEFAULT
  }

  /** The `stroke-width` attribute (js/lexisChart.js:180-186). */
  function StrokeWidth(sel: seq<Leader>, r: Leader): (w: int)
    ensures w == STROKE_WEIGHT_HIGHLIGHTED <==> TierOf(sel, r) != DefaultTier
    ensures w == STROKE_WEIGHT_DEFAULT <==> TierOf(sel, r) == DefaultTier
  {
    if r.labelValue == 1 || Includes(sel, r) then STROKE_WEIGHT_HIGHLIGHTED
    else STROKE_WEIGHT_DEFAULT
  }

  /** The `marker-end` style (js/lexisChart.js:187-195). */
  function Marker(sel: seq<Leader>, r: Leader): (m: string)
    ensures m == TierMarker(TierOf(sel, r))
  {
    if Includes(sel, r) then MARKER_SELECTED
    else if r.labelValue == 1 then MARKER_HIGHLIGHTED
    else MARKER_DEFAULT
  }

  /** The arrow's name label (js/lexisChart.js:209-215): the leader's name on the
      two upper tiers, empty on the default tier. */
  function LabelText(sel: seq<Leader>, r: Leader): (t: string)
    ensures TierOf(sel, r) != DefaultTier ==> t == r.leader
    ensures TierOf(sel, r) == DefaultTier ==> t == ""
  {
    if r.labelValue == 1 || Includes(sel, r) then r.leader else ""
  }

  /** The three styled attributes of one arrow. */
  datatype ArrowStyle = ArrowStyle(stroke: string, width: int, marker: string)

  const DEFAULT_STYLE: ArrowStyle := ArrowStyle(COLOUR_DEFAULT, STROKE_WEIGHT_DEFAULT, MARKER_DEFAULT)
  const HOVER_STYLE: ArrowStyle := ArrowStyle(COLOUR_HOVER, STROKE_WEIGHT_HOVER, MARKER_HOVER)

  /** The style a render pass gives the arrow of `r`. */
  function Rendered(sel: seq<Leader>, r: Leader): (s: ArrowStyle)
    ensures TierOf(sel, r) == DefaultTier <==> s == DEFAULT_STYLE
    ensures s.stroke == TierColour(TierOf(sel, r)) && s.marker == TierMarker(TierOf(sel, r))
  {
    ArrowStyle(StrokeColour(sel, r), StrokeWidth(sel, r), Marker(sel, r))
  }

  /** `mouseover.arrow` (js/lexisChart.js:251-258): only default-tier arrows react. */
  function MouseOver(sel: seq<Leader>, r: Leader, current: ArrowStyle): (s: ArrowStyle)
    ensures TierOf(sel, r) == DefaultTier ==> s == HOVER_STYLE
    ensures TierOf(sel, r) != DefaultTier ==> s == current
  {
    if !Includes(sel, r) && r.labelValue != 1 then HOVER_STYLE else current
  }

  /** `mouseleave.arrow` (js/lexisChart.js:259-266): only default-tier arrows react. */
  function MouseLeave(sel: seq<Leader>, r: Leader, current: ArrowStyle): (s: ArrowStyle)
    ensures TierOf(sel, r) == DefaultTier ==> s == DEFAULT_STYLE
    ensures TierOf(sel, r) != DefaultTier ==> s == current
  {
    if !Includes(sel, r) && r.labelValue != 1 then DEFAULT_STYLE else current
  }

  /** Hovering changes an arrow exactly when it is on the default tier, and leaving
      restores exactly the rendered style. */
  lemma HoverRoundTrip(sel: seq<Leader>, r: Leader)
    ensures MouseOver(sel, r, Rendered(sel, r)) != Rendered(sel, r) <==> TierOf(sel, r) == DefaultTier
    ensures MouseLeave(sel, r, MouseOver(sel, r, Rendered(sel, r))) == Rendered(sel, r)
  {
  }

  /** The click handler (js/lexisChart.js:218-226): toggle, then dispatch `selectedItems`. */
  function Click(sel: seq<Leader>, r: Leader): (re: Reaction)
    ensures re.events == [SelectedItems]
    ensures UniqueIds(sel) ==> UniqueIds(re.selected)
    ensures UniqueIds(sel) ==> forall x: Leader :: x.id != r.id ==> (Includes(re.selected, x) <==> Includes(sel, x))
    ensures UniqueIds(sel) ==> (Includes(re.selected, r) <==> !Includes(sel, r))
  {
    Reaction(ToggleItem(sel, r), [SelectedItems])
  }

  /** The tooltip shows for every arrow (js/lexisChart.js:231-247). */
  function TooltipFor(r: Leader): (c: Tooltip.Content)
    ensures c.gdpPerCapita == Tooltip.MISSING <==> r.pcgdp.None?
    ensures Tooltip.EndsWith(c.timeInOffice, " year") <==> r.duration <= 1
    ensures c.title == r.leader
    ensures c.timeInOffice == Tooltip.DurationText(r.duration)
    ensures c.gdpPerCapita == Tooltip.GdpText(r.pcgdp)
    ensures c == Tooltip.ContentFor(r)
  {
    Tooltip.ContentFor(r)
  }
}
