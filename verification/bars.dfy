/** The bar chart (js/barChart.js): the number of records per gender, the
    highlighted bar, and the click that publishes `filterGender`. */
module Bars {
  import opened Wrappers
  import opened Seqs
  import opened Records
  import opened Selection

  const FILL_BASE: string := "#b09aec"
  const FILL_SELECTED: string := "#6c5ce7"

  /** One entry of `d3.rollups(data, v => v.length, d => d.gender)`. */
  datatype GenderCount = GenderCount(key: string, count: nat)

  /** The view: the data last assigned to it, the bars of its last update pass,
      and the key of the bar that carries the selected fill, if any. */
  datatype BarView = BarView(data: seq<Leader>, bins: seq<GenderCount>, highlight: Option<string>)

  /** A bar chart's click handler result: the view after restyling and the dispatched events. */
  datatype BarReaction = BarReaction(view: BarView, events: seq<Event>)

  function KeySet(bins: seq<GenderCount>): set<string>
  {
    set b | b in bins :: b.key
  }

  ghost predicate DistinctKeys(bins: seq<GenderCount>)
  {
    forall i, j :: 0 <= i < j < |bins| ==> bins[i].key != bins[j].key
  }

  /** The genders that occur in a sequence of records. */
  function Genders(s: seq<Leader>): set<string>
  {
    set x | x in s :: x.gender
  }

  /** The reference count: how many records have gender `g`. */
  function CountOf(s: seq<Leader>, g: string): nat
  {
    |Filter(s, (x: Leader) => x.gender == g)|
  }

  function SumCounts(bins: seq<GenderCount>): nat
  {
    if |bins| == 0 then 0 else bins[0].count + SumCounts(bins[1..])
  }

  /** Position of the bin with key `g`, or -1. */
  function KeyIndex(bins: seq<GenderCount>, g: string): (i: int)
    ensures -1 <= i < |bins|
    ensures i == -1 <==> g !in KeySet(bins)
    ensures i >= 0 ==> bins[i].key == g
  {
    if |bins| == 0 then -1
    else if bins[0].key == g then 0
    else
      var k := KeyIndex(bins[1..], g);
      assert forall b :: b in bins <==> b == bins[0] || b in bins[1..];
      if k == -1 then -1 else k + 1
  }

  /** Counts one more record of gender `g`: increments its bin, or appends a new
      bin when `g` is seen for the first time (insertion order of the rollup). */
  function Bump(bins: seq<GenderCount>, g: string): (r: seq<GenderCount>)
    requires DistinctKeys(bins)
    ensures DistinctKeys(r)
    ensures KeySet(r) == KeySet(bins) + {g}
    ensures |r| == if g in KeySet(bins) then |bins| else |bins| + 1
    ensures forall i :: 0 <= i < |bins| ==>
      r[i].key == bins[i].key && r[i].count == bins[i].count + (if bins[i].key == g then 1 else 0)
    ensures g !in KeySet(bins) ==> r[|bins|] == GenderCount(g, 1)
  {
    var i := KeyIndex(bins, g);
    if i < 0 then
      assert forall b :: b in bins + [GenderCount(g, 1)] <==> b in bins || b == GenderCount(g, 1);
      bins + [GenderCount(g, 1)]
    else
      var r := bins[i := GenderCount(g, bins[i].count + 1)];
      assert KeySet(r) == KeySet(bins) by {
        forall k | k in KeySet(bins) ensures k in KeySet(r) {
          var b :| b in bins && b.key == k;
          var j :| 0 <= j < |bins| && bins[j] == b;
          assert r[j].key == k;
        }
        forall k | k in KeySet(r) ensures k in KeySet(bins) {
          var b :| b in r && b.key == k;
          var j :| 0 <= j < |r| && r[j] == b;
          assert bins[j].key == k;
        }
      }
      r
  }

  /** `d3.rollups(vis.data, v => v.length, d => d.gender)` (js/barChart.js:65-66):
      one bin per distinct gender, in order of first occurrence. */
  function Rollup(s: seq<Leader>): (bins: seq<GenderCount>)
    ensures DistinctKeys(bins)
    ensures KeySet(bins) == Genders(s)
    ensures forall i :: 0 <= i < |bins| ==> bins[i].count == CountOf(s, bins[i].key)
    ensures forall i :: 0 <= i < |bins| ==> bins[i].count > 0
  {
    if |s| == 0 then []
    else
      var prefix := s[..|s| - 1];
      var x := s[|s| - 1];
      assert s == prefix + [x];
      var prev := Rollup(prefix);
      RollupStep(prefix, x, prev);
      Bump(prev, x.gender)
  }

  /** One more record of gender `x.gender`: the bins of `prefix` become the bins of `prefix + [x]`. */
  lemma RollupStep(prefix: seq<Leader>, x: Leader, prev: seq<GenderCount>)
    requires DistinctKeys(prev) && KeySet(prev) == Genders(prefix)
    requires forall i :: 0 <= i < |prev| ==> prev[i].count == CountOf(prefix, prev[i].key)
    requires forall i :: 0 <= i < |prev| ==> prev[i].count > 0
    ensures var bins := Bump(prev, x.gender);
      && DistinctKeys(bins)
      && KeySet(bins) == Genders(prefix + [x])
      && (forall i :: 0 <= i < |bins| ==> bins[i].count == CountOf(prefix + [x], bins[i].key))
      && (forall i :: 0 <= i < |bins| ==> bins[i].count > 0)
  {
    BumpGenders(prefix, x);
    BumpCounts(prefix, x, prev);
  }

  lemma BumpGenders(prefix: seq<Leader>, x: Leader)
    ensures Genders(prefix + [x]) == Genders(prefix) + {x.gender}
  {
    assert forall y :: y in prefix + [x] <==> y in prefix || y == x;
  }

  /** The counting step of the rollup: one more record of `x.gender`. */
  lemma BumpCounts(prefix: seq<Leader>, x: Leader, prev: seq<GenderCount>)
    requires DistinctKeys(prev) && KeySet(prev) == Genders(prefix)
    requires forall i :: 0 <= i < |prev| ==> prev[i].count == CountOf(prefix, prev[i].key)
    ensures var bins := Bump(prev, x.gender);
      forall i :: 0 <= i < |bins| ==> bins[i].count == CountOf(prefix + [x], bins[i].key)
  {
    var bins := Bump(prev, x.gender);
    forall i | 0 <= i < |bins| ensures bins[i].count == CountOf(prefix + [x], bins[i].key) {
      var k := bins[i].key;
      FilterSnoc(prefix, x, (y: Leader) => y.gender == k);
      if i == |prev| {
        FilterEmpty(prefix, (y: Leader) => y.gender == k);
      }
    }
  }

  lemma SumSnoc(bins: seq<GenderCount>, b: GenderCount)
    ensures SumCounts(bins + [b]) == SumCounts(bins) + b.count
  {
    if |bins| > 0 {
      assert (bins + [b])[1..] == bins[1..] + [b];
      SumSnoc(bins[1..], b);
    }
  }

  lemma {:induction false} SumPointwise(a: seq<GenderCount>, b: seq<GenderCount>, i: nat)
    requires |a| == |b| && i < |a|
    requires forall k :: 0 <= k < |a| && k != i ==> a[k].count == b[k].count
    requires b[i].count == a[i].count + 1
    ensures SumCounts(b) == SumCounts(a) + 1
  {
    if i > 0 {
      SumPointwise(a[1..], b[1..], i - 1);
    } else {
      assert SumCounts(a[1..]) == SumCounts(b[1..]) by {
        SumEqual(a[1..], b[1..]);
      }
    }
  }

  lemma {:induction false} SumEqual(a: seq<GenderCount>, b: seq<GenderCount>)
    requires |a| == |b| && forall k :: 0 <= k < |a| ==> a[k].count == b[k].count
    ensures SumCounts(a) == SumCounts(b)
  {
    if |a| > 0 {
      SumEqual(a[1..], b[1..]);
    }
  }

  /** The bar heights add up to the number of records (js/barChart.js:65-66). */
  lemma {:induction false} RollupSum(s: seq<Leader>)
    ensures SumCounts(Rollup(s)) == |s|
  {
    if |s| > 0 {
      var prefix := s[..|s| - 1];
      var prev := Rollup(prefix);
      var g := s[|s| - 1].gender;
      RollupSum(prefix);
      var bins := Bump(prev, g);
      if g in KeySet(prev) {
        var i := KeyIndex(prev, g);
        SumPointwise(prev, bins, i);
      } else {
        assert bins == prev + [GenderCount(g, 1)];
        SumSnoc(prev, GenderCount(g, 1));
      }
    }
  }

  /** The upper end of the y domain, `d3.max(aggregatedData, d => d.count)`
      (js/barChart.js:73); undefined when there are no bars. */
  function MaxCount(bins: seq<GenderCount>): (m: Option<nat>)
    ensures m.None? <==> |bins| == 0
    ensures m.Some? ==> forall i :: 0 <= i < |bins| ==> bins[i].count <= m.value
    ensures m.Some? ==> exists i :: 0 <= i < |bins| && bins[i].count == m.value
  {
    if |bins| == 0 then None
    else
      var rest := MaxCount(bins[1..]);
      if rest.None? || rest.value < bins[0].count then
        Some(bins[0].count)
      else
        assert forall i :: 1 <= i < |bins| ==> bins[i] == bins[1..][i - 1];
        var j :| 0 <= j < |bins[1..]| && bins[1..][j].count == rest.value;
        assert bins[j + 1].count == rest.value;
        rest
  }

  /** The y domain, `[0, d3.max(aggregatedData, d => d.count)]` (js/barChart.js:73):
      from zero up to the largest count, with no upper end when there are no bars. */
  function YDomain(bins: seq<GenderCount>): (d: Extent)
    ensures d.lo == 0
    ensures d.hi.None? <==> |bins| == 0
    ensures d.hi.Some? ==> forall i :: 0 <= i < |bins| ==> bins[i].count <= d.hi.value
    ensures d.hi.Some? ==> exists i :: 0 <= i < |bins| && bins[i].count == d.hi.value
  {
    match MaxCount(bins)
    case None => Extent(0, None)
    case Some(m) => Extent(0, Some(m))
  }

  /** No gender has more records than the top of the y domain. */
  lemma YDomainCoversEveryGroup(s: seq<Leader>, g: string)
    requires g in Genders(s)
    ensures MaxCount(Rollup(s)).Some?
    ensures CountOf(s, g) <= MaxCount(Rollup(s)).value
  {
    var bins := Rollup(s);
    assert g in KeySet(bins);
    var b :| b in bins && b.key == g;
    var i :| 0 <= i < |bins| && bins[i] == b;
  }

  /** The top of the y domain is the size of some gender's group. */
  lemma YDomainIsSomeGroup(s: seq<Leader>)
    requires |s| > 0
    ensures MaxCount(Rollup(s)).Some?
    ensures exists g :: g in Genders(s) && CountOf(s, g) == MaxCount(Rollup(s)).value
  {
    var bins := Rollup(s);
    assert s[0] in s;
    assert s[0].gender in KeySet(bins);
    var m := MaxCount(bins);
    var j :| 0 <= j < |bins| && bins[j].count == m.value;
    assert bins[j] in bins;
    assert bins[j].key in KeySet(bins);
    assert CountOf(s, bins[j].key) == m.value;
  }

  /** `updateVis` then `renderVis` (js/barChart.js:61-91): recompute the bins from the
      view's data and give every bar the base fill. */
  function Update(view: BarView): (v: BarView)
    ensures v.data == view.data
    ensures v.highlight.None?
    ensures v.bins == Rollup(view.data)
    ensures KeySet(v.bins) == Genders(view.data) && DistinctKeys(v.bins)
    ensures forall i :: 0 <= i < |v.bins| ==> v.bins[i].count == CountOf(view.data, v.bins[i].key)
  {
    view.(bins := Rollup(view.data), highlight := None)
  }

  /** The `fill` of the bar for `key`. */
  function BarFill(view: BarView, key: string): (f: string)
    ensures f == FILL_SELECTED <==> view.highlight == Some(key)
  {
    if view.highlight == Some(key) then FILL_SELECTED else FILL_BASE
  }

  /** The click handler (js/barChart.js:105-119): clicking the bar of the current
      gender gives all bars the base fill, any other bar becomes the only one with
      the selected fill; `filterGender` is dispatched with the bar's key. */
  function Click(view: BarView, currentGender: Option<string>, key: string): (re: BarReaction)
    ensures re.events == [FilterGender(key)]
    ensures re.view.data == view.data && re.view.bins == view.bins
    ensures currentGender == Some(key) ==> forall k :: BarFill(re.view, k) == FILL_BASE
    ensures currentGender != Some(key) ==> forall k :: BarFill(re.view, k) == FILL_SELECTED <==> k == key
    ensures re.view.highlight == ToggleGender(currentGender, key)
  {
    var highlight := if Some(key) == currentGender then None else Some(key);
    BarReaction(view.(highlight := highlight), [FilterGender(key)])
  }
}
