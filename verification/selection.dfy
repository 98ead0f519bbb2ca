/** The shared selection state: the list `selectedItems` of clicked records, the
    gender filter `currentGender`, and the two events views publish on the
    dispatcher (js/main.js:5-8). */
module Selection {
  import opened Wrappers
  import opened Seqs
  import opened Records

  /** The two event kinds of `d3.dispatch('filterGender', 'selectedItems')`. */
  datatype Event = FilterGender(gender: string) | SelectedItems

  /** What a view's click handler leaves behind: the new selection and the events it dispatched. */
  datatype Reaction = Reaction(selected: seq<Leader>, events: seq<Event>)

  /** Removes the element at position `i` (`splice(i, 1)`). */
  function RemoveAt(s: seq<Leader>, i: nat): (r: seq<Leader>)
    requires i < |s|
    ensures |r| == |s| - 1
    ensures forall k :: 0 <= k < i ==> r[k] == s[k]
    ensures forall k :: i <= k < |r| ==> r[k] == s[k + 1]
  {
    s[..i] + s[i + 1..]
  }

  /** The click toggle of both item views (js/lexisChart.js:220-224,
      js/scatterPlot.js:180-184): remove the record if it is selected,
      otherwise append it. */
  function ToggleItem(sel: seq<Leader>, r: Leader): (res: seq<Leader>)
    ensures !Includes(sel, r) ==> res == sel + [r]
    ensures Includes(sel, r) ==> |res| == |sel| - 1 && IsSubsequence(res, sel)
    ensures UniqueIds(sel) ==> UniqueIds(res)
    ensures UniqueIds(sel) ==> Ids(res) == if Includes(sel, r) then Ids(sel) - {r.id} else Ids(sel) + {r.id}
  {
    var i := IndexOf(sel, r.id);
    if i >= 0 then
      var res := RemoveAt(sel, i);
      RemoveAtFacts(sel, i);
      res
    else
      assert UniqueIds(sel) ==> UniqueIds(sel + [r]) by {
        if UniqueIds(sel) {
          forall a, b | 0 <= a < |sel| + 1 && 0 <= b < |sel| + 1 && (sel + [r])[a].id == (sel + [r])[b].id
            ensures a == b
          {
            if a < |sel| { assert sel[a] in sel; }
            if b < |sel| { assert sel[b] in sel; }
          }
        }
      }
      assert Ids(sel + [r]) == Ids(sel) + {r.id} by {
        assert forall x :: x in sel + [r] <==> x in sel || x == r;
      }
      sel + [r]
  }

  lemma RemoveAtFacts(s: seq<Leader>, i: nat)
    requires i < |s|
    ensures IsSubsequence(RemoveAt(s, i), s)
    ensures UniqueIds(s) ==> UniqueIds(RemoveAt(s, i))
    ensures UniqueIds(s) ==> Ids(RemoveAt(s, i)) == Ids(s) - {s[i].id}
  {
    RemoveAtSubsequence(s, i);
    if UniqueIds(s) {
      SubsequenceUnique(RemoveAt(s, i), s);
      RemoveAtDropsId(s, i);
      RemoveAtKeepsOthers(s, i);
    }
  }

  lemma RemoveAtDropsId(s: seq<Leader>, i: nat)
    requires i < |s| && UniqueIds(s)
    ensures s[i].id !in Ids(RemoveAt(s, i))
  {
    var r := RemoveAt(s, i);
    forall x | x in r ensures x.id != s[i].id {
      var k :| 0 <= k < |r| && r[k] == x;
      if k < i { assert r[k] == s[k]; } else { assert r[k] == s[k + 1]; }
    }
  }

  lemma RemoveAtKeepsOthers(s: seq<Leader>, i: nat)
    requires i < |s|
    ensures Ids(s) - {s[i].id} <= Ids(RemoveAt(s, i)) <= Ids(s)
  {
    var r := RemoveAt(s, i);
    forall y | y in Ids(s) - {s[i].id} ensures y in Ids(r) {
      var x :| x in s && x.id == y;
      var k :| 0 <= k < |s| && s[k] == x;
      if k < i { assert r[k] == s[k]; } else { assert r[k - 1] == s[k]; }
    }
    forall y | y in Ids(r) ensures y in Ids(s) {
      var x :| x in r && x.id == y;
      var k :| 0 <= k < |r| && r[k] == x;
      if k < i { assert r[k] == s[k]; } else { assert r[k] == s[k + 1]; }
    }
  }

  lemma {:induction false} RemoveAtSubsequence(s: seq<Leader>, i: nat)
    requires i < |s|
    ensures IsSubsequence(RemoveAt(s, i), s)
  {
    if i == 0 {
      assert RemoveAt(s, i) == s[1..];
      SubsequenceReflexive(s[1..]);
      SubsequenceOfTail(s[1..], s);
    } else {
      RemoveAtSubsequence(s[1..], i - 1);
      assert RemoveAt(s, i) == [s[0]] + RemoveAt(s[1..], i - 1);
    }
  }

  /** Clicking an unselected record twice restores the exact list. */
  lemma ToggleAbsentTwice(sel: seq<Leader>, r: Leader)
    requires !Includes(sel, r)
    ensures ToggleItem(ToggleItem(sel, r), r) == sel
  {
    var once := sel + [r];
    assert Includes(once, r) by { assert r in once; }
    var i := IndexOf(once, r.id);
    assert i == |sel|;
    assert RemoveAt(once, i) == sel;
  }

  /** Clicking a selected record twice restores the set of selected records
      (the record moves to the end of the list). */
  lemma TogglePresentTwice(sel: seq<Leader>, r: Leader)
    requires UniqueIds(sel) && Includes(sel, r)
    ensures Ids(ToggleItem(ToggleItem(sel, r), r)) == Ids(sel)
    ensures UniqueIds(ToggleItem(ToggleItem(sel, r), r))
  {
  }

  /** `selectedItems.filter(d => d.gender === currentGender)` when a gender filter
      is set (js/scatterPlot.js:82-84); with no filter the selection is kept. */
  function PruneToGender(sel: seq<Leader>, g: Option<string>): (res: seq<Leader>)
    ensures forall x :: x in res ==> PassesGender(g, x)
    ensures forall x :: x in res <==> x in sel && PassesGender(g, x)
    ensures IsSubsequence(res, sel)
    ensures g.None? ==> res == sel
    ensures UniqueIds(sel) ==> UniqueIds(res)
  {
    var res := GenderView(sel, g);
    assert UniqueIds(sel) ==> UniqueIds(res) by {
      if UniqueIds(sel) { SubsequenceUnique(res, sel); }
    }
    res
  }

  /** Pruning twice is pruning once. */
  lemma PruneIdempotent(sel: seq<Leader>, g: Option<string>)
    ensures PruneToGender(PruneToGender(sel, g), g) == PruneToGender(sel, g)
  {
    if g.Some? {
      FilterIdempotent(sel, (x: Leader) => x.gender == g.value);
    }
  }

  /** The `filterGender` toggle (js/main.js:81-87): the same gender again clears the
      filter, any other gender replaces it. */
  function ToggleGender(current: Option<string>, g: string): (next: Option<string>)
    ensures next.None? <==> current == Some(g)
    ensures next.Some? ==> next.value == g
  {
    if current == Some(g) then None else Some(g)
  }

  /** Toggling the same gender twice restores the original filter exactly when it
      started empty or at that gender; from another gender it ends empty. */
  lemma ToggleGenderTwice(current: Option<string>, g: string)
    ensures ToggleGender(ToggleGender(current, g), g) == current <==> current.None? || current == Some(g)
    ensures current.Some? && current != Some(g) ==> ToggleGender(ToggleGender(current, g), g).None?
  {
  }
}
