/** The leader-term records of the dashboard and the identity of a record.
    The source compares records by object reference; here every record carries
    the index of its row in the parsed file as a stable identifier. */
module Records {
  import opened Wrappers
  import opened Seqs

  type RecordId = nat

  /** A scale's input domain `[lo, hi]`. `hi` is absent where the source takes
      `d3.max` of an empty list, which is undefined. */
  datatype Extent = Extent(lo: int, hi: Option<int>)

  /** One leader term after numeric coercion (js/main.js:15-23). `pcgdp` is `None`
      where the file said `NA`; `flags` holds every other numeric column by name
      (`oecd` and the region columns). */
  datatype Leader = Leader(
    id: RecordId,
    country: string,
    leader: string,
    gender: string,
    startYear: int,
    endYear: int,
    startAge: int,
    endAge: int,
    duration: int,
    pcgdp: Option<int>,
    labelValue: int,
    flags: map<string, int>)

  /** The identifiers present in a sequence of records. */
  function Ids(s: seq<Leader>): set<RecordId>
  {
    set r | r in s :: r.id
  }

  /** No identifier occurs twice: the model of "distinct objects". */
  ghost predicate UniqueIds(s: seq<Leader>)
  {
    forall i, j :: 0 <= i < |s| && 0 <= j < |s| && s[i].id == s[j].id ==> i == j
  }

  lemma UniqueCons(x: Leader, t: seq<Leader>)
    ensures UniqueIds([x] + t) <==> x.id !in Ids(t) && UniqueIds(t)
  {
    var s := [x] + t;
    if x.id !in Ids(t) && UniqueIds(t) {
      forall i, j | 0 <= i < |s| && 0 <= j < |s| && s[i].id == s[j].id
        ensures i == j
      {
        if i > 0 && j > 0 { assert t[i - 1].id == t[j - 1].id; }
      }
    }
    if UniqueIds(s) {
      forall y | y in t
        ensures y.id != x.id
      {
        var k :| 0 <= k < |t| && t[k] == y;
        assert s[k + 1] == y && s[0] == x;
        assert k + 1 != 0;
      }
      forall i, j | 0 <= i < |t| && 0 <= j < |t| && t[i].id == t[j].id
        ensures i == j
      {
        assert s[i + 1].id == s[j + 1].id;
      }
    }
  }

  /** A subsequence of a sequence with distinct identifiers has distinct identifiers. */
  lemma {:induction false} SubsequenceUnique(a: seq<Leader>, b: seq<Leader>)
    requires IsSubsequence(a, b) && UniqueIds(b)
    ensures UniqueIds(a)
    decreases |b|
  {
    if |a| > 0 {
      UniqueCons(b[0], b[1..]);
      assert b == [b[0]] + b[1..];
      if a[0] == b[0] {
        SubsequenceUnique(a[1..], b[1..]);
        SubsequenceIds(a[1..], b[1..]);
        UniqueCons(a[0], a[1..]);
        assert a == [a[0]] + a[1..];
      } else {
        SubsequenceUnique(a, b[1..]);
      }
    }
  }

  /** Every record of a subsequence is a record of the whole. */
  lemma {:induction false} SubsequenceIds(a: seq<Leader>, b: seq<Leader>)
    requires IsSubsequence(a, b)
    ensures forall x :: x in a ==> x in b
    ensures Ids(a) <= Ids(b)
    decreases |b|
  {
    if |a| > 0 {
      if a[0] == b[0] {
        SubsequenceIds(a[1..], b[1..]);
        assert a == [a[0]] + a[1..];
      } else {
        SubsequenceIds(a, b[1..]);
      }
      assert b == [b[0]] + b[1..];
    }
  }

  /** Position of the first record with identifier `id`, or -1 (`Array.prototype.indexOf`). */
  function IndexOf(s: seq<Leader>, id: RecordId): (i: int)
    ensures -1 <= i < |s|
    ensures i == -1 <==> id !in Ids(s)
    ensures i >= 0 ==> s[i].id == id && forall k :: 0 <= k < i ==> s[k].id != id
  {
    if |s| == 0 then -1
    else if s[0].id == id then 0
    else
      var k := IndexOf(s[1..], id);
      assert forall y :: y in s[1..] ==> y in s;
      assert forall y :: y in s ==> y == s[0] || y in s[1..];
      if k == -1 then -1 else k + 1
  }

  /** `selectedItems.includes(d)`: membership by identity. */
  predicate Includes(s: seq<Leader>, r: Leader): (b: bool)
    ensures b <==> exists i :: 0 <= i < |s| && s[i].id == r.id
  {
    assert forall i :: 0 <= i < |s| ==> s[i] in s;
    r.id in Ids(s)
  }

  /** The columns coerced to numbers at load time. */
  const NUMERIC_COLUMNS: set<string> :=
    {"start_year", "end_year", "start_age", "end_age", "duration", "label", "pcgdp"}

  /** `d[key]` for a numeric column; `None` where the record has no such column
      (JavaScript's `undefined`, never equal to 1). */
  function Column(r: Leader, key: string): (c: Option<int>)
    ensures key == "label" ==> c == Some(r.labelValue)
    ensures key == "duration" ==> c == Some(r.duration)
    ensures key == "pcgdp" ==> c == r.pcgdp
    ensures key !in NUMERIC_COLUMNS ==> c == (if key in r.flags then Some(r.flags[key]) else None)
    ensures c.None? <==> (key == "pcgdp" && r.pcgdp.None?) || (key !in NUMERIC_COLUMNS && key !in r.flags)
  {
    if key == "start_year" then Some(r.startYear)
    else if key == "end_year" then Some(r.endYear)
    else if key == "start_age" then Some(r.startAge)
    else if key == "end_age" then Some(r.endAge)
    else if key == "duration" then Some(r.duration)
    else if key == "label" then Some(r.labelValue)
    else if key == "pcgdp" then r.pcgdp
    else if key in r.flags then Some(r.flags[key])
    else None
  }

  /** `d[key] == 1`: the record belongs to the region or group named `key`. */
  predicate InRegion(r: Leader, key: string)
  {
    Column(r, key) == Some(1)
  }

  /** The records flagged for region `key` (js/main.js:64, and 34-36 for `oecd`). */
  function RegionSubset(s: seq<Leader>, key: string): (r: seq<Leader>)
    ensures forall x :: x in r <==> x in s && Column(x, key) == Some(1)
    ensures IsSubsequence(r, s)
  {
    FilterIsSubsequence(s, (x: Leader) => InRegion(x, key));
    Filter(s, (x: Leader) => InRegion(x, key))
  }

  /** The gender gate shared by all views: no filter, or the record's gender matches it. */
  predicate PassesGender(g: Option<string>, r: Leader)
  {
    g.None? || r.gender == g.value
  }

  /** `filteredData.filter(person => person.gender === g)`, or everything without a filter. */
  function GenderView(s: seq<Leader>, g: Option<string>): (r: seq<Leader>)
    ensures forall x :: x in r <==> x in s && PassesGender(g, x)
    ensures IsSubsequence(r, s)
    ensures g.None? ==> r == s
  {
    match g
    case None =>
      SubsequenceReflexive(s);
      s
    case Some(gender) =>
      var p := (x: Leader) => x.gender == gender;
      FilterIsSubsequence(s, p);
      Filter(s, p)
  }
}
