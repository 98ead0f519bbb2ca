/** Loading the leader list (js/main.js:10-38): numeric coercion, the duration
    filter and the stable sort by `label`. Fetching and parsing the file is I/O and
    is replaced by an already parsed sequence of rows; the text-to-number
    conversion `+s` is the parameter `toNumber`. */
module Loading {
  import opened Wrappers
  import opened Seqs
  import opened Records

  /** One row of the file, every cell still text. `flags` holds the remaining
      columns (`oecd` and the region columns) by name. */
  datatype RawRow = RawRow(
    country: string,
    leader: string,
    gender: string,
    startYear: string,
    endYear: string,
    startAge: string,
    endAge: string,
    duration: string,
    pcgdp: string,
    labelValue: string,
    flags: map<string, string>)

  /** The cell text that the file uses for a missing GDP figure. */
  const MISSING_GDP: string := "NA"

  /** Coerces one row: `pcgdp` of `NA` becomes null, every other column except
      country, leader and gender becomes a number (js/main.js:15-23). */
  function Coerce(row: RawRow, id: RecordId, toNumber: string -> int): (r: Leader)
    ensures r.id == id
    ensures r.pcgdp.None? <==> row.pcgdp == MISSING_GDP
    ensures r.pcgdp.Some? ==> r.pcgdp.value == toNumber(row.pcgdp)
    ensures r.country == row.country && r.leader == row.leader && r.gender == row.gender
    ensures r.duration == toNumber(row.duration) && r.labelValue == toNumber(row.labelValue)
    ensures r.startYear == toNumber(row.startYear) && r.endYear == toNumber(row.endYear)
    ensures r.startAge == toNumber(row.startAge) && r.endAge == toNumber(row.endAge)
    ensures r.flags.Keys == row.flags.Keys
    ensures forall k :: k in row.flags ==> r.flags[k] == toNumber(row.flags[k])
  {
    Leader(
      id := id,
      country := row.country,
      leader := row.leader,
      gender := row.gender,
      startYear := toNumber(row.startYear),
      endYear := toNumber(row.endYear),
      startAge := toNumber(row.startAge),
      endAge := toNumber(row.endAge),
      duration := toNumber(row.duration),
      pcgdp := if row.pcgdp == MISSING_GDP then None else Some(toNumber(row.pcgdp)),
      labelValue := toNumber(row.labelValue),
      flags := map k | k in row.flags :: toNumber(row.flags[k]))
  }

  /** Coerces every row; a record's identifier is its row index. */
  function CoerceAll(rows: seq<RawRow>, toNumber: string -> int): (s: seq<Leader>)
    ensures |s| == |rows|
    ensures forall i :: 0 <= i < |rows| ==> s[i] == Coerce(rows[i], i, toNumber)
    ensures UniqueIds(s)
  {
    seq(|rows|, i requires 0 <= i < |rows| => Coerce(rows[i], i, toNumber))
  }

  /** `data.filter(d => d.duration > 0)` (js/main.js:26-28). */
  function KeepPositive(s: seq<Leader>): (r: seq<Leader>)
    ensures forall x :: x in r <==> x in s && x.duration > 0
    ensures IsSubsequence(r, s)
  {
    FilterIsSubsequence(s, (x: Leader) => x.duration > 0);
    Filter(s, (x: Leader) => x.duration > 0)
  }

  /** Non-decreasing by `label`. */
  ghost predicate SortedByLabel(s: seq<Leader>)
  {
    forall i, j :: 0 <= i < j < |s| ==> s[i].labelValue <= s[j].labelValue
  }

  /** The records with label `l`, in order: the sort must keep this order (stability). */
  function WithLabel(s: seq<Leader>, l: int): seq<Leader>
  {
    Filter(s, (x: Leader) => x.labelValue == l)
  }

  /** Inserts `x` before the first record whose label is not smaller. */
  function InsertByLabel(x: Leader, s: seq<Leader>): (r: seq<Leader>)
    ensures multiset(r) == multiset(s) + multiset{x}
  {
    if |s| == 0 || x.labelValue <= s[0].labelValue then [x] + s
    else
      assert s == [s[0]] + s[1..];
      [s[0]] + InsertByLabel(x, s[1..])
  }

  lemma InsertMembers(x: Leader, s: seq<Leader>)
    ensures forall e :: e in InsertByLabel(x, s) ==> e in s || e == x
  {
    var r := InsertByLabel(x, s);
    forall e | e in r ensures e in s || e == x {
      assert e in multiset(r);
    }
  }

  lemma {:induction false} InsertSorted(x: Leader, s: seq<Leader>)
    requires SortedByLabel(s)
    ensures SortedByLabel(InsertByLabel(x, s))
  {
    if |s| > 0 && x.labelValue > s[0].labelValue {
      var rest := InsertByLabel(x, s[1..]);
      InsertSorted(x, s[1..]);
      InsertMembers(x, s[1..]);
      var r := [s[0]] + rest;
      assert r == InsertByLabel(x, s);
      forall e | e in rest ensures s[0].labelValue <= e.labelValue {
        if e in s[1..] {
          var k :| 0 <= k < |s[1..]| && s[1..][k] == e;
          assert s[k + 1] == e;
        }
      }
      forall i, j | 0 <= i < j < |r| ensures r[i].labelValue <= r[j].labelValue {
        if i == 0 {
          assert r[j] == rest[j - 1] && rest[j - 1] in rest;
        } else {
          assert r[i] == rest[i - 1] && r[j] == rest[j - 1];
        }
      }
    }
  }

  /** `data.sort((a, b) => a.label - b.label)`: a stable sort by label (js/main.js:31). */
  function SortByLabel(s: seq<Leader>): (r: seq<Leader>)
    ensures SortedByLabel(r)
    ensures multiset(r) == multiset(s)
  {
    if |s| == 0 then []
    else
      assert s == [s[0]] + s[1..];
      var sorted := SortByLabel(s[1..]);
      InsertSorted(s[0], sorted);
      InsertByLabel(s[0], sorted)
  }

  lemma {:induction false} InsertWithLabel(x: Leader, t: seq<Leader>, l: int)
    ensures WithLabel(InsertByLabel(x, t), l) == (if x.labelValue == l then [x] else []) + WithLabel(t, l)
  {
    var p := (e: Leader) => e.labelValue == l;
    if |t| == 0 || x.labelValue <= t[0].labelValue {
      FilterCons(x, t, p);
    } else {
      InsertWithLabel(x, t[1..], l);
      FilterCons(t[0], InsertByLabel(x, t[1..]), p);
      FilterCons(t[0], t[1..], p);
      assert t == [t[0]] + t[1..];
    }
  }

  /** The sort keeps the relative order of records with equal labels. */
  lemma {:induction false} SortStable(s: seq<Leader>, l: int)
    ensures WithLabel(SortByLabel(s), l) == WithLabel(s, l)
  {
    if |s| > 0 {
      SortStable(s[1..], l);
      InsertWithLabel(s[0], SortByLabel(s[1..]), l);
      FilterCons(s[0], s[1..], (e: Leader) => e.labelValue == l);
      assert s == [s[0]] + s[1..];
    }
  }

  lemma {:induction false} InsertUnique(x: Leader, t: seq<Leader>)
    requires UniqueIds(t) && x.id !in Ids(t)
    ensures UniqueIds(InsertByLabel(x, t))
  {
    if |t| == 0 || x.labelValue <= t[0].labelValue {
      UniqueCons(x, t);
    } else {
      assert t == [t[0]] + t[1..];
      UniqueCons(t[0], t[1..]);
      var rest := InsertByLabel(x, t[1..]);
      InsertUnique(x, t[1..]);
      InsertMembers(x, t[1..]);
      assert t[0] in t;
      UniqueCons(t[0], rest);
    }
  }

  lemma {:induction false} SortUnique(s: seq<Leader>)
    requires UniqueIds(s)
    ensures UniqueIds(SortByLabel(s))
  {
    if |s| > 0 {
      assert s == [s[0]] + s[1..];
      UniqueCons(s[0], s[1..]);
      SortUnique(s[1..]);
      var sorted := SortByLabel(s[1..]);
      assert forall e :: e in sorted ==> e in s[1..] by {
        forall e | e in sorted ensures e in s[1..] {
          assert e in multiset(sorted);
        }
      }
      InsertUnique(s[0], sorted);
    }
  }

  /** The whole load pipeline of js/main.js:15-31: coerce, drop non-positive
      durations, sort by label. */
  function LoadRecords(rows: seq<RawRow>, toNumber: string -> int): (data: seq<Leader>)
    ensures forall x :: x in data ==> x.duration > 0
    ensures forall x :: x in data <==>
      x.id < |rows| && x == Coerce(rows[x.id], x.id, toNumber) && x.duration > 0
    ensures multiset(data) == multiset(KeepPositive(CoerceAll(rows, toNumber)))
    ensures SortedByLabel(data)
    ensures forall l :: WithLabel(data, l) == WithLabel(KeepPositive(CoerceAll(rows, toNumber)), l)
    ensures UniqueIds(data)
  {
    var coerced := CoerceAll(rows, toNumber);
    var kept := KeepPositive(coerced);
    SubsequenceUnique(kept, coerced);
    SortUnique(kept);
    var data := SortByLabel(kept);
    forall l ensures WithLabel(data, l) == WithLabel(kept, l) {
      SortStable(kept, l);
    }
    assert forall x :: x in data <==> x in kept by {
      forall x ensures x in data <==> x in kept {
        assert x in data <==> x in multiset(data);
      }
    }
    assert forall x :: x in coerced <==> x.id < |rows| && x == Coerce(rows[x.id], x.id, toNumber) by {
      forall x ensures x in coerced <==> x.id < |rows| && x == Coerce(rows[x.id], x.id, toNumber) {
        if x in coerced {
          var i :| 0 <= i < |coerced| && coerced[i] == x;
        }
        if x.id < |rows| && x == Coerce(rows[x.id], x.id, toNumber) {
          assert coerced[x.id] == x;
        }
      }
    }
    data
  }

  /** With labels 0 and 1 only, every label-1 record comes after every label-0 one,
      so the "leaders of interest" are drawn last, on top. */
  lemma LabelOneLast(rows: seq<RawRow>, toNumber: string -> int, i: int, j: int)
    requires 0 <= i < j < |LoadRecords(rows, toNumber)|
    requires forall x :: x in LoadRecords(rows, toNumber) ==> x.labelValue == 0 || x.labelValue == 1
    requires LoadRecords(rows, toNumber)[i].labelValue == 1
    ensures LoadRecords(rows, toNumber)[j].labelValue == 1
  {
    var data := LoadRecords(rows, toNumber);
    assert data[j] in data;
  }
}
