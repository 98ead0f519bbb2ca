/** The text of the hover tooltip shared by the timeline and the scatter plot
    (js/lexisChart.js:233-246, js/scatterPlot.js:129-142). Page coordinates and
    the HTML layout are not modelled; only the field values are. */
module Tooltip {
  import opened Wrappers
  import opened Records

  predicate IsDigit(c: char)
  {
    '0' <= c <= '9'
  }

  function DigitChar(d: nat): (c: char)
    requires d < 10
    ensures IsDigit(c) && c as int - '0' as int == d
  {
    "0123456789"[d]
  }

  /** Decimal rendering of a natural number, most significant digit first. */
  function NatText(n: nat): (s: string)
    ensures |s| > 0
    ensures forall i :: 0 <= i < |s| ==> IsDigit(s[i])
    ensures n > 0 ==> s[0] != '0'
  {
    if n < 10 then [DigitChar(n)] else NatText(n / 10) + [DigitChar(n % 10)]
  }

  /** The value of a string of decimal digits. */
  function DigitsValue(s: string): nat
    requires forall i :: 0 <= i < |s| ==> IsDigit(s[i])
  {
    if |s| == 0 then 0
    else
      assert IsDigit(s[|s| - 1]);
      DigitsValue(s[..|s| - 1]) * 10 + (s[|s| - 1] as int - '0' as int)
  }

  lemma {:induction false} NatTextRoundTrip(n: nat)
    ensures DigitsValue(NatText(n)) == n
  {
    if n >= 10 {
      NatTextRoundTrip(n / 10);
      var s := NatText(n);
      assert s[..|s| - 1] == NatText(n / 10);
    }
  }

  /** An optional minus sign followed by at least one digit, in the canonical form
      JavaScript prints: no leading zero except in "0" itself, and no "-0". */
  predicate IsIntText(s: string)
  {
    && |s| > 0
    && (forall k :: 0 < k < |s| ==> IsDigit(s[k]))
    && (IsDigit(s[0]) || (s[0] == '-' && |s| > 1))
    && (s[0] == '0' ==> |s| == 1)
    && (s[0] == '-' ==> s[1] != '0')
  }

  /** The decimal rendering of an integer. */
  function IntText(i: int): (s: string)
    ensures IsIntText(s)
    ensures i < 0 <==> s[0] == '-'
  {
    if i < 0 then "-" + NatText(-i) else NatText(i)
  }

  /** Reads back a rendered integer. */
  function IntValue(s: string): int
    requires IsIntText(s)
  {
    if s[0] == '-' then -(DigitsValue(s[1..]) as int) else DigitsValue(s)
  }

  /** Rendering an integer loses nothing: it reads back as the same number. */
  lemma IntTextRoundTrip(i: int)
    ensures IntValue(IntText(i)) == i
  {
    if i < 0 {
      NatTextRoundTrip(-i);
      assert IntText(i)[1..] == NatText(-i);
    } else {
      NatTextRoundTrip(i);
    }
  }

  /** A digit string without a leading zero has a positive value. */
  lemma {:induction false} DigitsPositive(s: string)
    requires |s| > 0 && s[0] != '0'
    requires forall i :: 0 <= i < |s| ==> IsDigit(s[i])
    ensures DigitsValue(s) > 0
  {
    if |s| > 1 {
      DigitsPositive(s[..|s| - 1]);
    }
  }

  /** A canonical digit string is the rendering of its own value. */
  lemma {:induction false} NatTextCanonical(s: string)
    requires |s| > 0 && (s[0] == '0' ==> |s| == 1)
    requires forall i :: 0 <= i < |s| ==> IsDigit(s[i])
    ensures NatText(DigitsValue(s)) == s
  {
    var v := DigitsValue(s);
    if |s| == 1 {
      assert s[..|s| - 1] == [] && DigitsValue([]) == 0;
      assert v == DigitsValue(s[..|s| - 1]) * 10 + (s[0] as int - '0' as int);
      assert NatText(v) == [DigitChar(v)];
    } else {
      var p := s[..|s| - 1];
      DigitsPositive(p);
      NatTextCanonical(p);
      var d := s[|s| - 1] as int - '0' as int;
      assert v == DigitsValue(p) * 10 + d && 0 <= d < 10;
      assert v / 10 == DigitsValue(p) && v % 10 == d;
      assert s == p + [DigitChar(d)];
    }
  }

  /** Only one text reads back as a given integer: every canonical integer text is
      `IntText` of its value. */
  lemma IntTextCanonical(s: string)
    requires IsIntText(s)
    ensures IntText(IntValue(s)) == s
  {
    if s[0] == '-' {
      var t := s[1..];
      NatTextCanonical(t);
      DigitsPositive(t);
      assert s == "-" + t;
    } else {
      NatTextCanonical(s);
    }
  }

  const MISSING: string := "missing"

  /** The GDP field: `missing` for a null figure, the number otherwise
      (`Math.round` is not modelled: the figure is already whole). */
  function GdpText(pcgdp: Option<int>): (t: string)
    ensures t == MISSING <==> pcgdp.None?
    ensures pcgdp.Some? ==> IsIntText(t) && IntValue(t) == pcgdp.value
  {
    match pcgdp
    case None => MISSING
    case Some(v) =>
      IntTextRoundTrip(v);
      assert IntText(v) != MISSING by {
        var t := IntText(v);
        if |t| == |MISSING| { assert t[0] != MISSING[0]; }
      }
      IntText(v)
  }

  predicate EndsWith(s: string, suffix: string)
  {
    |suffix| <= |s| && s[|s| - |suffix|..] == suffix
  }

  /** The time-in-office field: the number followed by ` year` when the duration is
      at most 1, by ` years` otherwise. */
  function DurationText(duration: int): (t: string)
    ensures EndsWith(t, " year") <==> duration <= 1
    ensures EndsWith(t, " years") <==> duration > 1
    ensures exists n ::
      && 0 < n < |t|
      && IsIntText(t[..n]) && IntValue(t[..n]) == duration
      && t[n..] == (if duration <= 1 then " year" else " years")
  {
    var number := IntText(duration);
    var suffix := if duration <= 1 then " year" else " years";
    var t := number + suffix;
    IntTextRoundTrip(duration);
    assert t[..|number|] == number;
    assert t[|t| - |suffix|..] == suffix;
    assert t[|t| - 1] == suffix[|suffix| - 1];
    assert t[|number|] == ' ';
    t
  }

  /** A one-year term reads "1 year", a four-year term "4 years". */
  lemma DurationExamples()
    ensures DurationText(1) == "1 year" && DurationText(4) == "4 years"
  {
    assert NatText(1) == "1" && NatText(4) == "4";
  }

  /** A null figure reads "missing", a figure of 1235 reads "1235". */
  lemma GdpExamples()
    ensures GdpText(None) == "missing" && GdpText(Some(1235)) == "1235"
  {
    assert NatText(1) == "1";
    assert NatText(12) == "12";
    assert NatText(123) == "123";
    assert NatText(1235) == "1235";
  }

  /** The tooltip's fields for one record. */
  datatype Content = Content(
    title: string,
    subtitle: string,
    ageAtStart: string,
    timeInOffice: string,
    gdpPerCapita: string)

  /** `s` is two integers joined by a dash, reading back as `a` and `b`. */
  ghost predicate YearRange(s: string, a: int, b: int)
  {
    exists n ::
      && 0 < n < |s| - 1 && s[n] == '-'
      && IsIntText(s[..n]) && IntValue(s[..n]) == a
      && IsIntText(s[n + 1..]) && IntValue(s[n + 1..]) == b
  }

  lemma YearRangeText(a: int, b: int)
    ensures YearRange(IntText(a) + "-" + IntText(b), a, b)
  {
    var s := IntText(a) + "-" + IntText(b);
    var n := |IntText(a)|;
    assert s[..n] == IntText(a);
    assert s[n + 1..] == IntText(b);
    IntTextRoundTrip(a);
    IntTextRoundTrip(b);
  }

  function ContentFor(r: Leader): (c: Content)
    ensures c.title == r.leader
    ensures |r.country| + 2 <= |c.subtitle| && c.subtitle[..|r.country| + 2] == r.country + ", "
    ensures YearRange(c.subtitle[|r.country| + 2..], r.startYear, r.endYear)
    ensures IsIntText(c.ageAtStart) && IntValue(c.ageAtStart) == r.startAge
    ensures c.timeInOffice == DurationText(r.duration)
    ensures c.gdpPerCapita == GdpText(r.pcgdp)
    ensures c.gdpPerCapita == MISSING <==> r.pcgdp.None?
    ensures EndsWith(c.timeInOffice, " year") <==> r.duration <= 1
  {
    IntTextRoundTrip(r.startAge);
    var range := IntText(r.startYear) + "-" + IntText(r.endYear);
    YearRangeText(r.startYear, r.endYear);
    assert (r.country + ", " + range)[|r.country| + 2..] == range;
    Content(
      r.leader,
      r.country + ", " + range,
      IntText(r.startAge),
      DurationText(r.duration),
      GdpText(r.pcgdp))
  }
}
