/** The fill and colour decisions of the segmented temperature bar.

    The current temperature is normalised against the window's minimum and
    maximum to a percentage; segment i of n is filled when that percentage
    reaches the segment's left edge, i * (100 / n). A filled segment is coloured
    along a green-yellow-red ramp by its position alone. The title colour
    depends on the percentage. */
module Gauge {

  /** Number of segments the dashboard draws. */
  const NUM_SEGMENTS: int := 12

  /** A colour with 8-bit channels. */
  datatype Rgb = Rgb(red: int, green: int, blue: int)

  datatype TitleColour = Green | Orange | Red

  /** A segment is either left empty or drawn in a colour; the first filled
      segment gets a rounded left cap and the last one a rounded right cap when
      the bar is full. */
  datatype Segment = Unfilled | Filled(colour: Rgb, leftCap: bool, rightCap: bool)

  datatype TemperatureBar = TemperatureBar(value: real, segments: seq<Segment>, title: TitleColour)

  /** The current temperature as a percentage of the window's range: its
      distance above the minimum is that percentage of the range's width. */
  function Normalise(value: real, lo: real, hi: real): (norm: real)
    requires lo < hi
    ensures norm * (hi - lo) == (value - lo) * 100.0
  {
    var q := (value - lo) / (hi - lo);
    assert q * (hi - lo) == value - lo;
    q * 100.0
  }

  /** A temperature inside the range normalises into [0, 100]; it reaches 0
      exactly at the minimum and 100 exactly at the maximum. */
  lemma NormaliseRange(value: real, lo: real, hi: real)
    requires lo < hi
    ensures Normalise(value, lo, hi) >= 0.0 <==> value >= lo
    ensures Normalise(value, lo, hi) >= 100.0 <==> value >= hi
    ensures Normalise(value, lo, hi) <= 100.0 <==> value <= hi
  {
    var d := hi - lo;
    var q := (value - lo) / d;
    assert q * d == value - lo;
    ScaleCompare(q, d, 0.0);
    ScaleCompare(q, d, 1.0);
    ScaleCompare(1.0, d, q);
  }

  /** Multiplying by a positive factor keeps the order. */
  lemma ScaleCompare(q: real, d: real, c: real)
    requires d > 0.0
    ensures q >= c <==> q * d >= c * d
  {
  }

  function SegmentWidth(n: int): real
    requires n > 0
  {
    100.0 / n as real
  }

  /** The left edge of segment i, as a percentage. */
  function SegmentStart(i: int, n: int): real
    requires n > 0
  {
    i as real * SegmentWidth(n)
  }

  predicate IsFilled(norm: real, i: int, n: int)
    requires n > 0
  {
    norm >= SegmentStart(i, n)
  }

  /** Segment edges increase with the index, so the filled segments form a prefix. */
  lemma FilledIsPrefix(norm: real, i: int, j: int, n: int)
    requires n > 0 && 0 <= i <= j
    requires IsFilled(norm, j, n)
    ensures IsFilled(norm, i, n)
  {
    var w := SegmentWidth(n);
    assert w > 0.0;
    assert (j - i) as real * w >= 0.0;
  }

  /** Position of a segment along the ramp, from 0 for the first to 1 for the last. */
  function Progress(i: int, n: int): real
    requires n >= 2
  {
    i as real / (n - 1) as real
  }

  lemma ProgressRange(i: int, n: int)
    requires n >= 2 && 0 <= i < n
    ensures 0.0 <= Progress(i, n) <= 1.0
  {
    var d := (n - 1) as real;
    assert Progress(i, n) * d == i as real;
  }

  /** The colour of a filled segment: green rising in red over the first half,
      then red losing green over the second; the integer conversion truncates,
      which is the floor here because the scaled values are never negative. */
  function SegmentColour(i: int, n: int): (c: Rgb)
    requires n >= 2 && 0 <= i < n
    ensures c.blue == 0
    ensures 0 <= c.red <= 255 && 0 <= c.green <= 255
    ensures Progress(i, n) < 0.5 ==> c.green == 255
    ensures Progress(i, n) >= 0.5 ==> c.red == 255
  {
    ProgressRange(i, n);
    var p := Progress(i, n);
    if p < 0.5 then Rgb((255.0 * (p * 2.0)).Floor, 255, 0)
    else Rgb(255, (255.0 * (1.0 - (p - 0.5) * 2.0)).Floor, 0)
  }

  /** Progress grows with the index. */
  lemma ProgressMonotone(i: int, j: int, n: int)
    requires n >= 2 && 0 <= i <= j < n
    ensures Progress(i, n) <= Progress(j, n)
  {
    var d := (n - 1) as real;
    assert Progress(i, n) * d == i as real;
    assert Progress(j, n) * d == j as real;
    ScaleCompare(Progress(j, n), d, Progress(i, n));
  }

  /** Along the bar red never decreases and green never increases. */
  lemma ColourRamp(i: int, j: int, n: int)
    requires n >= 2 && 0 <= i <= j < n
    ensures SegmentColour(i, n).red <= SegmentColour(j, n).red
    ensures SegmentColour(i, n).green >= SegmentColour(j, n).green
  {
    ProgressMonotone(i, j, n);
    ProgressRange(i, n);
    ProgressRange(j, n);
  }

  /** The ramp runs from pure green at the first segment to pure red at the last. */
  lemma ColourRampEnds(n: int)
    requires n >= 2
    ensures SegmentColour(0, n) == Rgb(0, 255, 0)
    ensures SegmentColour(n - 1, n) == Rgb(255, 0, 0)
  {
    assert Progress(n - 1, n) == 1.0;
    assert Progress(0, n) == 0.0;
  }

  /** What is drawn for segment i: it is drawn exactly when the percentage
      reaches its left edge, in its ramp colour, with the left cap on the first
      segment and the right cap on the last one once the bar is full. */
  function SegmentAt(norm: real, i: int, n: int): (s: Segment)
    requires n >= 2 && 0 <= i < n
    ensures s.Filled? <==> norm >= i as real * (100.0 / n as real)
    ensures s.Filled? ==> s.colour == SegmentColour(i, n)
    ensures s.Filled? ==> (s.leftCap <==> i == 0) && (s.rightCap <==> i == n - 1 && norm >= 100.0)
  {
    if IsFilled(norm, i, n) then Filled(SegmentColour(i, n), i == 0, i == n - 1 && norm >= 100.0)
    else Unfilled
  }

  /** Green below half of the range, orange below three quarters, red above. */
  function TitleColourFor(norm: real): (t: TitleColour)
    ensures t == Green <==> norm < 50.0
    ensures t == Orange <==> 50.0 <= norm < 75.0
    ensures t == Red <==> norm >= 75.0
  {
    var progress := norm / 100.0;
    if progress < 0.5 then Green
    else if progress < 0.75 then Orange
    else Red
  }

  /** The bar for `value` in the range [lo, hi] with n segments: one segment
      decision per index, in order (see `BarSegments`, `BarFilledPrefix` and
      `BarCaps`), and
      the title colour for the percentage. */
  function Bar(value: real, lo: real, hi: real, n: int): (b: TemperatureBar)
    requires lo < hi && n >= 2
    ensures b.value == value
    ensures b.title == TitleColourFor(Normalise(value, lo, hi))
  {
    var norm := Normalise(value, lo, hi);
    TemperatureBar(value, seq(n, i requires 0 <= i < n => SegmentAt(norm, i, n)), TitleColourFor(norm))
  }

  /** The drawing loop: one decision per segment, in order. */
  method CreateTemperatureBar(value: real, lo: real, hi: real, n: int) returns (bar: TemperatureBar)
    requires lo < hi && n >= 2
    ensures bar == Bar(value, lo, hi, n)
  {
    var norm := Normalise(value, lo, hi);
    var width := 100.0 / n as real;
    var segments: seq<Segment> := [];
    for i := 0 to n
      invariant |segments| == i
      invariant forall k :: 0 <= k < i ==> segments[k] == SegmentAt(norm, k, n)
    {
      var segmentStart := i as real * width;
      var segment := Unfilled;
      if norm >= segmentStart {
        var colour := SegmentColour(i, n);
        segment := Filled(colour, i == 0, i == n - 1 && norm >= 100.0);
      }
      segments := segments + [segment];
    }
    var title := TitleColourFor(norm);
    bar := TemperatureBar(value, segments, title);
  }

  /** A bar holds one segment per index, each the decision `SegmentAt` makes for
      the percentage at that index. */
  lemma BarSegments(value: real, lo: real, hi: real, n: int)
    requires lo < hi && n >= 2
    ensures var b := Bar(value, lo, hi, n);
      && |b.segments| == n
      && forall i :: 0 <= i < n ==> b.segments[i] == SegmentAt(Normalise(value, lo, hi), i, n)
  {
  }

  /** The filled segments of a bar are exactly those whose left edge the
      percentage reaches, and they form a prefix of the bar. */
  lemma BarFilledPrefix(value: real, lo: real, hi: real, n: int)
    requires lo < hi && n >= 2
    ensures var b := Bar(value, lo, hi, n);
      && |b.segments| == n
      && (forall i :: 0 <= i < n ==>
            (b.segments[i].Filled? <==> Normalise(value, lo, hi) >= i as real * (100.0 / n as real)))
      && (forall i, j :: 0 <= i <= j < n && b.segments[j].Filled? ==> b.segments[i].Filled?)
  {
    var b := Bar(value, lo, hi, n);
    var norm := Normalise(value, lo, hi);
    forall i, j | 0 <= i <= j < n && b.segments[j].Filled?
      ensures b.segments[i].Filled?
    {
      FilledIsPrefix(norm, i, j, n);
    }
  }

  /** The left edge of the last segment lies below 100 percent. */
  lemma LastEdgeBelowFull(n: int)
    requires n >= 1
    ensures SegmentStart(n - 1, n) < 100.0
  {
    var w := SegmentWidth(n);
    assert n as real * w == 100.0;
    assert SegmentStart(n - 1, n) == n as real * w - w;
  }

  /** Only segment 0 gets a left cap; only the last segment can get a right cap,
      and it gets one exactly when the value is at least the window maximum. */
  lemma BarCaps(value: real, lo: real, hi: real, n: int)
    requires lo < hi && n >= 2
    ensures var b := Bar(value, lo, hi, n);
      && (forall i :: 0 <= i < n && b.segments[i].Filled? ==>
            (b.segments[i].leftCap <==> i == 0))
      && (forall i :: 0 <= i < n && b.segments[i].Filled? && b.segments[i].rightCap ==> i == n - 1)
      && (b.segments[n - 1].Filled? && b.segments[n - 1].rightCap <==> value >= hi)
  {
    NormaliseRange(value, lo, hi);
    LastEdgeBelowFull(n);
  }

  /** A value at or above the window minimum always fills segment 0, in pure
      green with the left cap. */
  lemma BarFirstSegment(value: real, lo: real, hi: real, n: int)
    requires lo < hi && n >= 2
    requires lo <= value
    ensures Bar(value, lo, hi, n).segments[0] == Filled(Rgb(0, 255, 0), true, false)
  {
    NormaliseRange(value, lo, hi);
    ColourRampEnds(n);
    assert SegmentStart(0, n) == 0.0;
  }

  /** The title turns orange at half of the range and red at three quarters. */
  lemma TitleThresholds(value: real, lo: real, hi: real)
    requires lo < hi
    ensures Bar(value, lo, hi, NUM_SEGMENTS).title == Green <==> value - lo < (hi - lo) / 2.0
    ensures Bar(value, lo, hi, NUM_SEGMENTS).title == Red <==> value - lo >= (hi - lo) * 0.75
  {
    var d := hi - lo;
    var norm := Normalise(value, lo, hi);
    assert Bar(value, lo, hi, NUM_SEGMENTS).title == TitleColourFor(norm);
    PercentCompare(norm, d, value - lo, 50.0);
    PercentCompare(norm, d, value - lo, 75.0);
  }

  /** A percentage of a positive width reaches a threshold exactly when the
      distance it stands for reaches that share of the width. */
  lemma PercentCompare(norm: real, d: real, x: real, c: real)
    requires d > 0.0 && norm * d == x * 100.0
    ensures norm >= c <==> x * 100.0 >= c * d
  {
    ScaleCompare(norm, d, c);
  }
}
