/** The data createLegend binds: a linear percentile axis, one coloured rect per bin
  * starting at `[min, ...thresholds]`, and one tick with its label per threshold. */
module Legend {
  import opened Binning

  /** Width of the legend drawing and its horizontal padding (`obj.width`, `obj.pad.hor`). */
  const LegendWidth: real := 400.0
  const PadHor: real := 20.0

  /** `d3.scaleLinear().domain([d0, d1]).range([r0, r1])`, unclamped. */
  datatype LinearScale = LinearScale(d0: real, d1: real, r0: real, r1: real)

  /** The scale applied to `x`; a degenerate domain sends every value to the middle of the range. */
  function Apply(s: LinearScale, x: real): real
  {
    var t := if s.d1 != s.d0 then (x - s.d0) / (s.d1 - s.d0) else 0.5;
    s.r0 * (1.0 - t) + s.r1 * t
  }

  /** The legend's axis: `[min, max]` onto `[pad.hor, width - pad.hor]`. */
  function Axis(r: Range): LinearScale
  {
    LinearScale(r.lo, r.hi, PadHor, LegendWidth - PadHor)
  }

  /** The ends of the domain go to the ends of the range. */
  lemma ApplyEndpoints(s: LinearScale)
    requires s.d0 != s.d1
    ensures Apply(s, s.d0) == s.r0 && Apply(s, s.d1) == s.r1
  {
  }

  /** The scale is affine: differences of images are differences of arguments times the slope. */
  lemma ApplyAffine(s: LinearScale, x: real, y: real)
    ensures s.d0 != s.d1 ==> Apply(s, y) - Apply(s, x) == (y - x) * ((s.r1 - s.r0) / (s.d1 - s.d0))
    ensures s.d0 == s.d1 ==> Apply(s, y) == Apply(s, x)
  {
  }

  /** On an increasing domain and range the scale preserves order, strictly. */
  lemma ApplyMonotone(s: LinearScale, x: real, y: real)
    requires s.d0 < s.d1 && s.r0 < s.r1 && x <= y
    ensures Apply(s, x) <= Apply(s, y)
    ensures x < y ==> Apply(s, x) < Apply(s, y)
  {
  }

  /** A coloured legend segment: its data value (the `percentile-floor` attribute), left edge,
    * width and fill. */
  datatype Rect = Rect(start: real, x: real, width: real, fill: Colour)

  /** A tick line with its label, both placed at `axis(value)`. */
  datatype Tick = Tick(value: real, x: real)

  datatype LegendLayout = LegendLayout(rects: seq<Rect>, ticks: seq<Tick>)

  /** The rect data `[obj.domain[0]].concat(obj.scale.color.domain())`. */
  function RectData(r: Range, s: ThresholdScale): seq<real>
  {
    [r.lo] + s.domain
  }

  /** The value at which rect `i` ends: the next threshold for `i < 8`, the maximum for the last. */
  function RectEnd(r: Range, s: ThresholdScale, i: nat): real
    requires |s.domain| == K - 1 && i < K
  {
    if i < 8 then s.domain[i] else r.hi
  }

  /** Rect width AS WRITTEN in createLegend: the axis scale applied to the difference
    * `next - d`, which is a position, not a length. */
  function RectWidthAsWritten(r: Range, s: ThresholdScale, i: nat): real
    requires |s.domain| == K - 1 && i < K
  {
    Apply(Axis(r), RectEnd(r, s, i) - RectData(r, s)[i])
  }

  /** Rect width as intended: the pixel distance from the rect's start to its end. */
  function RectWidth(r: Range, s: ThresholdScale, i: nat): real
    requires |s.domain| == K - 1 && i < K
  {
    Apply(Axis(r), RectEnd(r, s, i)) - Apply(Axis(r), RectData(r, s)[i])
  }

  /** The legend createLegend draws, with the intended rect widths. The rects sit side by
    * side along the axis, each one ending where the next begins. */
  function LegendOf(r: Range, s: ThresholdScale): (l: LegendLayout)
    requires |s.domain| == K - 1 && |s.range| > 0
    ensures |l.rects| == K && |l.ticks| == K - 1
    ensures forall i :: 0 <= i < K ==> l.rects[i].start == ([r.lo] + s.domain)[i]
    ensures forall i :: 0 <= i < K ==>
      l.rects[i].x == Apply(Axis(r), l.rects[i].start) && l.rects[i].fill == ColourOf(s, l.rects[i].start)
    ensures forall i :: 0 <= i < K - 1 ==> l.rects[i].x + l.rects[i].width == l.rects[i + 1].x
    ensures l.rects[K - 1].x + l.rects[K - 1].width == Apply(Axis(r), r.hi)
    ensures forall j :: 0 <= j < K - 1 ==> l.ticks[j] == Tick(s.domain[j], Apply(Axis(r), s.domain[j]))
  {
    var data := RectData(r, s);
    LegendLayout(
      seq(K, i requires 0 <= i < K => Rect(data[i], Apply(Axis(r), data[i]), RectWidth(r, s, i), ColourOf(s, data[i]))),
      seq(K - 1, j requires 0 <= j < K - 1 => Tick(s.domain[j], Apply(Axis(r), s.domain[j]))))
  }

  /** On a proper extent the rects cover the axis exactly, from `pad.hor` to `width - pad.hor`. */
  lemma LegendSpansAxis(r: Range, s: ThresholdScale)
    requires r.lo < r.hi && |s.domain| == K - 1 && |s.range| > 0
    ensures LegendOf(r, s).rects[0].x == PadHor
    ensures LegendOf(r, s).rects[K - 1].x + LegendOf(r, s).rects[K - 1].width == LegendWidth - PadHor
  {
    ApplyEndpoints(Axis(r));
  }

  /** Rect `i` is filled with the scale's colour for its data value. */
  lemma RectFillIsScale(r: Range, s: ThresholdScale, i: nat)
    requires |s.domain| == K - 1 && |s.range| > 0 && i < K
    ensures LegendOf(r, s).rects[i].fill == ColourOf(s, if i == 0 then r.lo else s.domain[i - 1])
  {
    assert ([r.lo] + s.domain)[i] == if i == 0 then r.lo else s.domain[i - 1];
  }

  /** On a strictly increasing threshold list that starts above the minimum, with one more
    * colour than thresholds, rect `i` is filled with colour `i`. */
  lemma RectFill(r: Range, s: ThresholdScale, i: nat)
    requires |s.domain| == K - 1 && |s.range| == K && i < K
    requires forall j, k :: 0 <= j < k < |s.domain| ==> s.domain[j] < s.domain[k]
    requires forall j :: 0 <= j < |s.domain| ==> r.lo < s.domain[j]
    ensures LegendOf(r, s).rects[i].fill == s.range[i]
  {
    var d := if i == 0 then r.lo else s.domain[i - 1];
    RectFillIsScale(r, s, i);
    ColourOfFullScale(s, d);
    if i > 0 {
      BinOfIncreasing(s.domain, i - 1);
    }
  }

  /** For the scale createChoroplethMap builds on an extent at least `k` wide,
    * rect `i` is filled with colour `i`: one rect per colour. */
  lemma LegendOnePerColour(r: Range, palette: seq<Colour>)
    requires r.hi - r.lo >= K as real && |palette| == K
    ensures forall i :: 0 <= i < K ==>
      LegendOf(r, ThresholdScale(Thresholds(r.lo, r.hi), palette)).rects[i].fill == palette[i]
  {
    var s := ThresholdScale(Thresholds(r.lo, r.hi), palette);
    WideRange(r.lo, r.hi);
    forall i | 0 <= i < K ensures LegendOf(r, s).rects[i].fill == palette[i] {
      RectFill(r, s, i);
    }
  }

  /** On an extent at least `k` wide every rect has positive width. */
  lemma LegendWidthsPositive(r: Range, palette: seq<Colour>)
    requires r.hi - r.lo >= K as real && |palette| == K
    ensures forall i :: 0 <= i < K ==>
      LegendOf(r, ThresholdScale(Thresholds(r.lo, r.hi), palette)).rects[i].width > 0.0
  {
    var t := Thresholds(r.lo, r.hi);
    var s := ThresholdScale(t, palette);
    WideRange(r.lo, r.hi);
    ThresholdsBounded(r.lo, r.hi);
    forall i | 0 <= i < K ensures RectWidth(r, s, i) > 0.0 {
      var d := RectData(r, s)[i];
      var e := RectEnd(r, s, i);
      assert d < e by {
        if i > 0 { assert d == t[i - 1]; }
      }
      ApplyMonotone(Axis(r), d, e);
    }
  }

  /** On an extent at least `k` wide every tick lies on the axis, right of its start. */
  lemma TicksOnAxis(r: Range, palette: seq<Colour>)
    requires r.hi - r.lo >= K as real && |palette| == K
    ensures forall j :: 0 <= j < K - 1 ==>
      PadHor < LegendOf(r, ThresholdScale(Thresholds(r.lo, r.hi), palette)).ticks[j].x <= LegendWidth - PadHor
  {
    var t := Thresholds(r.lo, r.hi);
    var a := Axis(r);
    WideRange(r.lo, r.hi);
    ThresholdsBounded(r.lo, r.hi);
    ApplyEndpoints(a);
    forall j | 0 <= j < K - 1 ensures PadHor < Apply(a, t[j]) <= LegendWidth - PadHor {
      ApplyMonotone(a, r.lo, t[j]);
      ApplyMonotone(a, t[j], r.hi);
    }
  }

  /** The width as written exceeds the intended width by the constant `axis(0)`. */
  lemma RectWidthAsWrittenOffset(r: Range, s: ThresholdScale, i: nat)
    requires |s.domain| == K - 1 && i < K
    ensures RectWidthAsWritten(r, s, i) == RectWidth(r, s, i) + Apply(Axis(r), 0.0)
  {
  }

  /** On a proper extent the rects as written meet their neighbours exactly when
    * `axis(0) = 0`, that is, only when the maximum is 19 times the minimum. */
  lemma AsWrittenTilesIff(r: Range, s: ThresholdScale, i: nat)
    requires r.lo < r.hi && |s.domain| == K - 1 && i < K
    ensures Apply(Axis(r), RectData(r, s)[i]) + RectWidthAsWritten(r, s, i) == Apply(Axis(r), RectEnd(r, s, i))
      <==> r.hi == 19.0 * r.lo
  {
  }

  /** On the extent [10, 100] the thresholds are 20, 30, ..., 90. The first rect as written is
    * drawn at x = 20 with width axis(10) = 20, so it stops at 40, while the second rect starts
    * at axis(20) = 60: the legend shows a 20-pixel gap. */
  lemma AsWrittenLeavesGap()
    ensures Thresholds(10.0, 100.0) == [20.0, 30.0, 40.0, 50.0, 60.0, 70.0, 80.0, 90.0]
    ensures Apply(Axis(Range(10.0, 100.0)), 10.0) == 20.0
    ensures RectWidthAsWritten(Range(10.0, 100.0), ThresholdScale(Thresholds(10.0, 100.0), []), 0) == 20.0
    ensures Apply(Axis(Range(10.0, 100.0)), 20.0) == 60.0
  {
    var t := Thresholds(10.0, 100.0);
    forall i | 0 <= i < K - 1 ensures t[i] == 10.0 * (i as real) + 20.0 {
      ThresholdAt(10.0, 100.0, i);
      assert Cut(10.0, 100.0, i + 1) == 10.0 * (i as real) + 20.0;
    }
  }

  /** On the extent [50, 60] the first threshold is 51, and the first rect as written has
    * width axis(51 - 50) = axis(1) = 20 + (1 - 50) * 36 = -1744: a negative width, so the
    * rect is not drawn. */
  lemma AsWrittenNegativeWidth()
    ensures Thresholds(50.0, 60.0)[0] == 51.0
    ensures RectWidthAsWritten(Range(50.0, 60.0), ThresholdScale(Thresholds(50.0, 60.0), []), 0) == -1744.0
  {
    ThresholdAt(50.0, 60.0, 0);
    assert 51.0 <= Cut(50.0, 60.0, 1) < 52.0;
  }
}
