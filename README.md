# Choropleth join-and-binning core

A Dafny model of what `script.js` computes before it draws the United States educational
attainment choropleth. It covers:

- the FIPS join: each county feature is given, in place, the first education record whose
  `fips` equals the feature's `id` (`undefined` when none does);
- the extent `[min, max]` of `bachelorsOrHigher` over the joined counties, read through an
  accessor that throws on the first county without a record;
- the equal-width threshold loop: with `k = 9` and `interval = (max - min) / k`, the
  thresholds are `floor(min + interval*i)` for `i = 1..8`;
- the `d3.scaleThreshold` lookup: the colour index is the number of thresholds that are at
  most the value (bisect-right), so a value equal to a threshold goes to the higher bin;
- the legend data: rects at `[min, ...thresholds]` coloured by the same scale, one tick and
  label per threshold, and the linear axis from `[min, max]` onto `[20, 380]`.

Modules: `Wrappers` (Option and Result), `Join` (records, the `County` class and the join
method), `Binning` (extent, thresholds, threshold scale), `Legend` (linear axis and legend
layout) and `Choropleth` (the pipeline as a whole). Values are mathematical reals and
`Math.floor` is `.Floor`. The palette is an opaque sequence of nine colour strings.

Three behaviours of the code are easy to misread:
- A county without a record is not drawn in a neutral colour. The extent accessor
  `d.data.bachelorsOrHigher` throws on it, so initialisation stops. The model reports this as
  `UnmatchedCounty(i)`, where `i` is the first such county.
- The comment above the tick code says `[min, ...thresholds, max]`. The code binds only the
  thresholds, so there are eight ticks and eight labels.
- The minimum does not always land in the lightest bin. `MinInLightestBinIff` proves it does
  exactly when the first threshold `floor(min + interval)` is above the minimum, that is, when
  some integer lies in `(min, min + interval]`. `WideRange` shows this always holds for ranges
  at least `k` wide. `NarrowRangeMinimumIsDarkest` shows a narrow extent where flooring puts
  every threshold below the minimum.

## Model

| member | source | states |
|---|---|---|
| `Join.County.constructor` | script.js:109 | a decoded county feature carries its id and no `data` yet |
| `Join.Matching` | script.js:111 | the filter keeps exactly the records whose fips equals the id, only records from the dataset, and no more of them than the dataset holds |
| `Join.FirstMatch` | script.js:111 | defines `filter(...)[0]`: a record from the dataset carrying the id, or none exactly when no record carries it |
| `Join.FirstMatchIsFirst` | script.js:111 | `filter(...)[0]` is undefined exactly when no record has the id, and otherwise it is the record at the first index whose fips equals the id |
| `Join.JoinCounties` | script.js:110-113 | the returned list is the same feature objects in the same order, and each feature's `data` is now the first matching record (or none) |
| `Binning.Extent` | script.js:136 | the extent is absent for an empty list; otherwise both bounds occur in the list and every value lies between them |
| `Binning.Floor` | script.js:143 | `Math.floor` gives an integer at most `x` and within one of it |
| `Binning.FloorMonotone` | script.js:143 | flooring preserves order |
| `Binning.CutMonotone` | script.js:139-143 | on a proper extent the cut `min + interval*i` grows with `i` |
| `Binning.CutAtMostMax` | script.js:139-143 | no cut with `i <= k` passes the maximum |
| `Binning.Cut` | script.js:139-143 | defines the cut point `edExtent[0] + interval*i` with `interval = (max - min) / k` |
| `Binning.EqualWidthThresholds` | script.js:138-144 | the loop pushes exactly `k - 1 = 8` entries, entry `i - 1` being `floor(min + interval*i)`, and equals the threshold specification |
| `Binning.Thresholds` | script.js:141-144 | defines the threshold list the loop builds: 8 entries, each an integer within one below cut `i + 1` |
| `Binning.MinInLightestBinIff` | script.js:139-148 | the minimum is in bin 0 exactly when the first threshold `floor(min + interval)` is above it |
| `Binning.ThresholdsSorted` | script.js:139-144 | the thresholds are nondecreasing |
| `Binning.ThresholdsBounded` | script.js:139-144 | every threshold lies between `floor(min)` and `max` |
| `Binning.WideRange` | script.js:139-144 | when `max - min >= k` the thresholds strictly increase, all exceed the minimum, and the minimum is in bin 0 |
| `Binning.NarrowRangeMinimumIsDarkest` | script.js:139-148 | on the extent [7.5, 7.6] all thresholds are 7, so the minimum gets the darkest colour |
| `Binning.Bin` | script.js:146-148 | the bin index is at most the threshold count; it is the top bin exactly when every threshold is at most the value, and bin 0 exactly when every threshold is above it |
| `Binning.BinMonotone` | script.js:146-148 | a larger value never gets a lower bin |
| `Binning.BinIsBisectRight` | script.js:146-148 | on sorted thresholds the index is the bisect-right position: all thresholds before it are at most the value, all from it on are above |
| `Binning.BinAtThreshold` | script.js:146-148 | a value equal to threshold `j` goes above bin `j`, and a value below threshold `j` goes to bin `j` or lower |
| `Binning.BinOfIncreasing` | script.js:146-148 | on strictly increasing thresholds, threshold `j` falls in bin `j + 1` |
| `Binning.BinIndex` | script.js:146-148 | the scale's index is a valid palette index and at most the threshold count |
| `Binning.ColourOf` | script.js:146-148 | the scale always returns a palette colour |
| `Binning.ColourOfFullScale` | script.js:146-148 | with 9 colours and 8 thresholds the colour is the palette entry at the count of thresholds at most the value |
| `Binning.MaxInDarkestBin` | script.js:136-148 | the maximum of the extent always lands in the last, darkest bin |
| `Legend.Apply` | script.js:20-22 | defines the unclamped d3 linear scale, sending every value to the middle of the range when the domain is degenerate |
| `Legend.Axis` | script.js:20-22 | defines the legend's axis, from `[min, max]` onto `[pad.hor, width - pad.hor]` = `[20, 380]` |
| `Legend.ApplyEndpoints` | script.js:20-22 | the axis maps the domain's ends to the range's ends |
| `Legend.ApplyAffine` | script.js:20-22 | the axis is affine, and constant on a degenerate domain |
| `Legend.ApplyMonotone` | script.js:20-22 | the axis preserves order, strictly, on an increasing domain and range |
| `Legend.RectData` | script.js:26 | defines the rect data `[min]` followed by the thresholds |
| `Legend.RectEnd` | script.js:33-34 | defines the value where rect `i` ends: threshold `i` for `i < 8`, the maximum for the last rect |
| `Legend.RectWidth` | script.js:32-35 | defines the corrected rect width `axis(end) - axis(d)` (see ## Findings) |
| `Legend.RectFillIsScale` | script.js:26-38 | rect `i` is filled with the scale's colour for its data value, `min` for rect 0 and threshold `i - 1` otherwise |
| `Legend.LegendOf` | script.js:24-63 | the legend has 9 rects at `[min, ...thresholds]`, each at `axis(d)`, filled by the threshold scale, each ending where the next begins and the last at `axis(max)` (corrected width, see ## Findings); it has 8 ticks, one per threshold, at `axis(threshold)` |
| `Legend.LegendSpansAxis` | script.js:20-36 | on a proper extent the rects start at `pad.hor` and end at `width - pad.hor` (corrected width, see ## Findings) |
| `Legend.RectFill` | script.js:26-38 | when the thresholds strictly increase from above the minimum, rect `i` is filled with colour `i` |
| `Legend.LegendOnePerColour` | script.js:26-38 | on an extent at least `k` wide, every rect gets its own palette colour, in order |
| `Legend.LegendWidthsPositive` | script.js:32-35 | on an extent at least `k` wide every rect has positive width (corrected width, see ## Findings) |
| `Legend.TicksOnAxis` | script.js:41-63 | on an extent at least `k` wide every tick lies on the axis |
| `Legend.RectWidthAsWritten` | script.js:32-35 | defines the rect width as written, `axisScale(next - d)`, with `next` the following threshold for `i < 8` and `max` for the last rect |
| `Legend.RectWidthAsWrittenOffset` | script.js:32-35 | the width as written exceeds the intended width by `axis(0)` |
| `Legend.AsWrittenTilesIff` | script.js:32-36 | the rects as written meet their neighbours only when `max = 19 * min` |
| `Legend.AsWrittenLeavesGap` | script.js:32-36 | on the extent [10, 100] the first rect as written stops at x = 40 while the second starts at x = 60 |
| `Legend.AsWrittenNegativeWidth` | script.js:32-35 | on the extent [50, 60] the first threshold is 51 and the first rect as written has width -1744 |
| `Choropleth.Values` | script.js:136 | the accessor yields every county's value in order, or fails on the first county whose `data` is undefined |
| `Choropleth.Render` | script.js:136-224 | defines the pipeline on the joined data: values, extent, equal-width scale over the palette, one fill per county and the legend (corrected width, see ## Findings), or the first error |
| `Choropleth.RenderFails` | script.js:136-148 | initialisation fails exactly when there is no county or some county has no record, and it names the first county without a record |
| `Choropleth.RenderColours` | script.js:136-224 | when there are counties and each has a record, initialisation succeeds; the extent is the extent of the values and its maximum is some county's value; every value lies in the extent, the scale holds the equal-width thresholds and the palette, each county's fill is the palette entry at its bin, the maximum's county is darkest, and the legend is built on the same thresholds |
| `Choropleth.CreateChoroplethMap` | script.js:83-226 | the join writes every feature's first match; the result is the pipeline specification on the joined data, whose legend uses the corrected width (see ## Findings) |

## Findings

| source | as written | input that shows it | evidently intended | confidence | as-written member | corrected member |
|---|---|---|---|---|---|---|
| script.js:32-35 | rect width is `axisScale(next - d)`, the scale applied to a difference of values | extent [10, 100]: rect 0 is drawn at x = 20 with width 20, and rect 1 starts at x = 60; extent [50, 60]: rect 0 has width -1744, so it is not drawn | width `axisScale(next) - axisScale(d)`, so the rects tile the axis | medium, not executed | `Legend.AsWrittenLeavesGap` | `Legend.LegendOf` |

`Legend.RectWidthAsWritten` models the width as written. `Legend.AsWrittenTilesIff` shows that
those widths tile the axis only when `max = 19 * min`. `Legend.AsWrittenNegativeWidth` shows
a width that comes out negative. `Legend.LegendOf` uses the corrected
`Legend.RectWidth`.

## Left out

- SVG and DOM work is not modelled: element creation, attributes, styles, heights, `y`
  positions, strokes and page text (script.js:14-17, 25-63, 88-101, 155-212). Only the data
  and positions bound to legend elements are modelled.
- The mouseover and mouseout tooltip handlers are not modelled (script.js:170-192). They
  depend on browser layout.
- TopoJSON decoding is not modelled (script.js:107-109). It is library code. County
  geometry is not modelled either: the `County` class has only `id` and `data`.
- The geoIdentity projection and the path generator are not modelled (script.js:123-128).
  They are library geometry on floating point.
- `Promise.all`, `d3.json` and the `catch` that logs the error are not modelled
  (script.js:235-253). This is network I/O. `UnmatchedCounty` stands for the TypeError the catch receives. `EmptyExtent` has no counterpart in the source, which does not throw on an empty list (see below).
  `console.log` is not modelled.
- Label text formatting `Math.round(d*100)/100 + "%"` is not modelled (script.js:59). The
  actual colour strings of `d3.schemeBlues[9]` are not modelled either; the palette is a
  parameter.
- IEEE-754 doubles are not modelled. Values are mathematical reals. d3 scales also return
  their `unknown` value for NaN or null inputs; that case cannot arise on reals.
- Join.FirstMatch: fips and ids are integers, so `===` is integer equality. A string id in
  the data would never match in the source.
- Binning.Extent: the model gives no extent for an empty county list, and initialisation stops
  with `EmptyExtent`. In the source, `d3.extent` returns `[undefined, undefined]`, and the
  pipeline goes on with NaN thresholds and draws no county.
- Binning.Extent: `d3.extent` also skips values that are null or undefined. A record whose
  `bachelorsOrHigher` is null would be skipped in the source. This cannot arise in the model,
  because `CountyStatistic.bachelorsOrHigher` is a `real`.
- Binning.Bin: d3's bisection is modelled by its result, a count of thresholds at most the
  value. It is proved equal to the bisect-right position on sorted thresholds, which is what
  the pipeline always builds.
