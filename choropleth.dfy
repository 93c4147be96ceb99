/** createChoroplethMap up to the drawing: join the education records onto the
  * county features, take the extent of the joined values, build the equal-width
  * threshold scale, colour every county and lay out the legend. */
module Choropleth {
  import opened Wrappers
  import opened Join
  import opened Binning
  import opened Legend

  /** Why initialisation stops before anything is drawn. */
  datatype InitError =
    | UnmatchedCounty(index: nat)  // `d.data.bachelorsOrHigher` read on the county whose `data` is undefined
    | EmptyExtent                  // no county at all: the extent has no bounds

  /** What the pipeline hands to the renderer. */
  datatype Choropleth = Choropleth(extent: Range, scale: ThresholdScale, fills: seq<Colour>, legend: LegendLayout)

  /** The `data` property of each joined county, in order. */
  function DataOf(counties: seq<County>): (d: seq<Option<CountyStatistic>>)
    reads counties
    ensures |d| == |counties| && forall i :: 0 <= i < |counties| ==> d[i] == counties[i].data
  {
    seq(|counties|, i requires 0 <= i < |counties| reads counties => counties[i].data)
  }

  /** The extent accessor `d => d.data.bachelorsOrHigher` run over the counties in order:
    * it stops at the first county that has no record. */
  function Values(data: seq<Option<CountyStatistic>>): (r: Result<seq<real>, InitError>)
    ensures r.Ok? ==> |r.value| == |data|
    ensures r.Ok? ==> forall i :: 0 <= i < |data| ==>
      data[i].Some? && r.value[i] == data[i].value.bachelorsOrHigher
    ensures r.Err? ==> r.error.UnmatchedCounty? && r.error.index < |data| && data[r.error.index].None?
    ensures r.Err? ==> forall j :: 0 <= j < r.error.index ==> data[j].Some?
  {
    if data == [] then Ok([])
    else match data[0]
      case None => Err(UnmatchedCounty(0))
      case Some(d) =>
        match Values(data[1..])
        case Ok(vs) => Ok([d.bachelorsOrHigher] + vs)
        case Err(e) => Err(UnmatchedCounty(e.index + 1))
  }

  /** Specification of the pipeline on the joined data. */
  function Render(data: seq<Option<CountyStatistic>>, palette: seq<Colour>): Result<Choropleth, InitError>
    requires |palette| == K
  {
    match Values(data)
    case Err(e) => Err(e)
    case Ok(vs) =>
      match Extent(vs)
      case None => Err(EmptyExtent)
      case Some(r) =>
        var scale := ThresholdScale(Thresholds(r.lo, r.hi), palette);
        Ok(Choropleth(r, scale, seq(|vs|, i requires 0 <= i < |vs| => ColourOf(scale, vs[i])), LegendOf(r, scale)))
  }

  /** Initialisation fails exactly when there is no county or some county has no record;
    * the reported county is the first one without a record. */
  lemma RenderFails(data: seq<Option<CountyStatistic>>, palette: seq<Colour>)
    requires |palette| == K
    ensures Render(data, palette) == Err(EmptyExtent) <==> data == []
    ensures Render(data, palette).Ok? <==> data != [] && forall i :: 0 <= i < |data| ==> data[i].Some?
    ensures Render(data, palette).Err? && Render(data, palette).error.UnmatchedCounty? ==>
      var i := Render(data, palette).error.index;
      i < |data| && data[i].None? && forall j :: 0 <= j < i ==> data[j].Some?
  {
  }

  /** With at least one county and a record for each, initialisation succeeds: the extent bounds every county's value, the scale's thresholds are the
    * equal-width thresholds of that extent, every county is coloured by the number of
    * thresholds at most its value, the county holding the maximum gets the darkest colour,
    * and the legend is built on the very same thresholds and colours. */
  lemma RenderColours(data: seq<Option<CountyStatistic>>, palette: seq<Colour>)
    requires |palette| == K
    requires data != [] && forall i :: 0 <= i < |data| ==> data[i].Some?
    ensures Render(data, palette).Ok?
    ensures var m := Render(data, palette).value;
      m.extent == Extent(Values(data).value).value &&
      (exists i :: 0 <= i < |data| && data[i].value.bachelorsOrHigher == m.extent.hi) &&
      m.scale == ThresholdScale(Thresholds(m.extent.lo, m.extent.hi), palette) &&
      Sorted(m.scale.domain) && |m.fills| == |data| &&
      (forall i :: 0 <= i < |data| ==>
        data[i].Some? && m.extent.lo <= data[i].value.bachelorsOrHigher <= m.extent.hi &&
        m.fills[i] == palette[Bin(m.scale.domain, data[i].value.bachelorsOrHigher)]) &&
      (forall i :: 0 <= i < |data| && data[i].value.bachelorsOrHigher == m.extent.hi ==> m.fills[i] == palette[K - 1]) &&
      m.legend == LegendOf(m.extent, m.scale) &&
      (forall i :: 0 <= i < K ==> m.legend.rects[i].start == ([m.extent.lo] + m.scale.domain)[i]) &&
      (forall j :: 0 <= j < K - 1 ==> m.legend.ticks[j].value == m.scale.domain[j])
  {
    RenderFails(data, palette);
    var vs := Values(data).value;
    var r := Extent(vs).value;
    var m := Render(data, palette).value;
    ThresholdsSorted(r.lo, r.hi);
    MaxInDarkestBin(r.lo, r.hi);
    var k :| 0 <= k < |vs| && vs[k] == r.hi;
    assert data[k].value.bachelorsOrHigher == r.hi;
    forall i | 0 <= i < |data|
      ensures m.fills[i] == palette[Bin(m.scale.domain, vs[i])]
    {
      ColourOfFullScale(m.scale, vs[i]);
    }
  }

  /** createChoroplethMap up to the drawing. The join always runs; the rest is `Render`
    * of the joined counties. */
  method CreateChoroplethMap(features: seq<County>, records: seq<CountyStatistic>, palette: seq<Colour>)
    returns (r: Result<Choropleth, InitError>)
    requires |palette| == K
    modifies features
    ensures forall i :: 0 <= i < |features| ==> features[i].data == FirstMatch(records, features[i].id)
    ensures r == Render(DataOf(features), palette)
  {
    var countiesFips := JoinCounties(features, records);
    var values := Values(DataOf(countiesFips));
    if values.Err? {
      return Err(values.error);
    }
    var edExtent := Extent(values.value);
    if edExtent.None? {
      return Err(EmptyExtent);
    }
    var lo, hi := edExtent.value.lo, edExtent.value.hi;
    var percentileDomain := EqualWidthThresholds(lo, hi);
    var edColorScale := ThresholdScale(percentileDomain, palette);
    var vs := values.value;
    var fills := seq(|vs|, i requires 0 <= i < |vs| => ColourOf(edColorScale, vs[i]));
    r := Ok(Choropleth(edExtent.value, edColorScale, fills, LegendOf(edExtent.value, edColorScale)));
  }
}
