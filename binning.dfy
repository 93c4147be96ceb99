/** Equal-width colour binning of createChoroplethMap: the extent of the statistic,
  * the eight floored cut points and d3's threshold-scale lookup. */
module Binning {
  import opened Wrappers

  /** Number of colour classes, `k`. */
  const K: nat := 9

  /** A CSS colour string; the palette itself is opaque to the model. */
  type Colour = string

  /** The extent `[min, max]` of the statistic. */
  datatype Range = Range(lo: real, hi: real)

  function Min(a: real, b: real): real { if a <= b then a else b }
  function Max(a: real, b: real): real { if a <= b then b else a }

  /** `d3.extent(values)`: the least and the greatest value, or `None` for an empty list. */
  function Extent(values: seq<real>): (r: Option<Range>)
    ensures r.None? <==> values == []
    ensures r.Some? ==> r.value.lo in values && r.value.hi in values
    ensures r.Some? ==> forall j :: 0 <= j < |values| ==> r.value.lo <= values[j] <= r.value.hi
  {
    if values == [] then None
    else match Extent(values[1..])
      case None => Some(Range(values[0], values[0]))
      case Some(rest) => Some(Range(Min(values[0], rest.lo), Max(values[0], rest.hi)))
  }

  /** `Math.floor`, on reals. */
  function Floor(x: real): (f: real)
    ensures f.Floor as real == f
    ensures f <= x < f + 1.0
  {
    x.Floor as real
  }

  /** `edExtent[0] + interval*i` with `interval = (edExtent[1] - edExtent[0]) / k`. */
  function Cut(lo: real, hi: real, i: nat): real
  {
    lo + (hi - lo) / (K as real) * (i as real)
  }

  /** The threshold list the loop builds: entry `i` is `floor(min + interval*(i+1))`. */
  function Thresholds(lo: real, hi: real): (t: seq<real>)
    ensures |t| == K - 1
    ensures forall i :: 0 <= i < K - 1 ==> t[i].Floor as real == t[i] && t[i] <= Cut(lo, hi, i + 1) < t[i] + 1.0
  {
    seq(K - 1, i requires 0 <= i < K - 1 => Floor(Cut(lo, hi, i + 1)))
  }

  /** The loop `for (let i=1; i<k; i++) percentileDomain.push(Math.floor(...))`. */
  method EqualWidthThresholds(lo: real, hi: real) returns (percentileDomain: seq<real>)
    ensures |percentileDomain| == K - 1
    ensures forall i :: 1 <= i < K ==> percentileDomain[i - 1] == Floor(Cut(lo, hi, i))
    ensures percentileDomain == Thresholds(lo, hi)
  {
    var interval := (hi - lo) / (K as real);
    percentileDomain := [];
    var i := 1;
    while i < K
      invariant 1 <= i <= K
      invariant |percentileDomain| == i - 1
      invariant forall j :: 1 <= j < i ==> percentileDomain[j - 1] == Floor(Cut(lo, hi, j))
    {
      assert lo + interval * (i as real) == Cut(lo, hi, i);
      percentileDomain := percentileDomain + [Floor(lo + interval * (i as real))];
      i := i + 1;
    }
  }

  /** No entry is greater than an entry after it. */
  ghost predicate Sorted(s: seq<real>)
  {
    forall i, j :: 0 <= i <= j < |s| ==> s[i] <= s[j]
  }

  /** Cut points grow with their index and never pass the maximum. */
  lemma CutMonotone(lo: real, hi: real, i: nat, j: nat)
    requires lo <= hi && i <= j
    ensures Cut(lo, hi, i) <= Cut(lo, hi, j)
  {
  }

  lemma CutAtMostMax(lo: real, hi: real, i: nat)
    requires lo <= hi && i <= K
    ensures Cut(lo, hi, i) <= hi
  {
  }

  /** Entry `i` of the threshold list is the floor of cut point `i + 1`. */
  lemma ThresholdAt(lo: real, hi: real, i: nat)
    requires i < K - 1
    ensures |Thresholds(lo, hi)| == K - 1 && Thresholds(lo, hi)[i] == Floor(Cut(lo, hi, i + 1))
  {
  }

  /** `Math.floor` never decreases. */
  lemma FloorMonotone(x: real, y: real)
    requires x <= y
    ensures Floor(x) <= Floor(y)
  {
    var a, b := x.Floor, y.Floor;
    assert (a as real) < (b as real) + 1.0;
    assert a < b + 1;
  }

  /** The thresholds are nondecreasing. */
  lemma ThresholdsSorted(lo: real, hi: real)
    requires lo <= hi
    ensures Sorted(Thresholds(lo, hi))
  {
    var t := Thresholds(lo, hi);
    forall i, j | 0 <= i <= j < |t| ensures t[i] <= t[j] {
      ThresholdAt(lo, hi, i);
      ThresholdAt(lo, hi, j);
      CutMonotone(lo, hi, i + 1, j + 1);
      FloorMonotone(Cut(lo, hi, i + 1), Cut(lo, hi, j + 1));
    }
  }

  /** Each threshold lies in `[floor(min), max]`. */
  lemma ThresholdsBounded(lo: real, hi: real)
    requires lo <= hi
    ensures |Thresholds(lo, hi)| == K - 1
    ensures forall i :: 0 <= i < K - 1 ==> Floor(lo) <= Thresholds(lo, hi)[i] <= hi
  {
    forall i | 0 <= i < K - 1 ensures Floor(lo) <= Thresholds(lo, hi)[i] <= hi {
      ThresholdAt(lo, hi, i);
      CutAtMostMax(lo, hi, i + 1);
      CutMonotone(lo, hi, 0, i + 1);
      assert Cut(lo, hi, 0) == lo;
      FloorMonotone(lo, Cut(lo, hi, i + 1));
    }
  }

  /** `Bin(t, x)` is the number of thresholds that are at most `x`. */
  function Bin(t: seq<real>, x: real): (n: nat)
    ensures n <= |t|
    ensures n == |t| <==> forall j :: 0 <= j < |t| ==> t[j] <= x
    ensures n == 0 <==> forall j :: 0 <= j < |t| ==> x < t[j]
  {
    if t == [] then 0
    else (if t[0] <= x then 1 else 0) + Bin(t[1..], x)
  }

  /** The bin index never decreases as the value grows. */
  lemma {:induction false} BinMonotone(t: seq<real>, x: real, y: real)
    requires x <= y
    ensures Bin(t, x) <= Bin(t, y)
  {
    if t != [] { BinMonotone(t[1..], x, y); }
  }

  /** On a sorted threshold list the count is d3's bisect-right position: every threshold
    * before it is at most `x` and every threshold from it on is above `x`. */
  lemma {:induction false} BinIsBisectRight(t: seq<real>, x: real)
    requires Sorted(t)
    ensures forall j :: 0 <= j < Bin(t, x) ==> t[j] <= x
    ensures forall j :: Bin(t, x) <= j < |t| ==> x < t[j]
  {
    if t != [] {
      BinIsBisectRight(t[1..], x);
      if t[0] <= x {
        forall j | 0 <= j < Bin(t, x) ensures t[j] <= x {
          if j > 0 { assert t[j] == t[1..][j - 1]; }
        }
        forall j | Bin(t, x) <= j < |t| ensures x < t[j] {
          assert t[j] == t[1..][j - 1];
        }
      } else {
        assert Bin(t, x) == 0;
      }
    }
  }

  /** A value equal to threshold `j` goes to a bin above `j`; a value below it stays at or under `j`. */
  lemma BinAtThreshold(t: seq<real>, j: nat, x: real)
    requires Sorted(t) && j < |t|
    ensures Bin(t, t[j]) > j
    ensures x < t[j] ==> Bin(t, x) <= j
  {
    BinIsBisectRight(t, t[j]);
    BinIsBisectRight(t, x);
  }

  /** On a strictly increasing list, threshold `j` itself falls in bin `j + 1`. */
  lemma BinOfIncreasing(t: seq<real>, j: nat)
    requires forall i, k :: 0 <= i < k < |t| ==> t[i] < t[k]
    requires j < |t|
    ensures Bin(t, t[j]) == j + 1
  {
    assert Sorted(t);
    BinIsBisectRight(t, t[j]);
  }

  /** `d3.scaleThreshold().domain(domain).range(range)` */
  datatype ThresholdScale = ThresholdScale(domain: seq<real>, range: seq<Colour>)

  /** The colour index the scale picks: bisect-right over the first
    * `min(|domain|, |range| - 1)` thresholds. */
  function BinIndex(s: ThresholdScale, x: real): (n: nat)
    requires |s.range| > 0
    ensures n < |s.range| && n <= |s.domain|
  {
    var m := if |s.domain| < |s.range| - 1 then |s.domain| else |s.range| - 1;
    Bin(s.domain[..m], x)
  }

  /** `edColorScale(x)` */
  function ColourOf(s: ThresholdScale, x: real): (c: Colour)
    requires |s.range| > 0
    ensures c in s.range
  {
    s.range[BinIndex(s, x)]
  }

  /** With one more colour than thresholds, as createChoroplethMap builds it, the
    * colour is the palette entry at the count of thresholds at most `x`. */
  lemma ColourOfFullScale(s: ThresholdScale, x: real)
    requires |s.range| == |s.domain| + 1
    ensures BinIndex(s, x) == Bin(s.domain, x)
    ensures ColourOf(s, x) == s.range[Bin(s.domain, x)]
  {
    assert s.domain[..|s.domain|] == s.domain;
  }

  /** The maximum of the extent always lands in the last, darkest bin. */
  lemma MaxInDarkestBin(lo: real, hi: real)
    requires lo <= hi
    ensures Bin(Thresholds(lo, hi), hi) == K - 1
  {
    ThresholdsBounded(lo, hi);
  }

  /** When the range is at least `k` wide, every interval is at least 1, the floored
    * thresholds are strictly increasing and all above the minimum, so the minimum lands
    * in the first, lightest bin. */
  lemma WideRange(lo: real, hi: real)
    requires hi - lo >= K as real
    ensures forall i, j :: 0 <= i < j < K - 1 ==> Thresholds(lo, hi)[i] < Thresholds(lo, hi)[j]
    ensures forall i :: 0 <= i < K - 1 ==> lo < Thresholds(lo, hi)[i]
    ensures Bin(Thresholds(lo, hi), lo) == 0
  {
    var t := Thresholds(lo, hi);
    forall i | 0 <= i < K - 1 ensures Cut(lo, hi, i) + 1.0 <= Cut(lo, hi, i + 1) {
      var w := (hi - lo) / (K as real);
      assert w >= 1.0;
      assert w * ((i + 1) as real) == w * (i as real) + w;
    }
    forall i, j | 0 <= i < j < K - 1 ensures t[i] < t[j] {
      CutMonotone(lo, hi, i + 2, j + 1);
    }
    forall i | 0 <= i < K - 1 ensures lo < t[i] {
      CutMonotone(lo, hi, 1, i + 1);
    }
  }

  /** The minimum lands in the first, lightest bin exactly when the first threshold is above
    * it, that is, when some integer lies in `(min, min + interval]`. */
  lemma MinInLightestBinIff(lo: real, hi: real)
    requires lo <= hi
    ensures Bin(Thresholds(lo, hi), lo) == 0 <==> lo < Floor(Cut(lo, hi, 1))
  {
    var t := Thresholds(lo, hi);
    ThresholdsSorted(lo, hi);
    if lo < t[0] {
      assert forall j :: 0 <= j < |t| ==> t[0] <= t[j];
    }
  }

  /** On a range narrower than one unit the flooring collapses every threshold below the
    * minimum: for the extent [7.5, 7.6] all eight thresholds are 7, so even the
    * minimum is coloured with the darkest entry. */
  lemma NarrowRangeMinimumIsDarkest()
    ensures Thresholds(7.5, 7.6) == seq(K - 1, i => 7.0)
    ensures Bin(Thresholds(7.5, 7.6), 7.5) == K - 1
  {
    forall i | 0 <= i < K - 1 ensures Thresholds(7.5, 7.6)[i] == 7.0 {
      ThresholdAt(7.5, 7.6, i);
      assert 7.5 <= Cut(7.5, 7.6, i + 1) < 8.0;
    }
  }
}
