/** The FIPS join of createChoroplethMap: every county feature gets, in place,
  * the first education record whose `fips` equals the feature's `id`. */
module Join {
  import opened Wrappers

  /** One record of the education dataset. */
  datatype CountyStatistic = CountyStatistic(fips: int, state: string, areaName: string, bachelorsOrHigher: real)

  /** A county feature decoded from the topology. Its geometry is not modelled;
    * `data` is the one property the join writes. */
  class County {
    const id: int
    var data: Option<CountyStatistic>

    constructor (id: int)
      ensures this.id == id && data == None
    {
      this.id := id;
      data := None;
    }
  }

  /** `records.filter(r => r.fips === id)`: the records for `id`, in dataset order. */
  function Matching(records: seq<CountyStatistic>, id: int): (m: seq<CountyStatistic>)
    ensures |m| <= |records|
    ensures forall x :: x in m ==> x in records && x.fips == id
    ensures forall x :: x in records && x.fips == id ==> x in m
  {
    if records == [] then []
    else if records[0].fips == id then [records[0]] + Matching(records[1..], id)
    else Matching(records[1..], id)
  }

  /** `records.filter(...)[0]`: the first matching record, `None` (undefined) when there is none. */
  function FirstMatch(records: seq<CountyStatistic>, id: int): (r: Option<CountyStatistic>)
    ensures r.Some? ==> r.value in records && r.value.fips == id
    ensures r.None? <==> forall x :: x in records ==> x.fips != id
  {
    var m := Matching(records, id);
    if |m| > 0 then Some(m[0]) else None
  }

  /** The first match is absent exactly when no record carries the id, and
    * otherwise it is the record at the first index whose fips equals the id. */
  lemma {:induction false} FirstMatchIsFirst(records: seq<CountyStatistic>, id: int)
    ensures FirstMatch(records, id).None? <==> forall j :: 0 <= j < |records| ==> records[j].fips != id
    ensures FirstMatch(records, id).Some? ==>
      exists j :: 0 <= j < |records| && records[j] == FirstMatch(records, id).value &&
        records[j].fips == id && forall k :: 0 <= k < j ==> records[k].fips != id
  {
    if records != [] {
      FirstMatchIsFirst(records[1..], id);
      if records[0].fips != id {
        assert Matching(records, id) == Matching(records[1..], id);
        if FirstMatch(records, id).Some? {
          var j :| 0 <= j < |records[1..]| && records[1..][j] == FirstMatch(records[1..], id).value &&
            records[1..][j].fips == id && forall k :: 0 <= k < j ==> records[1..][k].fips != id;
          assert records[j + 1] == records[1..][j];
          forall k | 0 <= k < j + 1 ensures records[k].fips != id {
            if k > 0 { assert records[k] == records[1..][k - 1]; }
          }
        } else {
          forall j | 0 <= j < |records| ensures records[j].fips != id {
            if j > 0 { assert records[j] == records[1..][j - 1]; }
          }
        }
      } else {
        assert records[0] == FirstMatch(records, id).value;
      }
    }
  }

  /** `counties.features.map(obj => { obj.data = ...; return obj; })`: writes `data` on each
    * feature object in order and returns a new list holding the same objects. */
  method JoinCounties(features: seq<County>, records: seq<CountyStatistic>) returns (joined: seq<County>)
    modifies features
    ensures joined == features
    ensures forall i :: 0 <= i < |features| ==> features[i].data == FirstMatch(records, features[i].id)
  {
    joined := [];
    var i := 0;
    while i < |features|
      invariant 0 <= i <= |features|
      invariant joined == features[..i]
      invariant forall j :: 0 <= j < i ==> features[j].data == FirstMatch(records, features[j].id)
    {
      var obj := features[i];
      obj.data := FirstMatch(records, obj.id);
      joined := joined + [obj];
      i := i + 1;
    }
  }
}
