/** Sensor records (the `PowerOceanEndPoint` tuple), the accumulator map they
    are collected in, and the loop every extractor runs over a report's items. */
module Sensors {
  import opened Wrappers
  import opened Strings
  import opened Json
  import opened Units

  datatype SensorRecord = SensorRecord(
    uniqueId: string,
    serial: string,
    name: string,
    friendlyName: string,
    value: JValue,
    unit: Option<Unit>,
    description: string,
    icon: Option<string>)

  /** The dict of sensors, keyed by unique id. */
  type SensorMap = map<string, SensorRecord>

  /** Every record sits under its own unique id. */
  ghost predicate KeyedById(m: SensorMap) {
    forall id :: id in m ==> m[id].uniqueId == id
  }

  /** `dict.update(sensors, data)`: the new ids overwrite, every other existing
      entry stays as it was, and nothing else appears. */
  function Merge(sensors: SensorMap, data: SensorMap): (r: SensorMap)
    ensures r.Keys == sensors.Keys + data.Keys
    ensures forall id :: id in data ==> r[id] == data[id]
    ensures forall id :: id in sensors && id !in data ==> r[id] == sensors[id]
    ensures KeyedById(sensors) && KeyedById(data) ==> KeyedById(r)
  {
    sensors + data
  }

  /** The maps merged one after another, as a run of `dict.update` calls does. */
  function MergeAll(ms: seq<SensorMap>): (r: SensorMap)
    ensures (forall j :: 0 <= j < |ms| ==> KeyedById(ms[j])) ==> KeyedById(r)
    decreases |ms|
  {
    if |ms| == 0 then map[]
    else
      var init := ms[..|ms| - 1];
      assert forall j :: 0 <= j < |init| ==> init[j] == ms[j];
      Merge(MergeAll(init), ms[|ms| - 1])
  }

  /** Every id of the merge comes from one of the maps. */
  lemma {:induction false} MergeAllSource(ms: seq<SensorMap>, id: string)
    requires id in MergeAll(ms)
    ensures exists j :: 0 <= j < |ms| && id in ms[j]
    decreases |ms|
  {
    var n := |ms|;
    if id !in ms[n - 1] {
      MergeAllSource(ms[..n - 1], id);
      var j :| 0 <= j < n - 1 && id in ms[..n - 1][j];
      assert ms[..n - 1][j] == ms[j];
    }
  }

  /** An id no map holds is not in the merge. */
  lemma MergeAllLacks(ms: seq<SensorMap>, id: string)
    requires forall j :: 0 <= j < |ms| ==> id !in ms[j]
    ensures id !in MergeAll(ms)
  {
    if id in MergeAll(ms) {
      MergeAllSource(ms, id);
    }
  }

  /** A prefix every map's ids carry is carried by the merge's ids too. */
  lemma MergeAllPrefixed(ms: seq<SensorMap>, pre: string)
    requires forall j, id :: 0 <= j < |ms| && id in ms[j] ==> StartsWith(id, pre)
    ensures forall id :: id in MergeAll(ms) ==> StartsWith(id, pre)
  {
    forall id | id in MergeAll(ms)
      ensures StartsWith(id, pre)
    {
      MergeAllSource(ms, id);
    }
  }

  /** An id that only the `i`-th map holds comes through the merges with that
      map's entry: no other map can shadow it. */
  lemma {:induction false} MergeAllOwner(ms: seq<SensorMap>, i: nat, id: string)
    requires i < |ms|
    requires forall j :: 0 <= j < |ms| && j != i ==> id !in ms[j]
    ensures id in MergeAll(ms) <==> id in ms[i]
    ensures id in MergeAll(ms) ==> MergeAll(ms)[id] == ms[i][id]
    decreases |ms|
  {
    var init := ms[..|ms| - 1];
    var last := ms[|ms| - 1];
    var prev := MergeAll(init);
    assert MergeAll(ms) == Merge(prev, last);
    if i < |ms| - 1 {
      assert id !in last;
      assert init[i] == ms[i];
      forall j | 0 <= j < |init| && j != i
        ensures id !in init[j]
      {
        assert init[j] == ms[j];
      }
      MergeAllOwner(init, i, id);
    } else {
      forall j | 0 <= j < |init|
        ensures id !in init[j]
      {
        assert init[j] == ms[j];
      }
      if id in prev {
        MergeAllSource(init, id);
      }
    }
  }

  /** Runs `step` over `keys` in order, numbering them from 1; the first key
      whose step fails decides the error. */
  function CollectMaps(keys: seq<string>, step: (string, nat) -> Result<SensorMap, Error>)
    : (r: Result<seq<SensorMap>, Error>)
    ensures r.Success? <==> forall j :: 0 <= j < |keys| ==> step(keys[j], j + 1).Success?
    ensures r.Success? ==> |r.value| == |keys|
    decreases |keys|
  {
    if |keys| == 0 then Success([])
    else
      assert forall j :: 0 <= j < |keys| - 1 ==> keys[..|keys| - 1][j] == keys[j];
      var earlier :- CollectMaps(keys[..|keys| - 1], step);
      var last :- step(keys[|keys| - 1], |keys|);
      Success(earlier + [last])
  }

  /** The `j`-th map collected is the step's result for the `j`-th key. */
  lemma {:induction false} CollectMapsAt(keys: seq<string>, step: (string, nat) -> Result<SensorMap, Error>,
                                         j: nat)
    requires CollectMaps(keys, step).Success?
    requires j < |keys|
    ensures step(keys[j], j + 1).Success?
    ensures CollectMaps(keys, step).value[j] == step(keys[j], j + 1).value
    decreases |keys|
  {
    var n := |keys|;
    if j < n - 1 {
      CollectMapsAt(keys[..n - 1], step, j);
      assert keys[..n - 1][j] == keys[j];
    }
  }

  /** A map whose ids no other map of the run shares comes through the merges
      untouched. */
  lemma MergeAllKeeps(ms: seq<SensorMap>, i: nat)
    requires i < |ms|
    requires forall j, id :: 0 <= j < |ms| && j != i && id in ms[i] ==> id !in ms[j]
    ensures forall id :: id in ms[i] ==> id in MergeAll(ms) && MergeAll(ms)[id] == ms[i][id]
  {
    forall id | id in ms[i]
      ensures id in MergeAll(ms) && MergeAll(ms)[id] == ms[i][id]
    {
      MergeAllOwner(ms, i, id);
    }
  }

  /** The extraction loop `for key, value in d.items(): if keep: data[uid] = record`,
      run over the items in order, so a later item with the same id wins. */
  function Emit(fields: Fields, keep: (string, JValue) -> bool,
                make: (string, JValue) -> SensorRecord): (m: SensorMap)
    ensures KeyedById(m)
    decreases |fields|
  {
    if |fields| == 0 then map[]
    else
      var m := Emit(fields[..|fields| - 1], keep, make);
      var (k, v) := fields[|fields| - 1];
      if keep(k, v) then var r := make(k, v); m[r.uniqueId := r] else m
  }

  /** Every id the loop emits was made from an item it kept. */
  lemma {:induction false} EmitSource(fields: Fields, keep: (string, JValue) -> bool,
                                      make: (string, JValue) -> SensorRecord, id: string)
    requires id in Emit(fields, keep, make)
    ensures exists i :: 0 <= i < |fields| && keep(fields[i].0, fields[i].1) && make(fields[i].0, fields[i].1).uniqueId == id
    decreases |fields|
  {
    var init := fields[..|fields| - 1];
    var (k, v) := fields[|fields| - 1];
    if keep(k, v) && make(k, v).uniqueId == id {
      assert fields[|fields| - 1] == (k, v);
    } else {
      EmitSource(init, keep, make, id);
      var i :| 0 <= i < |init| && keep(init[i].0, init[i].1) && make(init[i].0, init[i].1).uniqueId == id;
      assert init[i] == fields[i];
    }
  }

  /** When ids are a key wrapped in a fixed prefix and suffix, the loop emits a
      key's id exactly when the key is in the dict and kept, and the record there
      is the one made from that key's value. */
  lemma {:induction false} EmitAt(fields: Fields, keep: (string, JValue) -> bool,
                                  make: (string, JValue) -> SensorRecord,
                                  pre: string, suf: string, k: string)
    requires DistinctKeys(fields)
    requires forall k', v' :: make(k', v').uniqueId == pre + k' + suf
    ensures pre + k + suf in Emit(fields, keep, make)
      <==> k in Keys(fields) && keep(k, Lookup(fields, k).value)
    ensures pre + k + suf in Emit(fields, keep, make)
      ==> Emit(fields, keep, make)[pre + k + suf] == make(k, Lookup(fields, k).value)
    decreases |fields|
  {
    if |fields| > 0 {
      var init := fields[..|fields| - 1];
      var (k0, v0) := fields[|fields| - 1];
      assert Keys(fields) == Keys(init) + [k0];
      EmitAt(init, keep, make, pre, suf, k);
      if k != k0 {
        if pre + k0 + suf == pre + k + suf {
          AffixInjective(pre, k0, k, suf);
        }
      } else {
        assert k !in Keys(init);
      }
    }
  }

  /** With ids of the form `pre + key + suf`, every id the loop emits starts with `pre`. */
  lemma EmitPrefixed(fields: Fields, keep: (string, JValue) -> bool,
                     make: (string, JValue) -> SensorRecord, pre: string, suf: string)
    requires forall k, v :: make(k, v).uniqueId == pre + k + suf
    ensures forall id :: id in Emit(fields, keep, make) ==> StartsWith(id, pre)
  {
    forall id | id in Emit(fields, keep, make)
      ensures StartsWith(id, pre)
    {
      EmitSource(fields, keep, make, id);
      var i :| 0 <= i < |fields| && keep(fields[i].0, fields[i].1)
        && make(fields[i].0, fields[i].1).uniqueId == id;
      assert (pre + fields[i].0 + suf)[..|pre|] == pre;
    }
  }
}
