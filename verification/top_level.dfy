/** The top-level sensors taken straight from `response["data"]`
    (`__get_sensors_data`). */
module TopLevel {
  import opened Wrappers
  import opened Strings
  import opened Json
  import opened Units
  import opened Descriptions
  import opened Sensors

  /** The eleven top-level keys that become sensors. */
  const TopLevelKeys: seq<string> := [
    "sysLoadPwr",
    "sysGridPwr",
    "mpptPwr",
    "bpPwr",
    "online",
    "todayElectricityGeneration",
    "monthElectricityGeneration",
    "yearElectricityGeneration",
    "totalElectricityGeneration",
    "systemName",
    "createTime"
  ]

  function TopLevelRecord(sn: string, key: string, value: JValue): SensorRecord {
    SensorRecord(
      sn + "_" + key, sn, sn + "_" + key, key, value, GetUnit(key), GetDescription(key),
      if key == "mpptPwr" then Some("mdi:solar-power") else None)
  }

  /** One record per allow-listed, non-object field of `data`, filed under
      `{sn}_{key}`. Fails as the source does when `response` has no `data` dict. */
  function SensorsData(sn: string, response: JValue): (r: Result<SensorMap, Error>)
    ensures r.Success? <==>
      response.JObj? && "data" in Keys(response.fields) && Lookup(response.fields, "data").value.JObj?
    ensures r.Success? ==> KeyedById(r.value)
    ensures r.Success? ==> forall id :: id in r.value ==>
      exists i :: 0 <= i < |TopLevelKeys| && id == sn + "_" + TopLevelKeys[i]
  {
    var data :- Get(response, "data");
    var d :- Items(data);
    var keep := (k, v: JValue) => k in TopLevelKeys && !v.JObj?;
    var make := (k, v) => TopLevelRecord(sn, k, v);
    var m := Emit(d, keep, make);
    assert forall id :: id in m ==> exists i :: 0 <= i < |TopLevelKeys| && id == sn + "_" + TopLevelKeys[i] by {
      forall id | id in m
        ensures exists i :: 0 <= i < |TopLevelKeys| && id == sn + "_" + TopLevelKeys[i]
      {
        EmitSource(d, keep, make, id);
        var j :| 0 <= j < |d| && keep(d[j].0, d[j].1) && make(d[j].0, d[j].1).uniqueId == id;
        var i :| 0 <= i < |TopLevelKeys| && d[j].0 == TopLevelKeys[i];
      }
    }
    Success(m)
  }

  /** A key of `data` yields a record exactly when it is allow-listed and its
      value is not an object; the record copies the value verbatim and takes the
      unit, description and icon the helpers give the key. */
  lemma TopLevelSelection(sn: string, response: JValue, d: Fields, k: string)
    requires response.JObj? && Lookup(response.fields, "data") == Some(JObj(d))
    requires DistinctKeys(d)
    ensures SensorsData(sn, response).Success?
    ensures sn + "_" + k in SensorsData(sn, response).value
      <==> k in TopLevelKeys && k in Keys(d) && !Lookup(d, k).value.JObj?
    ensures sn + "_" + k in SensorsData(sn, response).value ==>
      SensorsData(sn, response).value[sn + "_" + k] == TopLevelRecord(sn, k, Lookup(d, k).value)
  {
    var keep := (k', v': JValue) => k' in TopLevelKeys && !v'.JObj?;
    var make := (k', v') => TopLevelRecord(sn, k', v');
    forall k', v' ensures make(k', v').uniqueId == (sn + "_") + k' + "" {
      assert (sn + "_") + k' + "" == sn + "_" + k';
    }
    EmitAt(d, keep, make, sn + "_", "", k);
    assert (sn + "_") + k + "" == sn + "_" + k;
  }
}
