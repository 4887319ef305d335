/** The whole extraction for one response (`_get_sensors`): discovery, the
    top-level readings, then the master's and the slave's reports in turn. */
module Dispatch {
  import opened Wrappers
  import opened Strings
  import opened Json
  import opened Sensors
  import opened TopLevel
  import opened Topology
  import opened EmsChange
  import opened Battery
  import opened Heartbeat

  const MasterRole: string := "_master"
  const SlaveRole: string := "_slave"

  /** Every id an inverter's reports emit starts with `{sn}_JTS1_`. */
  function ReportsPrefix(sn: string): string {
    sn + "_JTS1_"
  }

  /** Every report of an inverter reads: the change report is a dict, and the
      battery and heartbeat reports read. */
  ghost predicate InverterReads(inverter: JValue, decode: string -> Option<JValue>) {
    && Get(inverter, EmsChangeReport).Success?
    && Get(inverter, EmsChangeReport).value.JObj?
    && BatteryReads(inverter, decode)
    && HeartbeatReads(inverter)
  }

  /** One inverter's reports, change report first, merged into `sensors` in turn. */
  function InverterSensors(inverter: JValue, sn: string, role: string, decode: string -> Option<JValue>,
                           sensors: SensorMap): (r: Result<SensorMap, Error>)
    ensures r.Success? && KeyedById(sensors) ==> KeyedById(r.value)
  {
    var s1 :- EmsChangeSensors(inverter, sn, role, sensors);
    var s2 :- BatterySensors(inverter, sn, role, decode, s1);
    HeartbeatSensors(inverter, sn, role, s2)
  }

  /** The sensors of a response: `None` unless discovery found exactly two
      inverters, otherwise the top-level readings followed by the master's and
      then the slave's reports. */
  function GetSensors(sn: string, response: JValue, decode: string -> Option<JValue>)
    : (r: Result<Option<SensorMap>, Error>)
    ensures SerialNumbers(response).Failure? ==> r.Failure?
    ensures r.Success? ==> SerialNumbers(response).Success?
    ensures r.Success? ==>
      (r.value.Some? <==> SerialNumbers(response).value.Parallel? && SerialNumbers(response).value.count == 2)
    ensures SerialNumbers(response).Success?
      && !(SerialNumbers(response).value.Parallel? && SerialNumbers(response).value.count == 2)
      ==> r == Success(None)
    ensures r.Success? && r.value.Some? ==> SensorsData(sn, response).Success?
    ensures r.Success? && r.value.Some? ==> KeyedById(r.value.value)
  {
    var topology :- SerialNumbers(response);
    if topology.Parallel? && topology.count == 2 then
      var top :- SensorsData(sn, response);
      var afterMaster :- InverterSensors(topology.masterData, topology.masterSn, MasterRole, decode, top);
      var all :- InverterSensors(topology.slaveData, topology.slaveSn, SlaveRole, decode, afterMaster);
      Success(Some(all))
    else
      Success(None)
  }

  /** An inverter's three steps succeed exactly when its reports read, whatever
      `sensors` already holds. */
  lemma InverterSensorsSucceeds(inverter: JValue, sn: string, role: string, decode: string -> Option<JValue>,
                                sensors: SensorMap)
    ensures InverterSensors(inverter, sn, role, decode, sensors).Success? <==> InverterReads(inverter, decode)
  {
  }

  /** When discovery finds two inverters, the sensors come back exactly when
      both inverters' reports read: `data` is a dict once discovery succeeds, so
      the top-level readings never fail there. */
  lemma GetSensorsSucceeds(sn: string, response: JValue, decode: string -> Option<JValue>)
    requires SerialNumbers(response).Success?
    requires SerialNumbers(response).value.Parallel? && SerialNumbers(response).value.count == 2
    ensures GetSensors(sn, response, decode).Success? <==>
      InverterReads(SerialNumbers(response).value.masterData, decode)
      && InverterReads(SerialNumbers(response).value.slaveData, decode)
  {
    var t := SerialNumbers(response).value;
    DiscoveryReadsData(sn, response);
    var top := SensorsData(sn, response).value;
    InverterSensorsSucceeds(t.masterData, t.masterSn, MasterRole, decode, top);
    GetSensorsSteps(sn, response, decode);
    if AfterMaster(sn, response, decode).Success? {
      InverterSensorsSucceeds(t.slaveData, t.slaveSn, SlaveRole, decode, AfterMaster(sn, response, decode).value);
    }
  }

  /** With two inverters, the request follows the master's step and then the
      slave's. */
  lemma GetSensorsSteps(sn: string, response: JValue, decode: string -> Option<JValue>)
    requires SerialNumbers(response).Success?
    requires SerialNumbers(response).value.Parallel? && SerialNumbers(response).value.count == 2
    requires SensorsData(sn, response).Success?
    ensures AfterMaster(sn, response, decode).Failure? ==> GetSensors(sn, response, decode).Failure?
    ensures AfterMaster(sn, response, decode).Success? ==>
      (GetSensors(sn, response, decode).Success? <==>
       InverterSensors(SerialNumbers(response).value.slaveData, SerialNumbers(response).value.slaveSn, SlaveRole,
                       decode, AfterMaster(sn, response, decode).value).Success?)
  {
  }

  /** Discovery succeeds only on a response whose `data` is a dict, so the
      top-level readings succeed too. */
  lemma DiscoveryReadsData(sn: string, response: JValue)
    requires SerialNumbers(response).Success?
    ensures SensorsData(sn, response).Success?
  {
    var data := Get(response, "data").value;
    assert Get(data, "parallel").Success?;
  }

  /** The sensors once the master's reports are in. */
  function AfterMaster(sn: string, response: JValue, decode: string -> Option<JValue>): Result<SensorMap, Error>
    requires SerialNumbers(response).Success? && SerialNumbers(response).value.Parallel?
  {
    var t := SerialNumbers(response).value;
    var top :- SensorsData(sn, response);
    InverterSensors(t.masterData, t.masterSn, MasterRole, decode, top)
  }

  // ---- Inputs and outcomes ----

  /** An empty `parallel` yields no sensors. The source's branch for this case
      (ecoflow.py:195) is not valid Python; this is the model's reading of it, in
      which discovery finds no inverter and the request reports nothing. */
  lemma NoInvertersGiveNone(sn: string, response: JValue, decode: string -> Option<JValue>, p: JValue)
    requires ParallelOf(response) == Some(p) && Len(p) == Success(0)
    ensures GetSensors(sn, response, decode) == Success(None)
  {
  }

  /** Three inverters yield no sensors. */
  lemma ThreeInvertersGiveNone(sn: string, response: JValue, decode: string -> Option<JValue>, p: Fields)
    requires ParallelOf(response) == Some(JObj(p))
    requires |p| == 3 && p[0].1.JObj? && p[1].1.JObj? && p[2].1.JObj?
    ensures GetSensors(sn, response, decode) == Success(None)
  {
    assert AcceptedParallel(JObj(p));
  }

  /** Two inverters whose reports read yield sensors. */
  lemma TwoInvertersGiveSensors(sn: string, response: JValue, decode: string -> Option<JValue>, p: Fields)
    requires ParallelOf(response) == Some(JObj(p))
    requires |p| == 2 && DistinctKeys(p) && p[0].1.JObj? && p[1].1.JObj?
    requires InverterReads(p[0].1, decode) && InverterReads(p[1].1, decode)
    ensures GetSensors(sn, response, decode).Success?
    ensures GetSensors(sn, response, decode).value.Some?
  {
    TwoInverters(response, p);
    GetSensorsSucceeds(sn, response, decode);
  }

  // ---- What the merges keep ----

  /** No top-level key starts with the `J` that opens every report name. */
  lemma TopLevelKeysNoReportName()
    ensures forall i :: 0 <= i < |TopLevelKeys| ==> |TopLevelKeys[i]| > 0 && TopLevelKeys[i][0] != 'J'
  {
  }

  lemma EmsChangePrefixExtends(sn: string)
    ensures EmsChangePrefix(sn) == ReportsPrefix(sn) + "EMS_CHANGE_REPORT_"
  {
    assert EmsChangeReport == "JTS1_" + "EMS_CHANGE_REPORT";
  }

  lemma BatteryPrefixExtends(sn: string)
    ensures BatteryPrefix(sn) == ReportsPrefix(sn) + "BP_STA_REPORT_"
  {
    assert BatteryReport == "JTS1_" + "BP_STA_REPORT";
  }

  lemma HeartbeatPrefixExtends(sn: string)
    ensures HeartbeatPrefix(sn) == ReportsPrefix(sn) + "EMS_HEARTBEAT_"
  {
    assert HeartbeatReport == "JTS1_" + "EMS_HEARTBEAT";
  }

  /** An inverter's reports touch only ids under `{sn}_JTS1_`. */
  lemma InverterKeepsOthers(inverter: JValue, sn: string, role: string, decode: string -> Option<JValue>,
                            sensors: SensorMap)
    requires InverterSensors(inverter, sn, role, decode, sensors).Success?
    ensures forall id :: id in sensors && !StartsWith(id, ReportsPrefix(sn)) ==>
      id in InverterSensors(inverter, sn, role, decode, sensors).value
      && InverterSensors(inverter, sn, role, decode, sensors).value[id] == sensors[id]
    ensures forall id :: id in InverterSensors(inverter, sn, role, decode, sensors).value ==>
      id in sensors || StartsWith(id, ReportsPrefix(sn))
  {
    var s1 := EmsChangeSensors(inverter, sn, role, sensors).value;
    var s2 := BatterySensors(inverter, sn, role, decode, s1).value;
    EmsChangeKeepsOthers(inverter, sn, role, sensors);
    BatteryKeepsOthers(inverter, sn, role, decode, s1);
    HeartbeatKeepsOthers(inverter, sn, role, s2);
    EmsChangePrefixExtends(sn);
    BatteryPrefixExtends(sn);
    HeartbeatPrefixExtends(sn);
    forall id | StartsWith(id, EmsChangePrefix(sn)) ensures StartsWith(id, ReportsPrefix(sn)) {
      StartsWithShorter(id, ReportsPrefix(sn), "EMS_CHANGE_REPORT_");
    }
    forall id | StartsWith(id, BatteryPrefix(sn)) ensures StartsWith(id, ReportsPrefix(sn)) {
      StartsWithShorter(id, ReportsPrefix(sn), "BP_STA_REPORT_");
    }
    forall id | StartsWith(id, HeartbeatPrefix(sn)) ensures StartsWith(id, ReportsPrefix(sn)) {
      StartsWithShorter(id, ReportsPrefix(sn), "EMS_HEARTBEAT_");
    }
  }

  /** No id lies under two of one inverter's report prefixes: after `{sn}_JTS1_`
      they go on with `EMS_C`, `B` and `EMS_H`. */
  lemma OwnPrefixesSeparate(id: string, sn: string)
    ensures StartsWith(id, EmsChangePrefix(sn)) ==> !StartsWith(id, BatteryPrefix(sn))
    ensures StartsWith(id, EmsChangePrefix(sn)) ==> !StartsWith(id, HeartbeatPrefix(sn))
    ensures StartsWith(id, BatteryPrefix(sn)) ==> !StartsWith(id, HeartbeatPrefix(sn))
  {
    EmsChangePrefixExtends(sn);
    BatteryPrefixExtends(sn);
    HeartbeatPrefixExtends(sn);
    var n := |ReportsPrefix(sn)|;
    if StartsWith(id, EmsChangePrefix(sn)) {
      assert id[n] == EmsChangePrefix(sn)[n] == 'E';
      assert id[n + 4] == EmsChangePrefix(sn)[n + 4] == 'C';
    }
    if StartsWith(id, BatteryPrefix(sn)) {
      assert id[n] == BatteryPrefix(sn)[n] == 'B';
    }
    if StartsWith(id, HeartbeatPrefix(sn)) {
      assert id[n] == HeartbeatPrefix(sn)[n] == 'E';
      assert id[n + 4] == HeartbeatPrefix(sn)[n + 4] == 'H';
    }
  }

  /** Within one inverter the later reports leave the earlier ones' records in
      place: every record of the change report and of the battery report reaches
      the step's result unchanged. */
  lemma InverterKeepsOwnReports(inverter: JValue, sn: string, role: string, decode: string -> Option<JValue>,
                                sensors: SensorMap)
    requires InverterSensors(inverter, sn, role, decode, sensors).Success?
    ensures EmsChangeData(inverter, sn, role).Success?
    ensures BatteryData(inverter, sn, role, decode).Success?
    ensures forall id :: id in EmsChangeData(inverter, sn, role).value ==>
      id in InverterSensors(inverter, sn, role, decode, sensors).value
      && InverterSensors(inverter, sn, role, decode, sensors).value[id] == EmsChangeData(inverter, sn, role).value[id]
    ensures forall id :: id in BatteryData(inverter, sn, role, decode).value ==>
      id in InverterSensors(inverter, sn, role, decode, sensors).value
      && InverterSensors(inverter, sn, role, decode, sensors).value[id] == BatteryData(inverter, sn, role, decode).value[id]
  {
    var s1 := EmsChangeSensors(inverter, sn, role, sensors).value;
    var s2 := BatterySensors(inverter, sn, role, decode, s1).value;
    var all := InverterSensors(inverter, sn, role, decode, sensors).value;
    var ems := EmsChangeData(inverter, sn, role).value;
    var bat := BatteryData(inverter, sn, role, decode).value;
    EmsChangeKeepsOthers(inverter, sn, role, map[]);
    BatteryKeepsOthers(inverter, sn, role, decode, map[]);
    BatteryKeepsOthers(inverter, sn, role, decode, s1);
    HeartbeatKeepsOthers(inverter, sn, role, s2);
    forall id | id in ems
      ensures id in all && all[id] == ems[id]
    {
      assert id in EmsChangeSensors(inverter, sn, role, map[]).value;
      OwnPrefixesSeparate(id, sn);
    }
    forall id | id in bat
      ensures id in all && all[id] == bat[id]
    {
      assert id in BatterySensors(inverter, sn, role, decode, map[]).value;
      OwnPrefixesSeparate(id, sn);
    }
  }

  /** An id under `{sn}_` and under the report prefix of `isn` names the same
      serial and continues with the `J` of `JTS1_`. */
  lemma ReportIdHead(id: string, sn: string, isn: string)
    requires NoUnderscore(sn) && NoUnderscore(isn)
    requires StartsWith(id, sn + "_") && StartsWith(id, ReportsPrefix(isn))
    ensures sn == isn && |sn| + 1 < |id| && id[|sn| + 1] == 'J'
  {
    assert ReportsPrefix(isn) == (isn + "_") + "JTS1_";
    StartsWithShorter(id, isn + "_", "JTS1_");
    SerialsSeparate(id, sn, isn);
    assert id[|sn| + 1] == ReportsPrefix(isn)[|isn| + 1];
  }

  /** A top-level id `{sn}_{key}` is no report id of any inverter, when the
      serials hold no underscore and the key does not start with `J`. */
  lemma TopLevelIdIsNoReportId(sn: string, key: string, isn: string)
    requires NoUnderscore(sn) && NoUnderscore(isn)
    requires |key| > 0 && key[0] != 'J'
    ensures !StartsWith(sn + "_" + key, ReportsPrefix(isn))
  {
    var id := sn + "_" + key;
    assert StartsWith(id, sn + "_") && id[|sn| + 1] == key[0];
    if StartsWith(id, ReportsPrefix(isn)) {
      ReportIdHead(id, sn, isn);
    }
  }

  /** No top-level reading lies under an inverter's report prefix. */
  lemma TopLevelIdsAreNoReportIds(sn: string, response: JValue, isn: string)
    requires SensorsData(sn, response).Success?
    requires NoUnderscore(sn) && NoUnderscore(isn)
    ensures forall id :: id in SensorsData(sn, response).value ==> !StartsWith(id, ReportsPrefix(isn))
  {
    TopLevelKeysNoReportName();
    forall id | id in SensorsData(sn, response).value
      ensures !StartsWith(id, ReportsPrefix(isn))
    {
      var i :| 0 <= i < |TopLevelKeys| && id == sn + "_" + TopLevelKeys[i];
      TopLevelIdIsNoReportId(sn, TopLevelKeys[i], isn);
    }
  }

  /** The top-level readings survive both inverters' reports. */
  lemma TopLevelSurvives(sn: string, response: JValue, decode: string -> Option<JValue>)
    requires GetSensors(sn, response, decode).Success? && GetSensors(sn, response, decode).value.Some?
    requires NoUnderscore(sn)
    requires NoUnderscore(SerialNumbers(response).value.masterSn)
    requires NoUnderscore(SerialNumbers(response).value.slaveSn)
    ensures forall id :: id in SensorsData(sn, response).value ==>
      id in GetSensors(sn, response, decode).value.value
      && GetSensors(sn, response, decode).value.value[id] == SensorsData(sn, response).value[id]
  {
    var t := SerialNumbers(response).value;
    var top := SensorsData(sn, response).value;
    var afterMaster := AfterMaster(sn, response, decode).value;
    InverterKeepsOthers(t.masterData, t.masterSn, MasterRole, decode, top);
    InverterKeepsOthers(t.slaveData, t.slaveSn, SlaveRole, decode, afterMaster);
    TopLevelIdsAreNoReportIds(sn, response, t.masterSn);
    TopLevelIdsAreNoReportIds(sn, response, t.slaveSn);
  }

  /** The slave's reports never overwrite the master's records when the two
      serials differ and hold no underscore. */
  lemma MasterSurvivesSlave(sn: string, response: JValue, decode: string -> Option<JValue>)
    requires GetSensors(sn, response, decode).Success? && GetSensors(sn, response, decode).value.Some?
    requires NoUnderscore(SerialNumbers(response).value.masterSn)
    requires NoUnderscore(SerialNumbers(response).value.slaveSn)
    requires SerialNumbers(response).value.masterSn != SerialNumbers(response).value.slaveSn
    ensures AfterMaster(sn, response, decode).Success?
    ensures forall id ::
      (id in AfterMaster(sn, response, decode).value && StartsWith(id, ReportsPrefix(SerialNumbers(response).value.masterSn)))
      ==> (id in GetSensors(sn, response, decode).value.value
      && GetSensors(sn, response, decode).value.value[id] == AfterMaster(sn, response, decode).value[id])
  {
    var t := SerialNumbers(response).value;
    var afterMaster := AfterMaster(sn, response, decode).value;
    InverterKeepsOthers(t.slaveData, t.slaveSn, SlaveRole, decode, afterMaster);
    forall id | StartsWith(id, ReportsPrefix(t.masterSn))
      ensures !StartsWith(id, ReportsPrefix(t.slaveSn))
    {
      ReportPrefixesSeparate(id, t.masterSn, t.slaveSn);
    }
  }

  /** No id lies under the report prefixes of two serials that differ and hold
      no underscore. */
  lemma ReportPrefixesSeparate(id: string, sn1: string, sn2: string)
    requires NoUnderscore(sn1) && NoUnderscore(sn2) && sn1 != sn2
    requires StartsWith(id, ReportsPrefix(sn1))
    ensures !StartsWith(id, ReportsPrefix(sn2))
  {
    assert ReportsPrefix(sn1) == (sn1 + "_") + "JTS1_";
    assert ReportsPrefix(sn2) == (sn2 + "_") + "JTS1_";
    StartsWithShorter(id, sn1 + "_", "JTS1_");
    if StartsWith(id, ReportsPrefix(sn2)) {
      StartsWithShorter(id, sn2 + "_", "JTS1_");
      SerialsSeparate(id, sn1, sn2);
    }
  }
}
