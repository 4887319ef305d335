/** Sensors from an inverter's `JTS1_EMS_HEARTBEAT` (`_get_sensors_ems_heartbeat`):
    a fixed selection of fields, every field of the three AC phases, every field
    of every PV string, and the total power of all strings. */
module Heartbeat {
  import opened Wrappers
  import opened Strings
  import opened Json
  import opened Units
  import opened Descriptions
  import opened Sensors

  const HeartbeatReport: string := "JTS1_EMS_HEARTBEAT"

  /** The fields of the report itself that become sensors. */
  const HeartbeatKeys: seq<string> := [
    "bpRemainWatth",
    "emsBpAliveNum",
    "emsBpPower",
    "pcsActPwr",
    "pcsMeterPower"
  ]

  const Phases: seq<string> := ["pcsAPhase", "pcsBPhase", "pcsCPhase"]

  /** Every id of this report: `{sn}_JTS1_EMS_HEARTBEAT_{head}_{rest}`, where the
      head is a report key, a phase, or `mpptHeartBeat` for the PV strings. */
  function HeartbeatId(sn: string, head: string, rest: string): string {
    HeartbeatPrefix(sn) + head + "_" + rest
  }

  function HeartbeatPrefix(sn: string): string {
    sn + "_" + HeartbeatReport + "_"
  }

  function FixedId(sn: string, role: string, key: string): string {
    HeartbeatId(sn, key, role)
  }

  function PhaseId(sn: string, role: string, phase: string, key: string): string {
    HeartbeatId(sn, phase, key + "_" + role + "_" + role)
  }

  function StringId(sn: string, i: nat, key: string): string {
    HeartbeatId(sn, "mpptHeartBeat", StringLabel(i) + "_" + key)
  }

  function FixedRecord(sn: string, role: string, key: string, value: JValue): SensorRecord {
    SensorRecord(
      FixedId(sn, role, key), sn, sn + "_" + key + "_" + role, key + "_" + role,
      value, GetUnit(key), GetDescription(key), None)
  }

  function PhaseRecord(sn: string, role: string, phase: string, key: string, value: JValue): SensorRecord {
    var name := phase + "_" + key + "_" + role;
    SensorRecord(
      PhaseId(sn, role, phase, key), sn, sn + "_" + name + "_" + role,
      name + "_" + role, value, GetUnit(key), GetDescription(key), None)
  }

  /** `mpptPv{i}`, the label of the `i`-th PV string (counting from 1). */
  function StringLabel(i: nat): string {
    "mpptPv" + NatToString(i)
  }

  function StringIcon(key: string): Option<string> {
    var icon := if EndsWith(key, "amp") then Some("mdi:current-dc") else None;
    if EndsWith(key, "pwr") then Some("mdi:solar-power") else icon
  }

  function StringRecord(sn: string, role: string, i: nat, key: string, value: JValue): SensorRecord {
    var tag := StringLabel(i);
    SensorRecord(
      StringId(sn, i, key), sn, sn + "_" + tag + "_" + key + "_" + role,
      tag + "_" + key + "_" + role, value, GetUnit(key), GetDescription(key), StringIcon(key))
  }

  function TotalId(sn: string): string {
    HeartbeatId(sn, "mpptHeartBeat", "mpptPv_pwrTotal")
  }

  function TotalRecord(sn: string, role: string, total: real, unit: Option<Unit>): SensorRecord {
    SensorRecord(
      TotalId(sn), sn, sn + "_mpptPv_pwrTotal_" + role, "mpptPv_pwrTotal_" + role,
      JNum(total), unit, "Solarertrag aller Strings", Some("mdi:solar-power"))
  }

  /** `d[phase].items()`. */
  function PhaseFields(report: JValue, phase: string): (r: Result<Fields, Error>)
    ensures r.Success? <==> Get(report, phase).Success? && Get(report, phase).value.JObj?
    ensures r.Success? ==> r.value == Get(report, phase).value.fields
  {
    var p :- Get(report, phase);
    Items(p)
  }

  /** What one string adds to `mpptPv_sum`: every `pwr` item, in order. A value
      Python cannot add to a float fails. */
  function StringPower(fields: Fields): (r: Result<real, Error>)
    ensures r.Success? <==> forall i :: 0 <= i < |fields| && fields[i].0 == "pwr" ==> NumOf(fields[i].1).Some?
    decreases |fields|
  {
    if |fields| == 0 then Success(0.0)
    else
      var rest :- StringPower(fields[..|fields| - 1]);
      var (k, v) := fields[|fields| - 1];
      if k != "pwr" then Success(rest)
      else match NumOf(v)
        case None => Failure(TypeError)
        case Some(x) => Success(rest + x)
  }

  /** Entry `i` of `mpptPv` reads: it is a dict whose `pwr` values are numbers. */
  ghost predicate StringReads(pv: JValue, i: nat) {
    && Index(pv, i).Success?
    && Index(pv, i).value.JObj?
    && StringPower(Index(pv, i).value.fields).Success?
  }

  /** The first `n` strings' items, read one string at a time, with the running
      power sum. */
  function MpptStrings(pv: JValue, n: nat): (r: Result<(seq<Fields>, real), Error>)
    ensures r.Success? <==> forall i :: 0 <= i < n ==> StringReads(pv, i)
    ensures r.Success? ==> |r.value.0| == n
    ensures r.Success? ==> forall i :: 0 <= i < n ==> Index(pv, i) == Success(JObj(r.value.0[i]))
    decreases n
  {
    if n == 0 then Success(([], 0.0))
    else
      var earlier :- MpptStrings(pv, n - 1);
      assert StringReads(pv, n - 1) ==> Index(pv, n - 1).Success?;
      var item :- Index(pv, n - 1);
      var fields :- Items(item);
      var power :- StringPower(fields);
      Success((earlier.0 + [fields], earlier.1 + power))
  }

  /** The strings' records: the records of each string in turn, later ones
      written over earlier ones. */
  function StringsData(sn: string, role: string, strings: seq<Fields>): (m: SensorMap)
    ensures KeyedById(m)
  {
    var ms := StringMaps(sn, role, strings);
    assert forall j :: 0 <= j < |ms| ==> KeyedById(ms[j]) by {
      forall j | 0 <= j < |ms| ensures KeyedById(ms[j]) {
        StringMapsAt(sn, role, strings, j);
      }
    }
    MergeAll(ms)
  }

  /** The records of each string on its own, the first string labelled 1. */
  function StringMaps(sn: string, role: string, strings: seq<Fields>): (ms: seq<SensorMap>)
    ensures |ms| == |strings|
    decreases |strings|
  {
    if |strings| == 0 then []
    else
      var n := |strings|;
      StringMaps(sn, role, strings[..n - 1]) + [StringData(sn, role, n, strings[n - 1])]
  }

  /** Entry `j` of the list is the records of string `j`, labelled `j + 1`. */
  lemma {:induction false} StringMapsAt(sn: string, role: string, strings: seq<Fields>, j: nat)
    requires j < |strings|
    ensures StringMaps(sn, role, strings)[j] == StringData(sn, role, j + 1, strings[j])
    decreases |strings|
  {
    var n := |strings|;
    if j < n - 1 {
      StringMapsAt(sn, role, strings[..n - 1], j);
      assert strings[..n - 1][j] == strings[j];
    }
  }

  function AllKeys(strings: seq<Fields>): seq<string>
    decreases |strings|
  {
    if |strings| == 0 then [] else AllKeys(strings[..|strings| - 1]) + Keys(strings[|strings| - 1])
  }

  /** Every key the report's `for key, value in ...` loops bind, in binding order. */
  function VisitedKeys(rd: Reading): seq<string> {
    Keys(rd.fields) + Keys(rd.phaseA) + Keys(rd.phaseB) + Keys(rd.phaseC) + AllKeys(rd.strings)
  }

  /** What the report's loops read: its own items, the three phases' items, each
      PV string's items, and the power sum of the strings. */
  datatype Reading = Reading(
    fields: Fields,
    phaseA: Fields,
    phaseB: Fields,
    phaseC: Fields,
    strings: seq<Fields>,
    total: real)

  /** `d["mpptHeartBeat"][0]["mpptPv"]`, the list of PV strings. */
  function MpptPv(report: JValue): Result<JValue, Error> {
    var beats :- Get(report, "mpptHeartBeat");
    var first :- Index(beats, 0);
    Get(first, "mpptPv")
  }

  /** Every read of the heartbeat report succeeds: the report is a dict, its
      three phases are dicts, `mpptHeartBeat[0]["mpptPv"]` has a length, and each
      of that many entries reads as a string. */
  ghost predicate HeartbeatReads(inverter: JValue) {
    && Get(inverter, HeartbeatReport).Success?
    && var report := Get(inverter, HeartbeatReport).value;
    && report.JObj?
    && Get(report, "pcsAPhase").Success? && Get(report, "pcsAPhase").value.JObj?
    && Get(report, "pcsBPhase").Success? && Get(report, "pcsBPhase").value.JObj?
    && Get(report, "pcsCPhase").Success? && Get(report, "pcsCPhase").value.JObj?
    && MpptPv(report).Success?
    && Len(MpptPv(report).value).Success?
    && forall i :: 0 <= i < Len(MpptPv(report).value).value ==> StringReads(MpptPv(report).value, i)
  }

  /** The reads of `_get_sensors_ems_heartbeat`, in the order it makes them, failing
      with the first error Python would raise. The strings read are the items of
      the entries of `mpptPv`, one per entry. */
  function ReadHeartbeat(inverter: JValue): (r: Result<Reading, Error>)
    ensures r.Success? <==> HeartbeatReads(inverter)
    ensures r.Success? ==> "pcsAPhase" in Keys(r.value.fields)
    ensures r.Success? ==> Get(inverter, HeartbeatReport) == Success(JObj(r.value.fields))
    ensures r.Success? ==> PhaseFields(JObj(r.value.fields), "pcsAPhase") == Success(r.value.phaseA)
    ensures r.Success? ==> PhaseFields(JObj(r.value.fields), "pcsBPhase") == Success(r.value.phaseB)
    ensures r.Success? ==> PhaseFields(JObj(r.value.fields), "pcsCPhase") == Success(r.value.phaseC)
    ensures r.Success? ==> MpptPv(JObj(r.value.fields)).Success?
    ensures r.Success? ==>
      MpptStrings(MpptPv(JObj(r.value.fields)).value, |r.value.strings|) == Success((r.value.strings, r.value.total))
    ensures r.Success? ==> Len(MpptPv(JObj(r.value.fields)).value) == Success(|r.value.strings|)
    ensures r.Success? ==> forall i :: 0 <= i < |r.value.strings| ==>
      Index(MpptPv(JObj(r.value.fields)).value, i) == Success(JObj(r.value.strings[i]))
  {
    var report :- Get(inverter, HeartbeatReport);
    var d :- Items(report);
    var pa :- PhaseFields(report, "pcsAPhase");
    var pb :- PhaseFields(report, "pcsBPhase");
    var pc :- PhaseFields(report, "pcsCPhase");
    var pv :- MpptPv(report);
    var n :- Len(pv);
    var mppt :- MpptStrings(pv, n);
    Success(Reading(d, pa, pb, pc, mppt.0, mppt.1))
  }

  /** The records of the selected report fields. */
  function FixedData(sn: string, role: string, fields: Fields): (m: SensorMap)
    ensures KeyedById(m)
  {
    Emit(fields, (k, v) => k in HeartbeatKeys, (k, v) => FixedRecord(sn, role, k, v))
  }

  /** The records of one phase: every item of it. */
  function PhaseData(sn: string, role: string, phase: string, fields: Fields): (m: SensorMap)
    ensures KeyedById(m)
  {
    Emit(fields, (k, v) => true, (k, v) => PhaseRecord(sn, role, phase, k, v))
  }

  /** Every id of the selected report fields is the id of a selected key. */
  lemma FixedDataSource(sn: string, role: string, fields: Fields, id: string)
    requires id in FixedData(sn, role, fields)
    ensures exists j :: 0 <= j < |fields| && fields[j].0 in HeartbeatKeys && id == FixedId(sn, role, fields[j].0)
  {
    EmitSource(fields, (k, v) => k in HeartbeatKeys, (k, v) => FixedRecord(sn, role, k, v), id);
  }

  /** Every id of a phase is the id of one of its keys. */
  lemma PhaseDataSource(sn: string, role: string, phase: string, fields: Fields, id: string)
    requires id in PhaseData(sn, role, phase, fields)
    ensures exists j :: 0 <= j < |fields| && id == PhaseId(sn, role, phase, fields[j].0)
  {
    EmitSource(fields, (k, v) => true, (k, v) => PhaseRecord(sn, role, phase, k, v), id);
  }

  /** The items read for `Phases[q]`. */
  function PhaseOf(rd: Reading, q: nat): Fields
    requires q < |Phases|
  {
    [rd.phaseA, rd.phaseB, rd.phaseC][q]
  }

  function PhasesData(sn: string, role: string, rd: Reading): (m: SensorMap)
    ensures KeyedById(m)
  {
    Merge(Merge(
      PhaseData(sn, role, "pcsAPhase", rd.phaseA),
      PhaseData(sn, role, "pcsBPhase", rd.phaseB)),
      PhaseData(sn, role, "pcsCPhase", rd.phaseC))
  }

  /** The `data` dict the report builds from what it read: the selected report
      fields, then the phases, then the strings, then the total, whose unit is that
      of the last key any of the loops bound. */
  function HeartbeatRecords(sn: string, role: string, rd: Reading): (m: SensorMap)
    requires |rd.fields| > 0
    ensures KeyedById(m)
    ensures TotalId(sn) in m && m[TotalId(sn)].description == "Solarertrag aller Strings"
    ensures TotalId(sn) in m ==> m[TotalId(sn)].icon == Some("mdi:solar-power")
  {
    var fixed := FixedData(sn, role, rd.fields);
    var visited := VisitedKeys(rd);
    assert Keys(rd.fields) <= visited;
    var total := TotalRecord(sn, role, rd.total, GetUnit(visited[|visited| - 1]));
    Merge(Merge(Merge(fixed, PhasesData(sn, role, rd)), StringsData(sn, role, rd.strings)),
          map[TotalId(sn) := total])
  }

  /** The records the report yields, before they are merged. */
  function HeartbeatData(inverter: JValue, sn: string, role: string): (r: Result<SensorMap, Error>)
    ensures r.Success? <==> HeartbeatReads(inverter)
    ensures r.Success? ==> KeyedById(r.value)
    ensures r.Success? ==> r.value == HeartbeatRecords(sn, role, ReadHeartbeat(inverter).value)
  {
    var rd :- ReadHeartbeat(inverter);
    Success(HeartbeatRecords(sn, role, rd))
  }

  /** The heartbeat step: the report's records merged into `sensors`. */
  function HeartbeatSensors(inverter: JValue, sn: string, role: string, sensors: SensorMap)
    : (r: Result<SensorMap, Error>)
    ensures r.Success? <==> HeartbeatData(inverter, sn, role).Success?
    ensures r.Success? ==> r.value == Merge(sensors, HeartbeatData(inverter, sn, role).value)
  {
    var data :- HeartbeatData(inverter, sn, role);
    Success(Merge(sensors, data))
  }

  // ---- Where the report's ids can come from ----

  /** An id of the report names its head and the rest, when the heads hold no
      underscore. */
  lemma HeartbeatIdInjective(sn: string, h1: string, r1: string, h2: string, r2: string)
    requires NoUnderscore(h1) && NoUnderscore(h2)
    requires HeartbeatId(sn, h1, r1) == HeartbeatId(sn, h2, r2)
    ensures h1 == h2 && r1 == r2
  {
    var base := HeartbeatPrefix(sn);
    var id := HeartbeatId(sn, h1, r1);
    assert id[|base|..] == h1 + "_" + r1;
    assert HeartbeatId(sn, h2, r2)[|base|..] == h2 + "_" + r2;
    HeadBeforeUnderscore(h1, r1, h2, r2);
  }

  lemma StringLabelNoUnderscore(i: nat)
    ensures NoUnderscore(StringLabel(i))
  {
    var digits := NatToString(i);
    assert forall j :: 6 <= j < |StringLabel(i)| ==> StringLabel(i)[j] == digits[j - 6];
  }

  lemma HeartbeatKeysNoUnderscore()
    ensures forall k :: k in HeartbeatKeys ==> NoUnderscore(k)
  {
  }

  lemma StringsHeadNoUnderscore()
    ensures NoUnderscore("mpptHeartBeat")
  {
  }

  lemma PhasesNoUnderscore()
    ensures forall p :: p in Phases ==> NoUnderscore(p)
  {
  }

  /** Two strings' records never share an id: the label and the key are recovered
      from the id. */
  lemma StringIdInjective(sn: string, i: nat, k: string, j: nat, k2: string)
    requires StringId(sn, i, k) == StringId(sn, j, k2)
    ensures i == j && k == k2
  {
    StringsHeadNoUnderscore();
    HeartbeatIdInjective(sn, "mpptHeartBeat", StringLabel(i) + "_" + k, "mpptHeartBeat", StringLabel(j) + "_" + k2);
    StringLabelNoUnderscore(i);
    StringLabelNoUnderscore(j);
    HeadBeforeUnderscore(StringLabel(i), k, StringLabel(j), k2);
    assert NatToString(i) == StringLabel(i)[6..];
    assert NatToString(j) == StringLabel(j)[6..];
    NatToStringInjective(i, j);
  }

  /** The total's id is no string's id: after `mpptPv` a string id has a digit. */
  lemma TotalIsNoString(sn: string, i: nat, k: string)
    ensures TotalId(sn) != StringId(sn, i, k)
  {
    var rest := StringLabel(i) + "_" + k;
    assert rest[6] == NatToString(i)[0];
    assert "mpptPv_pwrTotal"[6] == '_';
    assert rest != "mpptPv_pwrTotal";
    if TotalId(sn) == StringId(sn, i, k) {
      StringsHeadNoUnderscore();
      HeartbeatIdInjective(sn, "mpptHeartBeat", "mpptPv_pwrTotal", "mpptHeartBeat", rest);
    }
  }

  lemma StringIdForm(sn: string, i: nat, k: string)
    ensures StringId(sn, i, k) == HeartbeatPrefix(sn) + "mpptHeartBeat_" + StringLabel(i) + "_" + k + ""
  {
  }

  /** No record of the strings has a head other than `mpptHeartBeat`. */
  lemma StringsDataHead(sn: string, role: string, strings: seq<Fields>, h: string, rest: string)
    requires NoUnderscore(h) && h != "mpptHeartBeat"
    ensures HeartbeatId(sn, h, rest) !in StringsData(sn, role, strings)
  {
    var id := HeartbeatId(sn, h, rest);
    var ms := StringMaps(sn, role, strings);
    forall n | 0 <= n < |ms|
      ensures id !in ms[n]
    {
      StringMapsAt(sn, role, strings, n);
      StringDataHead(sn, role, n + 1, strings[n], h, rest);
    }
    MergeAllLacks(ms, id);
  }

  /** One string's records sit under `mpptHeartBeat` only. */
  lemma StringDataHead(sn: string, role: string, i: nat, fields: Fields, h: string, rest: string)
    requires NoUnderscore(h) && h != "mpptHeartBeat"
    ensures HeartbeatId(sn, h, rest) !in StringData(sn, role, i, fields)
  {
    var id := HeartbeatId(sn, h, rest);
    if id in StringData(sn, role, i, fields) {
      StringDataSource(sn, role, i, fields, id);
      var j :| 0 <= j < |fields| && id == StringId(sn, i, fields[j].0);
      StringsHeadNoUnderscore();
      HeartbeatIdInjective(sn, h, rest, "mpptHeartBeat", StringLabel(i) + "_" + fields[j].0);
    }
  }

  /** What the strings emit under the label of the `i`-th string (from 0) is what
      that string emits: an earlier string never uses the label and a later one
      never overwrites it. */
  lemma StringsDataAt(sn: string, role: string, strings: seq<Fields>, i: nat, k: string)
    requires i < |strings|
    ensures StringId(sn, i + 1, k) in StringsData(sn, role, strings)
      <==> StringId(sn, i + 1, k) in StringData(sn, role, i + 1, strings[i])
    ensures StringId(sn, i + 1, k) in StringsData(sn, role, strings) ==>
      StringsData(sn, role, strings)[StringId(sn, i + 1, k)]
        == StringData(sn, role, i + 1, strings[i])[StringId(sn, i + 1, k)]
  {
    var id := StringId(sn, i + 1, k);
    var ms := StringMaps(sn, role, strings);
    forall j | 0 <= j < |ms| && j != i
      ensures id !in ms[j]
    {
      StringMapsAt(sn, role, strings, j);
      StringDataOnlyItsLabel(sn, role, j + 1, strings[j], i + 1, k);
    }
    StringMapsAt(sn, role, strings, i);
    MergeAllOwner(ms, i, id);
  }

  /** The records of one string, the `i`-th counting from 1. */
  function StringData(sn: string, role: string, i: nat, fields: Fields): SensorMap {
    Emit(fields, (k, v) => true, (k, v) => StringRecord(sn, role, i, k, v))
  }

  /** Every id of a string is the id of one of its keys under its label. */
  lemma StringDataSource(sn: string, role: string, i: nat, fields: Fields, id: string)
    requires id in StringData(sn, role, i, fields)
    ensures exists j :: 0 <= j < |fields| && id == StringId(sn, i, fields[j].0)
  {
    EmitSource(fields, (k, v) => true, (k, v) => StringRecord(sn, role, i, k, v), id);
  }

  lemma StringDataOnlyItsLabel(sn: string, role: string, i: nat, fields: Fields, j: nat, k: string)
    requires i != j
    ensures StringId(sn, j, k) !in StringData(sn, role, i, fields)
  {
    var id := StringId(sn, j, k);
    if id in StringData(sn, role, i, fields) {
      StringDataSource(sn, role, i, fields, id);
      var x :| 0 <= x < |fields| && id == StringId(sn, i, fields[x].0);
      StringIdInjective(sn, j, k, i, fields[x].0);
    }
  }

  lemma StringDataAt(sn: string, role: string, i: nat, fields: Fields, k: string)
    requires DistinctKeys(fields)
    ensures StringId(sn, i, k) in StringData(sn, role, i, fields) <==> k in Keys(fields)
    ensures StringId(sn, i, k) in StringData(sn, role, i, fields) ==>
      StringData(sn, role, i, fields)[StringId(sn, i, k)] == StringRecord(sn, role, i, k, Lookup(fields, k).value)
  {
    var pre := HeartbeatPrefix(sn) + "mpptHeartBeat_" + StringLabel(i) + "_";
    forall k', v' ensures StringRecord(sn, role, i, k', v').uniqueId == pre + k' + "" {
      StringIdForm(sn, i, k');
    }
    StringIdForm(sn, i, k);
    EmitAt(fields, (k', v') => true, (k', v') => StringRecord(sn, role, i, k', v'), pre, "", k);
  }

  /** No record of the selected report fields has a head outside the selection. */
  lemma FixedHead(sn: string, role: string, fields: Fields, h: string, rest: string)
    requires NoUnderscore(h) && h !in HeartbeatKeys
    ensures HeartbeatId(sn, h, rest) !in FixedData(sn, role, fields)
  {
    var e := FixedData(sn, role, fields);
    if HeartbeatId(sn, h, rest) in e {
      FixedDataSource(sn, role, fields, HeartbeatId(sn, h, rest));
      var j :| 0 <= j < |fields| && fields[j].0 in HeartbeatKeys && HeartbeatId(sn, h, rest) == FixedId(sn, role, fields[j].0);
      HeartbeatKeysNoUnderscore();
      HeartbeatIdInjective(sn, h, rest, fields[j].0, role);
    }
  }

  /** No record of a phase has another head than the phase. */
  lemma PhaseHead(sn: string, role: string, fields: Fields, phase: string, h: string, rest: string)
    requires NoUnderscore(h) && NoUnderscore(phase) && h != phase
    ensures HeartbeatId(sn, h, rest) !in PhaseData(sn, role, phase, fields)
  {
    var e := PhaseData(sn, role, phase, fields);
    if HeartbeatId(sn, h, rest) in e {
      PhaseDataSource(sn, role, phase, fields, HeartbeatId(sn, h, rest));
      var j :| 0 <= j < |fields| && HeartbeatId(sn, h, rest) == PhaseId(sn, role, phase, fields[j].0);
      HeartbeatIdInjective(sn, h, rest, phase, fields[j].0 + "_" + role + "_" + role);
    }
  }

  lemma PhasesDataHead(sn: string, role: string, rd: Reading, h: string, rest: string)
    requires NoUnderscore(h) && h !in Phases
    ensures HeartbeatId(sn, h, rest) !in PhasesData(sn, role, rd)
  {
    PhasesNoUnderscore();
    PhaseHead(sn, role, rd.phaseA, "pcsAPhase", h, rest);
    PhaseHead(sn, role, rd.phaseB, "pcsBPhase", h, rest);
    PhaseHead(sn, role, rd.phaseC, "pcsCPhase", h, rest);
  }

  // ---- The report's records ----

  lemma FixedIdForm(sn: string, role: string, k: string)
    ensures FixedId(sn, role, k) == HeartbeatPrefix(sn) + k + ("_" + role)
  {
  }

  lemma PhaseIdForm(sn: string, role: string, phase: string, k: string)
    ensures PhaseId(sn, role, phase, k) == HeartbeatPrefix(sn) + phase + "_" + k + ("_" + role + "_" + role)
  {
  }

  /** Every report field of the selection is emitted exactly when the report has
      it, with its own value, and nothing emitted later overwrites it. */
  lemma HeartbeatFixed(sn: string, role: string, rd: Reading, k: string)
    requires |rd.fields| > 0
    requires DistinctKeys(rd.fields)
    requires k in HeartbeatKeys
    ensures FixedId(sn, role, k) in HeartbeatRecords(sn, role, rd) <==> k in Keys(rd.fields)
    ensures FixedId(sn, role, k) in HeartbeatRecords(sn, role, rd) ==>
      HeartbeatRecords(sn, role, rd)[FixedId(sn, role, k)] == FixedRecord(sn, role, k, Lookup(rd.fields, k).value)
  {
    var pre := HeartbeatPrefix(sn);
    forall k', v' ensures FixedRecord(sn, role, k', v').uniqueId == pre + k' + ("_" + role) {
      FixedIdForm(sn, role, k');
    }
    FixedIdForm(sn, role, k);
    EmitAt(rd.fields, (k', v': JValue) => k' in HeartbeatKeys, (k', v') => FixedRecord(sn, role, k', v'),
           pre, "_" + role, k);
    HeartbeatKeysNoUnderscore();
    assert k !in Phases && k != "mpptHeartBeat";
    PhasesDataHead(sn, role, rd, k, role);
    StringsDataHead(sn, role, rd.strings, k, role);
    if FixedId(sn, role, k) == TotalId(sn) {
      StringsHeadNoUnderscore();
      HeartbeatIdInjective(sn, k, role, "mpptHeartBeat", "mpptPv_pwrTotal");
    }
  }

  /** Every item of every phase is emitted under that phase, with its own value. */
  lemma HeartbeatPhases(sn: string, role: string, rd: Reading, q: nat, k: string)
    requires |rd.fields| > 0
    requires q < |Phases|
    requires DistinctKeys(PhaseOf(rd, q))
    ensures PhaseId(sn, role, Phases[q], k) in HeartbeatRecords(sn, role, rd) <==> k in Keys(PhaseOf(rd, q))
    ensures PhaseId(sn, role, Phases[q], k) in HeartbeatRecords(sn, role, rd) ==>
      HeartbeatRecords(sn, role, rd)[PhaseId(sn, role, Phases[q], k)]
        == PhaseRecord(sn, role, Phases[q], k, Lookup(PhaseOf(rd, q), k).value)
  {
    var phase := Phases[q];
    var rest := k + "_" + role + "_" + role;
    PhasesDataAt(sn, role, rd, q, k);
    PhasesNoUnderscore();
    StringsHeadNoUnderscore();
    assert phase !in HeartbeatKeys && phase != "mpptHeartBeat";
    FixedHead(sn, role, rd.fields, phase, rest);
    StringsDataHead(sn, role, rd.strings, phase, rest);
    if PhaseId(sn, role, phase, k) == TotalId(sn) {
      HeartbeatIdInjective(sn, phase, rest, "mpptHeartBeat", "mpptPv_pwrTotal");
    }
  }

  /** The three phases never overwrite one another's records. */
  lemma PhasesDataAt(sn: string, role: string, rd: Reading, q: nat, k: string)
    requires q < |Phases|
    requires DistinctKeys(PhaseOf(rd, q))
    ensures PhaseId(sn, role, Phases[q], k) in PhasesData(sn, role, rd) <==> k in Keys(PhaseOf(rd, q))
    ensures PhaseId(sn, role, Phases[q], k) in PhasesData(sn, role, rd) ==>
      PhasesData(sn, role, rd)[PhaseId(sn, role, Phases[q], k)]
        == PhaseRecord(sn, role, Phases[q], k, Lookup(PhaseOf(rd, q), k).value)
  {
    var phase := Phases[q];
    var rest := k + "_" + role + "_" + role;
    PhaseDataAt(sn, role, phase, PhaseOf(rd, q), k);
    PhasesNoUnderscore();
    forall q' | 0 <= q' < |Phases| && q' != q
      ensures PhaseId(sn, role, phase, k) !in PhaseData(sn, role, Phases[q'], PhaseOf(rd, q'))
    {
      PhaseHead(sn, role, PhaseOf(rd, q'), Phases[q'], phase, rest);
    }
    assert PhasesData(sn, role, rd) == Merge(Merge(
      PhaseData(sn, role, Phases[0], PhaseOf(rd, 0)),
      PhaseData(sn, role, Phases[1], PhaseOf(rd, 1))),
      PhaseData(sn, role, Phases[2], PhaseOf(rd, 2)));
  }

  lemma PhaseDataAt(sn: string, role: string, phase: string, fields: Fields, k: string)
    requires DistinctKeys(fields)
    ensures PhaseId(sn, role, phase, k) in PhaseData(sn, role, phase, fields) <==> k in Keys(fields)
    ensures PhaseId(sn, role, phase, k) in PhaseData(sn, role, phase, fields) ==>
      PhaseData(sn, role, phase, fields)[PhaseId(sn, role, phase, k)]
        == PhaseRecord(sn, role, phase, k, Lookup(fields, k).value)
  {
    var pre := HeartbeatPrefix(sn) + phase + "_";
    var suf := "_" + role + "_" + role;
    forall k', v' ensures PhaseRecord(sn, role, phase, k', v').uniqueId == pre + k' + suf {
      PhaseIdForm(sn, role, phase, k');
    }
    PhaseIdForm(sn, role, phase, k);
    EmitAt(fields, (k', v') => true, (k', v') => PhaseRecord(sn, role, phase, k', v'), pre, suf, k);
  }

  /** Every item of every PV string is emitted under the string's label, with its
      own value. */
  lemma HeartbeatStrings(sn: string, role: string, rd: Reading, i: nat, k: string)
    requires |rd.fields| > 0
    requires i < |rd.strings|
    requires DistinctKeys(rd.strings[i])
    ensures StringId(sn, i + 1, k) in HeartbeatRecords(sn, role, rd) <==> k in Keys(rd.strings[i])
    ensures StringId(sn, i + 1, k) in HeartbeatRecords(sn, role, rd) ==>
      HeartbeatRecords(sn, role, rd)[StringId(sn, i + 1, k)]
        == StringRecord(sn, role, i + 1, k, Lookup(rd.strings[i], k).value)
  {
    var rest := StringLabel(i + 1) + "_" + k;
    StringsDataAt(sn, role, rd.strings, i, k);
    StringDataAt(sn, role, i + 1, rd.strings[i], k);
    TotalIsNoString(sn, i + 1, k);
    StringsHeadNoUnderscore();
    assert "mpptHeartBeat" !in HeartbeatKeys && "mpptHeartBeat" !in Phases;
    FixedHead(sn, role, rd.fields, "mpptHeartBeat", rest);
    PhasesDataHead(sn, role, rd, "mpptHeartBeat", rest);
  }

  // ---- The total power of the strings ----

  /** The power one string contributes: its `pwr` value, or nothing without one. */
  function PwrOf(fields: Fields): real {
    match Lookup(fields, "pwr")
    case None => 0.0
    case Some(v) => if NumOf(v).Some? then NumOf(v).value else 0.0
  }

  /** The power of all strings, string by string. */
  function TotalPwr(strings: seq<Fields>): real
    decreases |strings|
  {
    if |strings| == 0 then 0.0 else TotalPwr(strings[..|strings| - 1]) + PwrOf(strings[|strings| - 1])
  }

  /** Summing a string's `pwr` items while walking it yields its one `pwr` value. */
  lemma {:induction false} StringPowerIsPwr(fields: Fields)
    requires DistinctKeys(fields)
    requires StringPower(fields).Success?
    ensures StringPower(fields).value == PwrOf(fields)
    decreases |fields|
  {
    if |fields| > 0 {
      var init := fields[..|fields| - 1];
      var (k, v) := fields[|fields| - 1];
      assert Keys(fields) == Keys(init) + [k];
      assert DistinctKeys(init);
      StringPowerIsPwr(init);
      if k == "pwr" {
        assert "pwr" !in Keys(init);
      }
    }
  }

  /** The running sum over the strings is the power of all strings. */
  lemma {:induction false} MpptStringsTotal(pv: JValue, n: nat)
    requires MpptStrings(pv, n).Success?
    requires forall i :: 0 <= i < n ==> DistinctKeys(MpptStrings(pv, n).value.0[i])
    ensures MpptStrings(pv, n).value.1 == TotalPwr(MpptStrings(pv, n).value.0)
    decreases n
  {
    if n > 0 {
      var all := MpptStrings(pv, n).value;
      var earlier := MpptStrings(pv, n - 1).value;
      assert all.0 == earlier.0 + [all.0[n - 1]];
      assert all.0[..n - 1] == earlier.0;
      MpptStringsTotal(pv, n - 1);
      StringPowerIsPwr(all.0[n - 1]);
    }
  }

  /** `mpptPv_pwrTotal` holds the power of all strings the report lists: the sum
      of their `pwr` values, 0 when there are none. */
  lemma HeartbeatTotal(inverter: JValue, sn: string, role: string)
    requires HeartbeatData(inverter, sn, role).Success?
    requires forall i :: 0 <= i < |ReadHeartbeat(inverter).value.strings| ==>
      DistinctKeys(ReadHeartbeat(inverter).value.strings[i])
    ensures HeartbeatData(inverter, sn, role).value[TotalId(sn)].value
      == JNum(TotalPwr(ReadHeartbeat(inverter).value.strings))
  {
    var rd := ReadHeartbeat(inverter).value;
    MpptStringsTotal(MpptPv(JObj(rd.fields)).value, |rd.strings|);
    TotalValue(sn, role, rd);
  }

  /** The total record carries the sum the reading accumulated. */
  lemma TotalValue(sn: string, role: string, rd: Reading)
    requires |rd.fields| > 0
    ensures HeartbeatRecords(sn, role, rd)[TotalId(sn)].value == JNum(rd.total)
  {
  }

  /** Three strings of 100, 150 and 0 W add up to 250 W. */
  lemma PowerTotalExample()
    ensures var pv := JArr([
              JObj([("pwr", JNum(100.0)), ("amp", JNum(2.5))]),
              JObj([("pwr", JNum(150.0))]),
              JObj([("vol", JNum(30.0)), ("pwr", JNum(0.0))])]);
            MpptStrings(pv, 3).Success? && MpptStrings(pv, 3).value.1 == 250.0
  {
    var s0 := [("pwr", JNum(100.0)), ("amp", JNum(2.5))];
    var s1 := [("pwr", JNum(150.0))];
    var s2 := [("vol", JNum(30.0)), ("pwr", JNum(0.0))];
    assert StringPower(s0) == Success(100.0) by {
      assert s0[..1] == [("pwr", JNum(100.0))];
    }
    assert StringPower(s2) == Success(0.0) by {
      assert s2[..1] == [("vol", JNum(30.0))];
    }
  }

  /** The total's unit is that of the last key the loops bound: the last key of
      the last string when it has one. */
  lemma TotalUnitFromLastString(sn: string, role: string, rd: Reading)
    requires |rd.fields| > 0
    requires |rd.strings| > 0 && |rd.strings[|rd.strings| - 1]| > 0
    ensures HeartbeatRecords(sn, role, rd)[TotalId(sn)].unit
      == GetUnit(rd.strings[|rd.strings| - 1][|rd.strings[|rd.strings| - 1]| - 1].0)
  {
    var last := rd.strings[|rd.strings| - 1];
    var visited := VisitedKeys(rd);
    assert visited[|visited| - 1] == Keys(last)[|last| - 1];
  }

  /** Without strings, the last key bound is the last item of the third phase. */
  lemma TotalUnitWithoutStrings(sn: string, role: string, rd: Reading)
    requires |rd.fields| > 0
    requires |rd.strings| == 0 && |rd.phaseC| > 0
    ensures HeartbeatRecords(sn, role, rd)[TotalId(sn)].unit == GetUnit(rd.phaseC[|rd.phaseC| - 1].0)
  {
    var visited := VisitedKeys(rd);
    assert visited[|visited| - 1] == Keys(rd.phaseC)[|rd.phaseC| - 1];
  }

  // ---- What the merge leaves alone ----

  lemma HeartbeatIdPrefixed(sn: string, h: string, rest: string)
    ensures StartsWith(HeartbeatId(sn, h, rest), HeartbeatPrefix(sn))
  {
    assert HeartbeatId(sn, h, rest)[..|HeartbeatPrefix(sn)|] == HeartbeatPrefix(sn);
  }

  lemma StringsDataPrefixed(sn: string, role: string, strings: seq<Fields>)
    ensures forall id :: id in StringsData(sn, role, strings) ==> StartsWith(id, HeartbeatPrefix(sn))
  {
    var ms := StringMaps(sn, role, strings);
    forall id | id in StringsData(sn, role, strings)
      ensures StartsWith(id, HeartbeatPrefix(sn))
    {
      MergeAllSource(ms, id);
      var n :| 0 <= n < |ms| && id in ms[n];
      StringMapsAt(sn, role, strings, n);
      StringDataPrefixed(sn, role, n + 1, strings[n]);
    }
  }

  lemma StringDataPrefixed(sn: string, role: string, i: nat, fields: Fields)
    ensures forall id :: id in StringData(sn, role, i, fields) ==> StartsWith(id, HeartbeatPrefix(sn))
  {
    forall id | id in StringData(sn, role, i, fields)
      ensures StartsWith(id, HeartbeatPrefix(sn))
    {
      StringDataSource(sn, role, i, fields, id);
      var j :| 0 <= j < |fields| && id == StringId(sn, i, fields[j].0);
      HeartbeatIdPrefixed(sn, "mpptHeartBeat", StringLabel(i) + "_" + fields[j].0);
    }
  }

  lemma PhaseDataPrefixed(sn: string, role: string, phase: string, fields: Fields)
    ensures forall id :: id in PhaseData(sn, role, phase, fields) ==> StartsWith(id, HeartbeatPrefix(sn))
  {
    forall id | id in PhaseData(sn, role, phase, fields)
      ensures StartsWith(id, HeartbeatPrefix(sn))
    {
      PhaseDataSource(sn, role, phase, fields, id);
      var j :| 0 <= j < |fields| && id == PhaseId(sn, role, phase, fields[j].0);
      HeartbeatIdPrefixed(sn, phase, fields[j].0 + "_" + role + "_" + role);
    }
  }

  lemma FixedDataPrefixed(sn: string, role: string, fields: Fields)
    ensures forall id :: id in FixedData(sn, role, fields) ==> StartsWith(id, HeartbeatPrefix(sn))
  {
    forall id | id in FixedData(sn, role, fields)
      ensures StartsWith(id, HeartbeatPrefix(sn))
    {
      FixedDataSource(sn, role, fields, id);
      var j :| 0 <= j < |fields| && fields[j].0 in HeartbeatKeys && id == FixedId(sn, role, fields[j].0);
      HeartbeatIdPrefixed(sn, fields[j].0, role);
    }
  }

  /** Every id the report emits carries the report's prefix. */
  lemma HeartbeatRecordsPrefixed(sn: string, role: string, rd: Reading)
    requires |rd.fields| > 0
    ensures forall id :: id in HeartbeatRecords(sn, role, rd) ==> StartsWith(id, HeartbeatPrefix(sn))
  {
    FixedDataPrefixed(sn, role, rd.fields);
    PhaseDataPrefixed(sn, role, "pcsAPhase", rd.phaseA);
    PhaseDataPrefixed(sn, role, "pcsBPhase", rd.phaseB);
    PhaseDataPrefixed(sn, role, "pcsCPhase", rd.phaseC);
    StringsDataPrefixed(sn, role, rd.strings);
    HeartbeatIdPrefixed(sn, "mpptHeartBeat", "mpptPv_pwrTotal");
  }

  /** Merging the report touches only ids under its prefix. */
  lemma HeartbeatKeepsOthers(inverter: JValue, sn: string, role: string, sensors: SensorMap)
    requires HeartbeatSensors(inverter, sn, role, sensors).Success?
    ensures forall id :: id in sensors && !StartsWith(id, HeartbeatPrefix(sn)) ==>
      id in HeartbeatSensors(inverter, sn, role, sensors).value
      && HeartbeatSensors(inverter, sn, role, sensors).value[id] == sensors[id]
    ensures forall id :: id in HeartbeatSensors(inverter, sn, role, sensors).value ==>
      id in sensors || StartsWith(id, HeartbeatPrefix(sn))
  {
    HeartbeatRecordsPrefixed(sn, role, ReadHeartbeat(inverter).value);
  }
}
