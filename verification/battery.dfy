/** Sensors from the battery packs in an inverter's `JTS1_BP_STA_REPORT`
    (`_get_sensors_battery`). Each pack is stored as a JSON string under a key
    longer than twelve characters and is decoded on its own. */
module Battery {
  import opened Wrappers
  import opened Strings
  import opened Json
  import opened Units
  import opened Descriptions
  import opened Sensors

  const BatteryReport: string := "JTS1_BP_STA_REPORT"

  /** The pack fields that become sensors. */
  const BatteryKeys: seq<string> := [
    "bpPwr",
    "bpSoc",
    "bpSoh",
    "bpVol",
    "bpAmp",
    "bpCycles",
    "bpSysState",
    "bpRemainWatth",
    "bpTemp"
  ]

  /** The report keys that name packs, in report order. */
  function PackKeys(keys: seq<string>): (packs: seq<string>)
    ensures forall k :: k in packs <==> k in keys && |k| > 12
    ensures |packs| <= |keys|
    decreases |keys|
  {
    if |keys| == 0 then []
    else
      var rest := PackKeys(keys[1..]);
      assert forall k :: k in keys <==> k == keys[0] || k in keys[1..];
      if |keys[0]| > 12 then [keys[0]] + rest else rest
  }

  /** Packs keep their report order: selecting from two runs of keys is
      selecting from each in turn. */
  lemma {:induction false} PackKeysAppend(a: seq<string>, b: seq<string>)
    ensures PackKeys(a + b) == PackKeys(a) + PackKeys(b)
    decreases |a|
  {
    if |a| > 0 {
      assert (a + b)[1..] == a[1..] + b;
      PackKeysAppend(a[1..], b);
    } else {
      assert a + b == b;
    }
  }

  /** `_bpack{i}_`, the label of the `i`-th pack (counting from 1). */
  function PackLabel(i: nat): string {
    "_bpack" + NatToString(i) + "_"
  }

  /** `sum(items)`, which fails on anything that is not a number. */
  function SumNumbers(items: seq<JValue>): (r: Result<real, Error>)
    ensures r.Success? <==> forall i :: 0 <= i < |items| ==> NumOf(items[i]).Some?
    decreases |items|
  {
    if |items| == 0 then Success(0.0)
    else
      var rest :- SumNumbers(items[..|items| - 1]);
      match NumOf(items[|items| - 1])
      case None => Failure(TypeError)
      case Some(x) => Success(rest + x)
  }

  /** `sum(temp) / len(temp)` for whatever `temp` the pack holds. The sum is
      taken first, so a string or dict fails with a type error unless it is
      empty, and every empty collection divides by zero. */
  function Mean(temp: JValue): (r: Result<real, Error>)
    ensures r.Success? <==>
      temp.JArr? && |temp.items| > 0 && forall i :: 0 <= i < |temp.items| ==> NumOf(temp.items[i]).Some?
    ensures r.Success? ==> r.value * (|temp.items| as real) == SumNumbers(temp.items).value
    ensures temp == JArr([]) ==> r == Failure(ZeroDivisionError)
  {
    match temp
    case JArr(items) =>
      var total :- SumNumbers(items);
      if |items| == 0 then Failure(ZeroDivisionError) else Success(total / (|items| as real))
    case JStr(s) => if |s| == 0 then Failure(ZeroDivisionError) else Failure(TypeError)
    case JObj(fields) => if |fields| == 0 then Failure(ZeroDivisionError) else Failure(TypeError)
    case _ => Failure(TypeError)
  }

  /** Readings between `lo` and `hi` sum to between `n * lo` and `n * hi`. */
  lemma {:induction false} SumBounds(items: seq<JValue>, lo: real, hi: real)
    requires forall i :: 0 <= i < |items| ==> NumOf(items[i]).Some? && lo <= NumOf(items[i]).value <= hi
    ensures (|items| as real) * lo <= SumNumbers(items).value <= (|items| as real) * hi
    decreases |items|
  {
    if |items| > 0 {
      var n := |items|;
      var init := items[..n - 1];
      assert forall i :: 0 <= i < |init| ==> init[i] == items[i];
      SumBounds(init, lo, hi);
      var rest, x := SumNumbers(init).value, NumOf(items[n - 1]).value;
      assert SumNumbers(items).value == rest + x;
      assert lo <= x <= hi;
      assert n as real == (n - 1) as real + 1.0;
      AddBounds((n - 1) as real, rest, x, lo, hi);
    }
  }

  /** One more reading between `lo` and `hi` keeps the running sum in bounds. */
  lemma AddBounds(m: real, rest: real, x: real, lo: real, hi: real)
    requires m * lo <= rest <= m * hi && lo <= x <= hi
    ensures (m + 1.0) * lo <= rest + x <= (m + 1.0) * hi
  {
    assert (m + 1.0) * lo == m * lo + lo;
    assert (m + 1.0) * hi == m * hi + hi;
  }

  /** The mean cell temperature lies between the lowest and highest reading. */
  lemma MeanBounds(items: seq<JValue>, lo: real, hi: real)
    requires |items| > 0
    requires forall i :: 0 <= i < |items| ==> NumOf(items[i]).Some? && lo <= NumOf(items[i]).value <= hi
    ensures Mean(JArr(items)).Success?
    ensures lo <= Mean(JArr(items)).value <= hi
  {
    SumBounds(items, lo, hi);
    var n := |items| as real;
    var total := SumNumbers(items).value;
    assert Mean(JArr(items)) == Success(total / n);
    QuotientBounds(total, n, lo, hi);
  }

  lemma QuotientBounds(total: real, n: real, lo: real, hi: real)
    requires n > 0.0 && n * lo <= total <= n * hi
    ensures lo <= total / n <= hi
  {
    assert total / n - lo == (total - n * lo) / n;
    assert hi - total / n == (n * hi - total) / n;
  }

  /** Three cells at 20, 22 and 24 degrees average to 22. */
  lemma MeanExample()
    ensures Mean(JArr([JNum(20.0), JNum(22.0), JNum(24.0)])) == Success(22.0)
  {
    var items := [JNum(20.0), JNum(22.0), JNum(24.0)];
    assert items[..2][..1] == [JNum(20.0)];
    assert SumNumbers(items[..2][..1]) == Success(20.0);
    assert SumNumbers(items[..2]) == Success(42.0);
    assert SumNumbers(items) == Success(66.0);
  }

  /** `json_loads(d[bat])`: only a string that decodes is a pack. The decoder is
      a parameter of the model. */
  function DecodePack(decode: string -> Option<JValue>, raw: JValue): (r: Result<JValue, Error>)
    ensures r.Success? <==> raw.JStr? && decode(raw.s).Some?
    ensures r.Success? ==> r.value == decode(raw.s).value
  {
    match raw
    case JStr(s) =>
      (match decode(s)
       case Some(pack) => Success(pack)
       case None => Failure(DecodeError))
    case _ => Failure(DecodeError)
  }

  function BatteryPrefix(sn: string): string {
    sn + "_" + BatteryReport + "_"
  }

  function BatteryRecord(sn: string, role: string, bat: string, index: nat, key: string, value: JValue)
    : SensorRecord
  {
    SensorRecord(
      BatteryPrefix(sn) + bat + "_" + key, sn, sn + "_" + key, role + PackLabel(index) + key,
      value, GetUnit(key), PackLabel(index) + GetDescription(key),
      if key == "bpAmp" then Some("mdi:current-dc") else None)
  }

  /** The mean temperature of a decoded pack, when it has `bpTemp`; a pack
      without it needs none. */
  function PackTemperature(fields: Fields): (r: Result<real, Error>)
    ensures r.Success? <==>
      ("bpTemp" in Keys(fields) ==>
         var t := Lookup(fields, "bpTemp").value;
         t.JArr? && |t.items| > 0 && forall i :: 0 <= i < |t.items| ==> NumOf(t.items[i]).Some?)
    ensures r.Success? && "bpTemp" in Keys(fields) ==>
      r.value * (|Lookup(fields, "bpTemp").value.items| as real) == SumNumbers(Lookup(fields, "bpTemp").value.items).value
  {
    if "bpTemp" in Keys(fields) then Mean(Lookup(fields, "bpTemp").value) else Success(0.0)
  }

  /** The pack under `bat` reads: its value is a string that decodes to a dict
      whose cell temperatures, when it has any, have a mean. */
  ghost predicate PackReads(d: Fields, bat: string, decode: string -> Option<JValue>) {
    && bat in Keys(d)
    && Lookup(d, bat).value.JStr?
    && decode(Lookup(d, bat).value.s).Some?
    && decode(Lookup(d, bat).value.s).value.JObj?
    && PackTemperature(decode(Lookup(d, bat).value.s).value.fields).Success?
  }

  /** The records of the pack stored under `bat`, numbered `index`. */
  function PackData(d: Fields, bat: string, index: nat, sn: string, role: string,
                    decode: string -> Option<JValue>): (r: Result<SensorMap, Error>)
    ensures r.Success? <==> PackReads(d, bat, decode)
    ensures r.Success? ==> KeyedById(r.value)
  {
    var raw :- Get(JObj(d), bat);
    var pack :- DecodePack(decode, raw);
    var fields :- Items(pack);
    var temp :- PackTemperature(fields);
    Success(PackRecords(sn, role, bat, index, fields, temp))
  }

  /** One record per allow-listed field of a decoded pack, `bpTemp` carrying the
      mean temperature `temp`. */
  function PackRecords(sn: string, role: string, bat: string, index: nat, fields: Fields, temp: real)
    : (m: SensorMap)
    ensures KeyedById(m)
  {
    Emit(fields, (k, v) => k in BatteryKeys,
         (k, v) => BatteryRecord(sn, role, bat, index, k, if k == "bpTemp" then JNum(temp) else v))
  }

  /** Every id of a pack is the pack's prefix followed by an allow-listed key. */
  lemma PackRecordsSource(sn: string, role: string, bat: string, index: nat, fields: Fields, temp: real,
                          id: string)
    requires id in PackRecords(sn, role, bat, index, fields, temp)
    ensures exists i :: 0 <= i < |BatteryKeys| && id == BatteryPrefix(sn) + bat + "_" + BatteryKeys[i]
  {
    var keep := (k, v: JValue) => k in BatteryKeys;
    var make := (k, v) => BatteryRecord(sn, role, bat, index, k, if k == "bpTemp" then JNum(temp) else v);
    EmitSource(fields, keep, make, id);
    var j :| 0 <= j < |fields| && keep(fields[j].0, fields[j].1) && make(fields[j].0, fields[j].1).uniqueId == id;
    var i :| 0 <= i < |BatteryKeys| && fields[j].0 == BatteryKeys[i];
  }

  /** Every id of a pack that decodes is the pack's prefix followed by an
      allow-listed key. */
  lemma PackDataSource(d: Fields, bat: string, index: nat, sn: string, role: string,
                       decode: string -> Option<JValue>, id: string)
    requires PackData(d, bat, index, sn, role, decode).Success?
    requires id in PackData(d, bat, index, sn, role, decode).value
    ensures exists i :: 0 <= i < |BatteryKeys| && id == BatteryPrefix(sn) + bat + "_" + BatteryKeys[i]
  {
    var pack := DecodePack(decode, Get(JObj(d), bat).value).value;
    var fields := Items(pack).value;
    PackRecordsSource(sn, role, bat, index, fields, PackTemperature(fields).value, id);
  }

  /** The packs' record maps in order, the `i`-th (from 0) labelled `i + 1`;
      the first pack that fails decides the error. */
  function PackMaps(d: Fields, packs: seq<string>, sn: string, role: string,
                    decode: string -> Option<JValue>): (r: Result<seq<SensorMap>, Error>)
    ensures r.Success? <==> forall j :: 0 <= j < |packs| ==> PackReads(d, packs[j], decode)
    ensures r.Success? ==> |r.value| == |packs|
  {
    CollectMaps(packs, (bat: string, index: nat) => PackData(d, bat, index, sn, role, decode))
  }

  /** The `j`-th map is the `j`-th pack's records. */
  lemma PackMapsAt(d: Fields, packs: seq<string>, sn: string, role: string,
                   decode: string -> Option<JValue>, j: nat)
    requires PackMaps(d, packs, sn, role, decode).Success?
    requires j < |packs|
    ensures PackData(d, packs[j], j + 1, sn, role, decode).Success?
    ensures PackMaps(d, packs, sn, role, decode).value[j] == PackData(d, packs[j], j + 1, sn, role, decode).value
  {
    CollectMapsAt(packs, (bat: string, index: nat) => PackData(d, bat, index, sn, role, decode), j);
  }

  /** The packs merged in order into one map, as the loop's `data.update` does. */
  function PacksData(d: Fields, packs: seq<string>, sn: string, role: string,
                     decode: string -> Option<JValue>): (r: Result<SensorMap, Error>)
    ensures r.Success? <==> forall bat :: bat in packs ==> PackReads(d, bat, decode)
    ensures r.Success? ==> KeyedById(r.value)
  {
    var ms :- PackMaps(d, packs, sn, role, decode);
    assert forall j :: 0 <= j < |ms| ==> KeyedById(ms[j]) by {
      forall j | 0 <= j < |ms|
        ensures KeyedById(ms[j])
      {
        PackMapsAt(d, packs, sn, role, decode, j);
      }
    }
    Success(MergeAll(ms))
  }

  /** The battery report reads: it is a dict and every key of it longer than
      twelve characters holds a pack that reads. */
  ghost predicate BatteryReads(inverter: JValue, decode: string -> Option<JValue>) {
    && Get(inverter, BatteryReport).Success?
    && Get(inverter, BatteryReport).value.JObj?
    && var d := Get(inverter, BatteryReport).value.fields;
       forall bat :: bat in Keys(d) && |bat| > 12 ==> PackReads(d, bat, decode)
  }

  /** The records the report yields, before they are merged. */
  function BatteryData(inverter: JValue, sn: string, role: string, decode: string -> Option<JValue>)
    : (r: Result<SensorMap, Error>)
    ensures r.Success? <==> BatteryReads(inverter, decode)
    ensures r.Success? ==> KeyedById(r.value)
    ensures r.Success? ==> Get(inverter, BatteryReport).Success? && Get(inverter, BatteryReport).value.JObj?
  {
    var report :- Get(inverter, BatteryReport);
    var d :- Items(report);
    PacksData(d, PackKeys(Keys(d)), sn, role, decode)
  }

  /** The battery step: the packs' records merged into `sensors`. */
  function BatterySensors(inverter: JValue, sn: string, role: string, decode: string -> Option<JValue>,
                          sensors: SensorMap): (r: Result<SensorMap, Error>)
    ensures r.Success? <==> BatteryData(inverter, sn, role, decode).Success?
    ensures r.Success? ==> r.value == Merge(sensors, BatteryData(inverter, sn, role, decode).value)
  {
    var data :- BatteryData(inverter, sn, role, decode);
    Success(Merge(sensors, data))
  }

  /** A pack whose `bpTemp` is an empty list divides by zero, and so does the
      whole battery report. */
  lemma EmptyTemperatureFails(d: Fields, bat: string, index: nat, sn: string, role: string,
                              decode: string -> Option<JValue>, text: string, f: Fields)
    requires Lookup(d, bat) == Some(JStr(text)) && decode(text) == Some(JObj(f))
    requires Lookup(f, "bpTemp") == Some(JArr([]))
    ensures PackData(d, bat, index, sn, role, decode) == Failure(ZeroDivisionError)
  {
  }

  /** A decoded pack field yields a record exactly when it is allow-listed. The
      record sits under `{sn}_JTS1_BP_STA_REPORT_{bat}_{key}`, its description is
      the pack label followed by the key's description, and its value is the
      field's value except for `bpTemp`, which carries the mean cell temperature. */
  lemma PackSelection(d: Fields, bat: string, index: nat, sn: string, role: string,
                      decode: string -> Option<JValue>, text: string, f: Fields, k: string)
    requires Lookup(d, bat) == Some(JStr(text)) && decode(text) == Some(JObj(f))
    requires DistinctKeys(f)
    requires PackTemperature(f).Success?
    ensures PackData(d, bat, index, sn, role, decode).Success?
    ensures BatteryPrefix(sn) + bat + "_" + k in PackData(d, bat, index, sn, role, decode).value
      <==> k in BatteryKeys && k in Keys(f)
    ensures BatteryPrefix(sn) + bat + "_" + k in PackData(d, bat, index, sn, role, decode).value ==>
      PackData(d, bat, index, sn, role, decode).value[BatteryPrefix(sn) + bat + "_" + k]
        == BatteryRecord(sn, role, bat, index, k,
                         if k == "bpTemp" then JNum(PackTemperature(f).value) else Lookup(f, k).value)
  {
    var temp := PackTemperature(f).value;
    var keep := (k': string, v': JValue) => k' in BatteryKeys;
    var make := (k', v') => BatteryRecord(sn, role, bat, index, k', if k' == "bpTemp" then JNum(temp) else v');
    EmitAt(f, keep, make, BatteryPrefix(sn) + bat + "_", "", k);
    assert BatteryPrefix(sn) + bat + "_" + k + "" == BatteryPrefix(sn) + bat + "_" + k;
  }

  lemma BatteryKeysHaveNoUnderscore()
    ensures forall i :: 0 <= i < |BatteryKeys| ==> NoUnderscore(BatteryKeys[i])
  {
  }

  /** Two packs never share an id: the pack key is recovered from the id because
      the field key after the last underscore has none of its own. */
  lemma PackIdsDisjoint(sn: string, bat1: string, bat2: string, i1: nat, i2: nat)
    requires i1 < |BatteryKeys| && i2 < |BatteryKeys|
    requires BatteryPrefix(sn) + bat1 + "_" + BatteryKeys[i1] == BatteryPrefix(sn) + bat2 + "_" + BatteryKeys[i2]
    ensures bat1 == bat2
  {
    BatteryKeysHaveNoUnderscore();
    PrefixedTailInjective(BatteryPrefix(sn), bat1, BatteryKeys[i1], bat2, BatteryKeys[i2]);
  }

  /** Two different pack keys yield disjoint sets of ids. */
  lemma PacksApart(d: Fields, bat1: string, n1: nat, bat2: string, n2: nat, sn: string, role: string,
                   decode: string -> Option<JValue>)
    requires PackData(d, bat1, n1, sn, role, decode).Success?
    requires PackData(d, bat2, n2, sn, role, decode).Success?
    requires bat1 != bat2
    ensures forall id :: id in PackData(d, bat1, n1, sn, role, decode).value ==>
      id !in PackData(d, bat2, n2, sn, role, decode).value
  {
    var p1 := PackData(d, bat1, n1, sn, role, decode).value;
    var p2 := PackData(d, bat2, n2, sn, role, decode).value;
    forall id | id in p1 && id in p2
      ensures false
    {
      PackDataSource(d, bat1, n1, sn, role, decode, id);
      PackDataSource(d, bat2, n2, sn, role, decode, id);
      var i1 :| 0 <= i1 < |BatteryKeys| && id == BatteryPrefix(sn) + bat1 + "_" + BatteryKeys[i1];
      var i2 :| 0 <= i2 < |BatteryKeys| && id == BatteryPrefix(sn) + bat2 + "_" + BatteryKeys[i2];
      PackIdsDisjoint(sn, bat1, bat2, i1, i2);
    }
  }

  /** Over distinct pack keys, no two packs share an id. */
  lemma PackMapsDisjoint(d: Fields, packs: seq<string>, sn: string, role: string,
                         decode: string -> Option<JValue>)
    requires PackMaps(d, packs, sn, role, decode).Success?
    requires Distinct(packs)
    ensures var ms := PackMaps(d, packs, sn, role, decode).value;
      forall i, j, id :: 0 <= i < |ms| && 0 <= j < |ms| && j != i && id in ms[i] ==> id !in ms[j]
  {
    var ms := PackMaps(d, packs, sn, role, decode).value;
    forall i, j, id | 0 <= i < |ms| && 0 <= j < |ms| && j != i && id in ms[i]
      ensures id !in ms[j]
    {
      assert packs[i] != packs[j];
      PackPairApart(d, packs, sn, role, decode, i, j);
    }
  }

  /** Two positions holding different pack keys share no id. */
  lemma PackPairApart(d: Fields, packs: seq<string>, sn: string, role: string,
                      decode: string -> Option<JValue>, i: nat, j: nat)
    requires PackMaps(d, packs, sn, role, decode).Success?
    requires i < |packs| && j < |packs| && packs[i] != packs[j]
    ensures forall id :: id in PackMaps(d, packs, sn, role, decode).value[i] ==>
      id !in PackMaps(d, packs, sn, role, decode).value[j]
  {
    PackMapsAt(d, packs, sn, role, decode, i);
    PackMapsAt(d, packs, sn, role, decode, j);
    PacksApart(d, packs[i], i + 1, packs[j], j + 1, sn, role, decode);
  }

  /** Over distinct pack keys, every pack's records reach the report's result
      untouched, the `i`-th pack labelled `i + 1`. */
  lemma PacksDataKeepsEachPack(d: Fields, packs: seq<string>, sn: string, role: string,
                               decode: string -> Option<JValue>, i: nat)
    requires PacksData(d, packs, sn, role, decode).Success?
    requires Distinct(packs)
    requires i < |packs|
    ensures PackData(d, packs[i], i + 1, sn, role, decode).Success?
    ensures var pack := PackData(d, packs[i], i + 1, sn, role, decode).value;
      var all := PacksData(d, packs, sn, role, decode).value;
      forall id :: id in pack ==> id in all && all[id] == pack[id]
  {
    var ms := PackMaps(d, packs, sn, role, decode).value;
    PackMapsAt(d, packs, sn, role, decode, i);
    PackMapsDisjoint(d, packs, sn, role, decode);
    MergeAllKeeps(ms, i);
  }

  /** Pack keys taken from a dict are distinct. */
  lemma {:induction false} PackKeysDistinct(keys: seq<string>)
    requires Distinct(keys)
    ensures Distinct(PackKeys(keys))
    decreases |keys|
  {
    if |keys| > 0 {
      assert Distinct(keys[1..]) by {
        forall a, b | 0 <= a < b < |keys[1..]|
          ensures keys[1..][a] != keys[1..][b]
        {
          assert keys[1..][a] == keys[a + 1] && keys[1..][b] == keys[b + 1];
        }
      }
      PackKeysDistinct(keys[1..]);
      if |keys[0]| > 12 {
        assert keys[0] !in keys[1..];
        DistinctCons(keys[0], PackKeys(keys[1..]));
      }
    }
  }

  lemma DistinctCons(x: string, rest: seq<string>)
    requires x !in rest && Distinct(rest)
    ensures Distinct([x] + rest)
  {
    var s := [x] + rest;
    forall a, b | 0 <= a < b < |s|
      ensures s[a] != s[b]
    {
      assert s[b] == rest[b - 1];
      if a > 0 {
        assert s[a] == rest[a - 1];
      }
    }
  }

  /** The `i`-th pack of the report (from 0) contributes its records, labelled
      `_bpack{i + 1}_`, to the battery step's result. */
  lemma BatteryPacks(inverter: JValue, sn: string, role: string, decode: string -> Option<JValue>,
                     d: Fields, i: nat)
    requires Get(inverter, BatteryReport) == Success(JObj(d))
    requires DistinctKeys(d)
    requires BatteryData(inverter, sn, role, decode).Success?
    requires i < |PackKeys(Keys(d))|
    ensures var bat := PackKeys(Keys(d))[i];
      var pack := PackData(d, bat, i + 1, sn, role, decode);
      var all := BatteryData(inverter, sn, role, decode).value;
      && pack.Success?
      && forall id :: id in pack.value ==> id in all && all[id] == pack.value[id]
  {
    PackKeysDistinct(Keys(d));
    PacksDataKeepsEachPack(d, PackKeys(Keys(d)), sn, role, decode, i);
  }

  /** Every id of every pack carries the report's prefix. */
  lemma PackMapsPrefixed(d: Fields, packs: seq<string>, sn: string, role: string,
                         decode: string -> Option<JValue>)
    requires PackMaps(d, packs, sn, role, decode).Success?
    ensures var ms := PackMaps(d, packs, sn, role, decode).value;
      forall j, id :: 0 <= j < |ms| && id in ms[j] ==> StartsWith(id, BatteryPrefix(sn))
  {
    var ms := PackMaps(d, packs, sn, role, decode).value;
    forall j, id | 0 <= j < |ms| && id in ms[j]
      ensures StartsWith(id, BatteryPrefix(sn))
    {
      PackMapsAt(d, packs, sn, role, decode, j);
      PackDataSource(d, packs[j], j + 1, sn, role, decode, id);
      var i :| 0 <= i < |BatteryKeys| && id == BatteryPrefix(sn) + packs[j] + "_" + BatteryKeys[i];
      assert id[..|BatteryPrefix(sn)|] == BatteryPrefix(sn);
    }
  }

  /** Every id the packs emit carries the report's prefix. */
  lemma PacksDataPrefixed(d: Fields, packs: seq<string>, sn: string, role: string,
                          decode: string -> Option<JValue>)
    requires PacksData(d, packs, sn, role, decode).Success?
    ensures forall id :: id in PacksData(d, packs, sn, role, decode).value ==> StartsWith(id, BatteryPrefix(sn))
  {
    PackMapsPrefixed(d, packs, sn, role, decode);
    MergeAllPrefixed(PackMaps(d, packs, sn, role, decode).value, BatteryPrefix(sn));
  }

  /** Merging the report touches only ids under its prefix. */
  lemma BatteryKeepsOthers(inverter: JValue, sn: string, role: string, decode: string -> Option<JValue>,
                           sensors: SensorMap)
    requires BatterySensors(inverter, sn, role, decode, sensors).Success?
    ensures forall id :: id in sensors && !StartsWith(id, BatteryPrefix(sn)) ==>
      id in BatterySensors(inverter, sn, role, decode, sensors).value
      && BatterySensors(inverter, sn, role, decode, sensors).value[id] == sensors[id]
    ensures forall id :: id in BatterySensors(inverter, sn, role, decode, sensors).value ==>
      id in sensors || StartsWith(id, BatteryPrefix(sn))
  {
    var d := Get(inverter, BatteryReport).value.fields;
    PacksDataPrefixed(d, PackKeys(Keys(d)), sn, role, decode);
  }
}
