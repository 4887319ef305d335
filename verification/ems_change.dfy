/** Sensors from an inverter's `JTS1_EMS_CHANGE_REPORT` (`_get_sensors_ems_change`). */
module EmsChange {
  import opened Wrappers
  import opened Strings
  import opened Json
  import opened Units
  import opened Descriptions
  import opened Sensors

  const EmsChangeReport: string := "JTS1_EMS_CHANGE_REPORT"

  /** The fixed part of the selection. */
  const EmsChangeKeys: seq<string> := [
    "bpTotalChgEnergy",
    "bpTotalDsgEnergy",
    "bpSoc",
    "bpOnlineSum",
    "emsCtrlLedBright"
  ]

  /** `re.match("mppt.*Code", key)`: the match is anchored at the start only, and
      `.` matches any character except a newline. */
  predicate MatchesMpptCode(key: string) {
    StartsWith(key, "mppt") && CodeAhead(key[4..])
  }

  /** `.*Code` matches a prefix of `s`: `Code` occurs before any newline. */
  predicate CodeAhead(s: string)
    decreases |s|
  {
    StartsWith(s, "Code") || (|s| > 0 && s[0] != '\n' && CodeAhead(s[1..]))
  }

  /** `Code` occurs at `j` with no newline in front of it. */
  ghost predicate CodeAt(s: string, j: int) {
    OccursAt(s, "Code", j) && forall t :: 0 <= t < j ==> s[t] != '\n'
  }

  lemma {:induction false} CodeAheadIff(s: string)
    ensures CodeAhead(s) <==> exists j :: CodeAt(s, j)
    decreases |s|
  {
    if StartsWith(s, "Code") {
      assert CodeAt(s, 0);
    } else if |s| > 0 {
      CodeAheadIff(s[1..]);
      if CodeAhead(s) {
        var j :| CodeAt(s[1..], j);
        assert s[j + 1..j + 1 + 4] == s[1..][j..j + 4];
        assert CodeAt(s, j + 1);
      } else {
        forall j | CodeAt(s, j) && j > 0
          ensures CodeAt(s[1..], j - 1)
        {
          assert s[1..][j - 1..j - 1 + 4] == s[j..j + 4];
        }
      }
    }
  }

  /** The pattern keeps exactly the keys that start with `mppt` and have `Code`
      somewhere after those four letters with no newline in between; the key
      need not end with `Code`. */
  lemma MpptCodeIff(key: string)
    ensures MatchesMpptCode(key) <==>
      StartsWith(key, "mppt") && exists j :: 4 <= j && CodeAt(key, j)
  {
    if StartsWith(key, "mppt") {
      var s := key[4..];
      CodeAheadIff(s);
      if CodeAhead(s) {
        var j :| CodeAt(s, j);
        assert key[j + 4..j + 4 + 4] == s[j..j + 4];
        assert CodeAt(key, j + 4);
      }
      if j :| 4 <= j && CodeAt(key, j) {
        assert key[j..j + 4] == s[j - 4..j - 4 + 4];
        assert CodeAt(s, j - 4);
      }
    }
  }

  /** `.*Code` finds `Code` behind any run of characters without a newline. */
  lemma {:induction false} CodeAfter(middle: string, tail: string)
    requires forall t :: 0 <= t < |middle| ==> middle[t] != '\n'
    ensures CodeAhead(middle + "Code" + tail)
    decreases |middle|
  {
    var s := middle + "Code" + tail;
    if |middle| == 0 {
      assert s[..4] == "Code";
    } else {
      assert s[1..] == middle[1..] + "Code" + tail;
      CodeAfter(middle[1..], tail);
    }
  }

  /** A key made of `mppt`, a middle without a newline, `Code` and anything at
      all matches the pattern. */
  lemma MpptCodeAccepts(middle: string, tail: string)
    requires forall t :: 0 <= t < |middle| ==> middle[t] != '\n'
    ensures MatchesMpptCode("mppt" + middle + "Code" + tail)
  {
    var key := "mppt" + middle + "Code" + tail;
    assert key[..4] == "mppt";
    assert key[4..] == middle + "Code" + tail;
    CodeAfter(middle, tail);
  }

  /** Fewer than four characters cannot hold `Code`. */
  lemma {:induction false} NoCodeInShort(s: string)
    requires |s| < 4
    ensures !CodeAhead(s)
    decreases |s|
  {
    if |s| > 0 {
      NoCodeInShort(s[1..]);
    }
  }

  /** A newline straight after `mppt` ends the match before any `Code`. */
  lemma MpptCodeNewline(tail: string)
    ensures !MatchesMpptCode("mppt\n" + tail)
  {
    var rest := ("mppt\n" + tail)[4..];
    assert rest[0] == '\n';
    assert !StartsWith(rest, "Code") by {
      assert rest[0] != "Code"[0];
    }
  }

  /** The pattern needs `mppt` at the very start and `Code` later on the same
      line, and nothing after `Code` matters. */
  lemma MpptCodeExamples()
    ensures MatchesMpptCode("mpptCode")
    ensures MatchesMpptCode("mpptWarnCode1")
  {
    MpptCodeAccepts("", "");
    assert "mppt" + "" + "Code" + "" == "mpptCode";
    MpptCodeAccepts("Warn", "1");
    assert "mppt" + "Warn" + "Code" + "1" == "mpptWarnCode1";
  }

  /** Keys the pattern rejects: `mppt` not at the start, a newline before
      `Code`, and `Code` cut short. */
  lemma MpptCodeCounterExamples()
    ensures !MatchesMpptCode("pvMpptCode")
    ensures !MatchesMpptCode("mppt\nCode")
    ensures !MatchesMpptCode("mpptCod")
  {
    assert "pvMpptCode"[1] != "mppt"[1];
    MpptCodeNewline("Code");
    assert "mppt\n" + "Code" == "mppt\nCode";
    NoCodeInShort("mpptCod"[4..]);
  }

  /** `list(filter(r.match, keys))`. */
  function MpptCodeKeys(keys: seq<string>): (r: seq<string>)
    ensures forall k :: k in r <==> k in keys && MatchesMpptCode(k)
    decreases |keys|
  {
    if |keys| == 0 then []
    else
      var rest := MpptCodeKeys(keys[1..]);
      assert forall k :: k in keys <==> k == keys[0] || k in keys[1..];
      if MatchesMpptCode(keys[0]) then [keys[0]] + rest else rest
  }

  function EmsChangeRecord(sn: string, role: string, key: string, value: JValue): SensorRecord {
    SensorRecord(
      sn + "_" + EmsChangeReport + "_" + key + role, sn, sn + "_" + key + role, key + role,
      value, GetUnit(key), GetDescription(key), None)
  }

  /** The records the report yields, before they are merged. */
  function EmsChangeData(inverter: JValue, sn: string, role: string): (r: Result<SensorMap, Error>)
    ensures r.Success? <==> Get(inverter, EmsChangeReport).Success? && Get(inverter, EmsChangeReport).value.JObj?
    ensures r.Success? ==> KeyedById(r.value)
  {
    var d :- Get(inverter, EmsChangeReport);
    var fields :- Items(d);
    var select := EmsChangeKeys + MpptCodeKeys(Keys(fields));
    Success(Emit(fields, (k, v) => k in select, (k, v) => EmsChangeRecord(sn, role, k, v)))
  }

  /** The change-report step: the report's records merged into `sensors`. */
  function EmsChangeSensors(inverter: JValue, sn: string, role: string, sensors: SensorMap)
    : (r: Result<SensorMap, Error>)
    ensures r.Success? <==> EmsChangeData(inverter, sn, role).Success?
    ensures r.Success? ==> r.value == Merge(sensors, EmsChangeData(inverter, sn, role).value)
  {
    var data :- EmsChangeData(inverter, sn, role);
    Success(Merge(sensors, data))
  }

  /** The prefix every id from this report carries. */
  function EmsChangePrefix(sn: string): string {
    sn + "_" + EmsChangeReport + "_"
  }

  /** A key of the report yields a record exactly when it is in the fixed list or
      matches the warning/fault-code pattern; the record sits under
      `{sn}_JTS1_EMS_CHANGE_REPORT_{key}{role}` and carries the value verbatim. */
  lemma EmsChangeSelection(inverter: JValue, sn: string, role: string, d: Fields, k: string)
    requires Get(inverter, EmsChangeReport) == Success(JObj(d))
    requires DistinctKeys(d)
    ensures EmsChangeData(inverter, sn, role).Success?
    ensures EmsChangePrefix(sn) + k + role in EmsChangeData(inverter, sn, role).value
      <==> k in Keys(d) && (k in EmsChangeKeys || MatchesMpptCode(k))
    ensures EmsChangePrefix(sn) + k + role in EmsChangeData(inverter, sn, role).value ==>
      EmsChangeData(inverter, sn, role).value[EmsChangePrefix(sn) + k + role]
        == EmsChangeRecord(sn, role, k, Lookup(d, k).value)
  {
    var select := EmsChangeKeys + MpptCodeKeys(Keys(d));
    var keep := (k', v': JValue) => k' in select;
    var make := (k', v') => EmsChangeRecord(sn, role, k', v');
    EmitAt(d, keep, make, EmsChangePrefix(sn), role, k);
  }

  /** The step only adds or replaces ids under `{sn}_JTS1_EMS_CHANGE_REPORT_`:
      every other entry of `sensors` comes through unchanged. */
  lemma EmsChangeKeepsOthers(inverter: JValue, sn: string, role: string, sensors: SensorMap)
    requires EmsChangeSensors(inverter, sn, role, sensors).Success?
    ensures forall id :: id in sensors && !StartsWith(id, EmsChangePrefix(sn)) ==>
      id in EmsChangeSensors(inverter, sn, role, sensors).value
      && EmsChangeSensors(inverter, sn, role, sensors).value[id] == sensors[id]
    ensures forall id :: id in EmsChangeSensors(inverter, sn, role, sensors).value ==>
      id in sensors || StartsWith(id, EmsChangePrefix(sn))
  {
    var fields := Get(inverter, EmsChangeReport).value.fields;
    var select := EmsChangeKeys + MpptCodeKeys(Keys(fields));
    var keep := (k', v': JValue) => k' in select;
    var make := (k', v') => EmsChangeRecord(sn, role, k', v');
    EmitPrefixed(fields, keep, make, EmsChangePrefix(sn), role);
  }
}
