# PowerOcean sensor extraction, modelled in Dafny

The PowerOcean integration for Home Assistant polls the EcoFlow cloud for a
PowerOcean installation. The cloud answers with one JSON document. The
integration flattens that document into a dict of sensor records
(`PowerOceanEndPoint`), keyed by unique id. This project models that
flattening (`Ecoflow._get_sensors` and the helpers it calls) as pure Dafny
functions, and proves what the flattening guarantees.

The model, in the order the system runs:

- **Discovery** (`Topology`): `data.parallel` lists the inverters. The first
  key is the slave and the last key is the master. Each entry must be a dict.
- **Top-level readings** (`TopLevel`): an allow-list of 11 fields of `data`
  becomes records under `{sn}_{key}`, except fields whose value is a dict.
- **Per-inverter reports**, first for the master and then for the slave:
  - `EmsChange`: `JTS1_EMS_CHANGE_REPORT`. A fixed list of keys, plus every key
    matching the regular expression `mppt.*Code` as `re.match` applies it.
  - `Battery`: `JTS1_BP_STA_REPORT`. Every key longer than 12 characters names
    a battery pack stored as a JSON string. The packs are numbered from 1
    (`_bpack{i}_`). `bpTemp` is replaced by the mean of its cell temperatures.
  - `Heartbeat`: `JTS1_EMS_HEARTBEAT`. This yields:
    - a fixed selection of fields;
    - every item of the three AC phases;
    - every item of every PV string (`mpptPv{i}`);
    - the total PV power `mpptPv_pwrTotal`, which is the sum of the strings'
      `pwr` values.
- **Merge** (`Sensors.Merge`): each report's records go into the accumulated
  dict with `dict.update`, so a later record with the same id wins.
- **Dispatch** (`Dispatch.GetSensors`): sensors come back only when discovery
  found exactly two inverters. Otherwise the result is `None`.

Supporting modules:

- `Wrappers` defines `Option` and `Result`.
- `Strings` holds the string predicates and the lemmas that recover a key from
  an id.
- `Json` is the JSON value type, plus Python's `d[k]`, `x[i]`, `len` and
  `.items()`. Each of these fails with the exception Python would raise.
- `Units` models `__get_unit`.
- `Descriptions` models `__get_description`.

Modelling choices:

- A JSON object is a list of key/value pairs in document order. A decoded
  Python dict never holds a key twice, so only a list without repeated keys
  (`DistinctKeys`) stands for a dict. A lookup finds the last binding of a key.
  The statements that rely on dict semantics assume `DistinctKeys`. A list with
  a repeated key has no Python counterpart (see "Left out").
- A Python exception becomes `Failure(e)`. `e` names the exception:
  `KeyError`, `TypeError`, `AttributeError`, `ZeroDivisionError`, or a decode
  error from `json_loads`.
- `json_loads` is not modelled. It is a parameter `decode` of the battery and
  dispatch functions.
- Numbers are mathematical reals. A `bool` counts as 0 or 1 in a sum, as it
  does in Python.

### Where the model follows the code rather than its description

- `_get_sensors` (ecoflow.py:191-249) is not valid Python as written:
  - `if serials == 0 :` has an empty body;
  - `else` lacks its colon;
  - line 229 is dedented inside the two-inverter branch.

  `_get_serial_numbers` writes `if len(p) = 0 :` (line 300). The model follows
  the evident intent:
  - an empty `parallel` does nothing and falls through to the final bare
    `return`, so the result is `None`;
  - `len(p) = 0` is a comparison;
  - line 229 belongs to the two-inverter branch.
- With one inverter, or more than two, the code takes the `else` branch and
  returns `None`. The model does the same. It raises no error for these cases.
- The `mppt.*Code` pattern is applied with `re.match`. The match is anchored at
  the start only: `Code` may be followed by anything, and `.` does not cross a
  newline.
- `__get_description` has exactly 12 fixed texts. Every other key is its own
  description.
- The unit of `mpptPv_pwrTotal` is computed from the loop variable `key` after
  the loops end (line 564). That is the last key any `for key` loop of the
  heartbeat report bound. It is not the unit of `pwr`. The model keeps this.

## Model

| member | source | states |
|---|---|---|
| Units.GetUnit | custom_components/powerocean/ecoflow.py:138-157 | The seven tests of `__get_unit` in source order. It has no contract of its own: Units.UnitIsFirstPassedRule and the rows after it state what the result is. |
| Units.UnitIsFirstPassedRule | custom_components/powerocean/ecoflow.py:138-157 | The unit is the unit of the first rule, in source order, whose test the key passes (W, A, %, V, Wh, kWh, °C). There is no unit exactly when the key passes no rule. |
| Units.TableUnitIsFirst | custom_components/powerocean/ecoflow.py:138-157 | Reading the rule table from a row that no earlier row beats yields the unit of the first row the key passes, and nothing exactly when no later row passes. |
| Units.UnitIsTableUnit | custom_components/powerocean/ecoflow.py:138-157 | The chain of tests gives the same unit as the rule table read from the top. |
| Units.SuffixDecidesUnit | custom_components/powerocean/ecoflow.py:140-149 | A key that ends in one of a suffix rule's endings gets that rule's unit, whatever precedes the ending. |
| Units.UnitWithoutSuffix | custom_components/powerocean/ecoflow.py:140-155 | If a key's last letter ends none of the suffixes, only the `Generation` infix and the `bpTemp` prefix can give it a unit. |
| Units.ExampleEnergyBeforeGeneration | custom_components/powerocean/ecoflow.py:148-151 | A key that ends in `Energy` and contains `Generation` is in Wh: the suffix test comes first. |
| Units.ExampleGeneration | custom_components/powerocean/ecoflow.py:150-151 | `todayElectricityGeneration` is in kWh. |
| Units.ExampleTemperature | custom_components/powerocean/ecoflow.py:152-153 | `bpTemp` is in °C. |
| Units.ExampleAmpere | custom_components/powerocean/ecoflow.py:142-143 | `bpAmp` is in A. |
| Units.ExampleNoUnit | custom_components/powerocean/ecoflow.py:154-155 | `bpCycles` and `online` have no unit. |
| Descriptions.GetDescription | custom_components/powerocean/ecoflow.py:159-189 | The twelve tests of `__get_description`, each overwriting the key. It has no contract of its own: Descriptions.DescriptionIsTableOrKey states what the result is. |
| Descriptions.DescriptionIsTableOrKey | custom_components/powerocean/ecoflow.py:159-189 | A key in the table of 12 gets its fixed German text. Every other key is its own description. |
| Json.Get | custom_components/powerocean/ecoflow.py:356 | `d[k]` succeeds exactly on a dict holding `k` and yields the last binding. A missing key raises `KeyError(k)`. |
| Json.Index | custom_components/powerocean/ecoflow.py:526 | `x[i]` succeeds exactly on a list or string longer than `i`. A list yields its `i`-th element, a string the one-character string at `i`. A dict raises `KeyError`. |
| Json.Len | custom_components/powerocean/ecoflow.py:526 | `len` is defined exactly on lists, strings and dicts. It counts a list's elements, a string's characters and a dict's entries. |
| Json.Items | custom_components/powerocean/ecoflow.py:376 | `.items()` succeeds exactly on a dict and yields its pairs in order. |
| Sensors.Merge | custom_components/powerocean/ecoflow.py:391 | `dict.update`: the ids are the union of both dicts, the new records win, every other entry is unchanged, and records stay under their own ids. |
| Sensors.Emit | custom_components/powerocean/ecoflow.py:376-390 | The loop files every record under its own id. |
| Sensors.EmitSource | custom_components/powerocean/ecoflow.py:376-390 | Every id the loop writes is the id of a record made from a kept item. |
| Sensors.MergeAllOwner | custom_components/powerocean/ecoflow.py:531-548 | When writing several batches of records into one dict, an id that only one batch holds ends up with that batch's record, and is present exactly when that batch holds it. |
| Sensors.MergeAllKeeps | custom_components/powerocean/ecoflow.py:424-455 | A batch that shares no id with the other batches comes through all the writes unchanged. |
| Sensors.CollectMaps | custom_components/powerocean/ecoflow.py:424-431 | Collecting one batch per key succeeds exactly when the step succeeds for every key, numbered from 1. It yields one batch per key. |
| Sensors.CollectMapsAt | custom_components/powerocean/ecoflow.py:424-431 | When every step succeeds, the `j`-th batch collected is the step's result for the `j`-th key, numbered `j + 1`. |
| Sensors.EmitAt | custom_components/powerocean/ecoflow.py:376-390 | With ids of the form prefix + key + suffix, a key's id is present exactly when the key is in the dict and kept. The record is made from that key's value. |
| TopLevel.SensorsData | custom_components/powerocean/ecoflow.py:251-293 | Succeeds exactly when the response has a `data` dict. Every id is `{sn}_{key}` for an allow-listed key, and every record sits under its own id. |
| TopLevel.TopLevelSelection | custom_components/powerocean/ecoflow.py:258-291 | A field yields a record exactly when it is allow-listed, present, and not a dict. The record has the field's value and the key's unit, description and icon. |
| TopLevel.TopLevelRecord | custom_components/powerocean/ecoflow.py:277-291 | The record of a top-level field: id and name `{sn}_{key}`, the key as friendly name, the key's unit and description, and the solar icon for `mpptPwr`. It has no contract of its own: TopLevel.TopLevelSelection states which fields get it. |
| Topology.SerialNumbers | custom_components/powerocean/ecoflow.py:295-318 | Discovery succeeds exactly when `parallel` has length 0 or is a dict of dicts. It finds no inverters exactly for length 0. Otherwise the slave is the first key, the master is the last key, each gets its own entry, and the count is the number of entries. |
| Topology.TwoInverters | custom_components/powerocean/ecoflow.py:304-318 | With two distinct entries, the master is the second key, the slave is the first, and they differ. |
| EmsChange.MatchesMpptCode | custom_components/powerocean/ecoflow.py:369-370 | `re.match("mppt.*Code", key)`. It has no contract of its own: EmsChange.MpptCodeIff and the rows after it state what it accepts. |
| EmsChange.CodeAheadIff | custom_components/powerocean/ecoflow.py:369-370 | `.*Code` matches at the start of a string exactly when `Code` occurs there with no newline before it. |
| EmsChange.MpptCodeIff | custom_components/powerocean/ecoflow.py:369-370 | A key matches `mppt.*Code` exactly when it starts with `mppt` and `Code` occurs at position 4 or later with no newline before it. |
| EmsChange.MpptCodeAccepts | custom_components/powerocean/ecoflow.py:369-370 | `mppt`, then any text without a newline, then `Code`, then anything at all, always matches. |
| EmsChange.MpptCodeExamples | custom_components/powerocean/ecoflow.py:369-370 | `mpptCode` and `mpptWarnCode1` match. |
| EmsChange.MpptCodeCounterExamples | custom_components/powerocean/ecoflow.py:369-370 | `pvMpptCode`, `mppt`+newline+`Code` and `mpptCod` do not match. |
| EmsChange.MpptCodeKeys | custom_components/powerocean/ecoflow.py:367-371 | The filter keeps exactly the keys that match the pattern. |
| EmsChange.EmsChangeData | custom_components/powerocean/ecoflow.py:354-390 | Succeeds exactly when the inverter has a change-report dict. Records sit under their own ids. |
| EmsChange.EmsChangeSensors | custom_components/powerocean/ecoflow.py:354-393 | The step succeeds exactly when the report's records can be read. Its result is `sensors` updated with those records. |
| EmsChange.EmsChangeSelection | custom_components/powerocean/ecoflow.py:358-390 | A key yields a record exactly when it is present and is either in the fixed list or matches the pattern. The record has the key's value under `{sn}_JTS1_EMS_CHANGE_REPORT_{key}{role}`. |
| EmsChange.EmsChangeKeepsOthers | custom_components/powerocean/ecoflow.py:375-391 | The merge changes no entry outside the report's id prefix, and adds only ids under it. |
| EmsChange.EmsChangeRecord | custom_components/powerocean/ecoflow.py:379-390 | The record of a change-report field: id `{sn}_JTS1_EMS_CHANGE_REPORT_{key}{role}`, name `{sn}_{key}{role}`, friendly name `{key}{role}`, and the value verbatim. It has no contract of its own: EmsChange.EmsChangeSelection states which fields get it. |
| Battery.PackKeys | custom_components/powerocean/ecoflow.py:404 | A key names a pack exactly when it is longer than 12 characters. |
| Battery.PackKeysAppend | custom_components/powerocean/ecoflow.py:404 | The selection keeps the keys' order: selecting from a concatenation concatenates the selections. |
| Battery.PackKeysDistinct | custom_components/powerocean/ecoflow.py:404 | Keys without repeats give pack names without repeats. |
| Battery.SumNumbers | custom_components/powerocean/ecoflow.py:442 | `sum` succeeds exactly when every element is a number. |
| Battery.Mean | custom_components/powerocean/ecoflow.py:441-442 | The mean succeeds exactly on a non-empty list of numbers. It times the length equals the sum. An empty list raises `ZeroDivisionError`. |
| Battery.SumBounds | custom_components/powerocean/ecoflow.py:442 | The sum of `n` numbers lies between `n` times their lower bound and `n` times their upper bound. |
| Battery.MeanBounds | custom_components/powerocean/ecoflow.py:442 | The mean cell temperature lies between the lowest and highest cell. |
| Battery.MeanExample | custom_components/powerocean/ecoflow.py:442 | The mean of 20, 22 and 24 is 22. |
| Battery.DecodePack | custom_components/powerocean/ecoflow.py:428 | A pack decodes exactly when it is a string the decoder accepts. |
| Battery.PackReads | custom_components/powerocean/ecoflow.py:428-442 | When a pack reads: its value is a string, the decoder accepts it, the result is a dict, and that dict's `bpTemp` (when present) is a non-empty list of numbers. It has no contract of its own: it is the success condition of Battery.PackData. |
| Battery.PackTemperature | custom_components/powerocean/ecoflow.py:440-442 | The temperature succeeds exactly when the pack has no `bpTemp` or its `bpTemp` is a non-empty list of numbers. The mean times the number of cells is their sum. |
| Battery.BatteryRecord | custom_components/powerocean/ecoflow.py:435-455 | The record of a pack field: id `{sn}_JTS1_BP_STA_REPORT_{bat}_{key}`, name `{sn}_{key}`, friendly name `{role}_bpack{i}_{key}`, the pack label before the description, and the DC icon for `bpAmp`. It has no contract of its own: Battery.PackSelection states which fields get it. |
| Battery.PackData | custom_components/powerocean/ecoflow.py:428-455 | A pack succeeds exactly when it reads (Battery.PackReads). Its records sit under their own ids. |
| Battery.PackDataSource | custom_components/powerocean/ecoflow.py:428-455 | Every id of a pack is `{sn}_JTS1_BP_STA_REPORT_{bat}_{key}` for an allow-listed key. |
| Battery.PackSelection | custom_components/powerocean/ecoflow.py:431-455 | A decoded field yields a record exactly when it is allow-listed. The record carries the pack label in its friendly name and description, and the mean cell temperature in place of `bpTemp`. |
| Battery.EmptyTemperatureFails | custom_components/powerocean/ecoflow.py:440-442 | A pack whose `bpTemp` is an empty list fails with `ZeroDivisionError`. |
| Battery.PackIdsDisjoint | custom_components/powerocean/ecoflow.py:435 | Two packs with different names never share an id. |
| Battery.PacksApart | custom_components/powerocean/ecoflow.py:424-455 | The records of two packs with different names have no id in common. |
| Battery.PackMapsDisjoint | custom_components/powerocean/ecoflow.py:424-455 | Over distinct pack names, no two packs of the report share an id. |
| Battery.PacksDataKeepsEachPack | custom_components/powerocean/ecoflow.py:424-455 | Every pack's records survive the later packs, numbered by the pack's 1-based position. |
| Battery.BatteryPacks | custom_components/powerocean/ecoflow.py:395-455 | In a report, the `i`-th pack key's records reach the report's result unchanged, labelled `_bpack{i+1}_`. |
| Battery.PacksData | custom_components/powerocean/ecoflow.py:420-455 | Reading the packs in turn succeeds exactly when every pack reads. The records sit under their own ids. |
| Battery.BatteryReads | custom_components/powerocean/ecoflow.py:397-442 | When the battery report reads: it is a dict, and every key longer than twelve characters holds a pack that reads. It has no contract of its own: it is the success condition of Battery.BatteryData. |
| Battery.BatteryData | custom_components/powerocean/ecoflow.py:395-472 | The step succeeds exactly when the battery report reads (Battery.BatteryReads). Records sit under their own ids. |
| Battery.BatterySensors | custom_components/powerocean/ecoflow.py:395-476 | The step succeeds exactly when the report's records can be read. Its result is `sensors` updated with those records. |
| Battery.BatteryKeepsOthers | custom_components/powerocean/ecoflow.py:474 | The merge changes no entry outside the report's id prefix, and adds only ids under it. |
| Heartbeat.StringPower | custom_components/powerocean/ecoflow.py:551-552 | Summing a string's `pwr` items succeeds exactly when every `pwr` value is a number. |
| Heartbeat.StringPowerIsPwr | custom_components/powerocean/ecoflow.py:551-552 | A string's contribution to the sum is its `pwr` value, or 0 when it has none. |
| Heartbeat.StringReads | custom_components/powerocean/ecoflow.py:531-552 | When entry `i` of `mpptPv` reads: it exists, it is a dict, and its `pwr` values are numbers. It has no contract of its own: it is the success condition of Heartbeat.MpptStrings. |
| Heartbeat.MpptStrings | custom_components/powerocean/ecoflow.py:526-552 | Reading `n` strings succeeds exactly when each of the first `n` entries of `mpptPv` is a dict whose `pwr` values are numbers. It yields `n` item lists, the `i`-th from the `i`-th entry. |
| Heartbeat.MpptStringsTotal | custom_components/powerocean/ecoflow.py:530-552 | The running sum is the total `pwr` of all strings. |
| Heartbeat.MpptPv | custom_components/powerocean/ecoflow.py:526 | `d["mpptHeartBeat"][0]["mpptPv"]`. It has no contract of its own: Heartbeat.HeartbeatReads and Heartbeat.ReadHeartbeat state what is read through it. |
| Heartbeat.HeartbeatReads | custom_components/powerocean/ecoflow.py:480-552 | When the heartbeat report reads: it is a dict, its three phases are dicts, `mpptPv` has a length, and that many entries read as strings. It has no contract of its own: it is the success condition of Heartbeat.ReadHeartbeat. |
| Heartbeat.ReadHeartbeat | custom_components/powerocean/ecoflow.py:480-532 | The reads succeed exactly when the report reads (Heartbeat.HeartbeatReads). The report is the inverter's heartbeat dict and holds `pcsAPhase`. The three phases read are the items of `d["pcsAPhase"]`, `d["pcsBPhase"]` and `d["pcsCPhase"]`. The strings read are the entries of `d["mpptHeartBeat"][0]["mpptPv"]`, one per entry, and the total is their power sum. |
| Heartbeat.HeartbeatFixed | custom_components/powerocean/ecoflow.py:482-504 | Each allow-listed report field yields its record exactly when present. Nothing emitted later overwrites it. |
| Heartbeat.HeartbeatPhases | custom_components/powerocean/ecoflow.py:508-522 | Every item of each of the three phases yields a record under its phase, with its own value. |
| Heartbeat.PhasesDataAt | custom_components/powerocean/ecoflow.py:508-522 | The three phases never overwrite one another's records. |
| Heartbeat.HeartbeatStrings | custom_components/powerocean/ecoflow.py:531-548 | Every item of the `i`-th string yields a record under `mpptPv{i+1}`, with its own value, and under that label nothing else. |
| Heartbeat.StringsDataAt | custom_components/powerocean/ecoflow.py:531-548 | A later string never overwrites an earlier string's records. |
| Heartbeat.StringIdInjective | custom_components/powerocean/ecoflow.py:533 | A string record's id determines its string number and key. |
| Heartbeat.TotalIsNoString | custom_components/powerocean/ecoflow.py:533-556 | The total's id is no string record's id. |
| Heartbeat.HeartbeatRecords | custom_components/powerocean/ecoflow.py:489-567 | Records sit under their own ids. The total is always present, with its fixed description and icon. |
| Heartbeat.FixedRecord | custom_components/powerocean/ecoflow.py:494-505 | The record of a selected report field: id `{sn}_JTS1_EMS_HEARTBEAT_{key}_{role}`, name `{sn}_{key}_{role}`, friendly name `{key}_{role}`. It has no contract of its own: Heartbeat.HeartbeatFixed states which fields get it. |
| Heartbeat.PhaseRecord | custom_components/powerocean/ecoflow.py:511-523 | The record of a phase item. The name `{phase}_{key}_{role}` is itself followed by `_{role}`, so the role appears twice in the id. It has no contract of its own: Heartbeat.HeartbeatPhases states which items get it. |
| Heartbeat.StringRecord | custom_components/powerocean/ecoflow.py:533-549 | The record of a string item: id `{sn}_JTS1_EMS_HEARTBEAT_mpptHeartBeat_mpptPv{i}_{key}` without the role, the DC icon for keys ending `amp` and the solar icon for keys ending `pwr`. It has no contract of its own: Heartbeat.HeartbeatStrings states which items get it. |
| Heartbeat.TotalRecord | custom_components/powerocean/ecoflow.py:555-567 | The total's record: id `{sn}_JTS1_EMS_HEARTBEAT_mpptHeartBeat_mpptPv_pwrTotal` without the role, fixed description and icon. It has no contract of its own: Heartbeat.HeartbeatRecords and Heartbeat.HeartbeatTotal state its content. |
| Heartbeat.HeartbeatTotal | custom_components/powerocean/ecoflow.py:530-563 | `mpptPv_pwrTotal` is the sum of the strings' `pwr` values, and 0 without strings. |
| Heartbeat.PowerTotalExample | custom_components/powerocean/ecoflow.py:530-552 | Strings of 100, 150 and 0 W give 250 W. |
| Heartbeat.TotalUnitFromLastString | custom_components/powerocean/ecoflow.py:564 | The total's unit is the unit of the last key of the last string, when that string has items. |
| Heartbeat.TotalUnitWithoutStrings | custom_components/powerocean/ecoflow.py:564 | Without strings, the total's unit is the unit of the last item of the third phase. |
| Heartbeat.HeartbeatRecordsPrefixed | custom_components/powerocean/ecoflow.py:494-556 | Every id of the report starts with `{sn}_JTS1_EMS_HEARTBEAT_`. |
| Heartbeat.HeartbeatData | custom_components/powerocean/ecoflow.py:478-567 | Succeeds exactly when the report reads (Heartbeat.HeartbeatReads). The result is the records built from what was read, each under its own id. |
| Heartbeat.HeartbeatSensors | custom_components/powerocean/ecoflow.py:478-571 | The step succeeds exactly when the report's records can be read. Its result is `sensors` updated with those records. |
| Heartbeat.HeartbeatKeepsOthers | custom_components/powerocean/ecoflow.py:569 | The merge changes no entry outside the report's id prefix, and adds only ids under it. |
| Dispatch.GetSensors | custom_components/powerocean/ecoflow.py:191-249 | Fails when discovery fails. When it succeeds, it returns sensors exactly when discovery found two inverters, and otherwise `None`. Returned records sit under their own ids. Dispatch.GetSensorsSucceeds states when the two-inverter case succeeds. |
| Dispatch.InverterReads | custom_components/powerocean/ecoflow.py:216-236 | When all three reports of an inverter read: the change report is a dict, and the battery and heartbeat reports read. It has no contract of its own: it is the success condition of Dispatch.InverterSensorsSucceeds. |
| Dispatch.InverterSensorsSucceeds | custom_components/powerocean/ecoflow.py:225-227 | An inverter's three steps succeed exactly when its reports read, whatever the sensors already hold. |
| Dispatch.DiscoveryReadsData | custom_components/powerocean/ecoflow.py:209 | Once discovery succeeds, `data` is a dict, so the top-level readings succeed. |
| Dispatch.GetSensorsSteps | custom_components/powerocean/ecoflow.py:209-236 | With two inverters, a failing master step fails the request. Otherwise the request succeeds exactly when the slave step does. |
| Dispatch.GetSensorsSucceeds | custom_components/powerocean/ecoflow.py:196-236 | With two inverters, the request succeeds exactly when both inverters' reports read. |
| Dispatch.AfterMaster | custom_components/powerocean/ecoflow.py:209-227 | The sensors once the master's reports are in. It has no contract of its own: Dispatch.MasterSurvivesSlave and Dispatch.GetSensorsSteps state what it holds. |
| Dispatch.NoInvertersGiveNone | custom_components/powerocean/ecoflow.py:195 | In the model's reading of the empty branch, which is not valid Python, an empty `parallel` gives `None`. |
| Dispatch.ThreeInvertersGiveNone | custom_components/powerocean/ecoflow.py:247-249 | Three inverters give `None`. |
| Dispatch.TwoInvertersGiveSensors | custom_components/powerocean/ecoflow.py:196-246 | Two distinct dict entries in `parallel` whose reports all read give sensors. |
| Dispatch.InverterSensors | custom_components/powerocean/ecoflow.py:225-227 | One inverter's three report steps keep records under their own ids. |
| Dispatch.InverterKeepsOthers | custom_components/powerocean/ecoflow.py:225-236 | An inverter's reports change no entry outside `{sn}_JTS1_`, and add only ids under it. |
| Dispatch.OwnPrefixesSeparate | custom_components/powerocean/ecoflow.py:355-494 | No id lies under two of one inverter's report prefixes (change report, battery report, heartbeat). |
| Dispatch.InverterKeepsOwnReports | custom_components/powerocean/ecoflow.py:225-227 | Within one inverter, every record of the change report and of the battery report reaches the step's result unchanged: the later reports do not overwrite them. |
| Dispatch.TopLevelSurvives | custom_components/powerocean/ecoflow.py:209-236 | No inverter report overwrites a top-level reading, when the serials hold no underscore (the top-level keys never start with the `J` of `JTS1_`). |
| Dispatch.MasterSurvivesSlave | custom_components/powerocean/ecoflow.py:225-236 | The slave's reports never overwrite the master's records, when the two serials differ and hold no underscore. |

## Left out

- `authorize`, `get_json_response` and `fetch_data` (ecoflow.py:55-136) are
  left out. They do HTTP requests, base64 encoding of the password, and map
  network errors to `IntegrationError`. The model starts from the decoded
  response.
- `get_device` (ecoflow.py:41-53) is left out. It returns a constant device
  description.
- `__get_sensors_energy_stream` (ecoflow.py:324-352) is left out. It is
  commented out in the source.
- Logging (`_LOGGER.debug`) is left out. It has no effect on the result.
- `json_loads` is a parameter `decode`. The decoder itself is not part of this
  model.
- Floating-point rounding is not modelled. Sums and means are exact reals.
- Dispatch.GetSensors returns the dict. It does not model the attributes
  `master_sn`, `slave_sn`, `master_data` and `slave_data` that discovery
  stores on the object.
- Json.Index does not distinguish Python `int` and `str` dict keys, because
  every key in the model is text. Indexing a dict with an integer is modelled
  as a `KeyError` on the decimal text of the index.
- Heartbeat.HeartbeatFixed covers only allow-listed keys. It does not state
  which ids under `{sn}_JTS1_EMS_HEARTBEAT_{key}_` arise for keys outside the
  list, because report keys may contain underscores.
- Dispatch.TopLevelSurvives and Dispatch.MasterSurvivesSlave assume serial
  numbers without underscores. With underscores, ids of different serials can
  coincide, and the code then lets the later record win.
- Statements that rely on dict semantics assume no repeated keys
  (`DistinctKeys`). A Python dict guarantees this. The list representation does
  not.
- A JSON object with a repeated key is not reduced to the dict a decoder would
  build, which keeps one entry per key, at the first key's position, with the
  last value. Such a list has no Python counterpart. On it, Topology.SerialNumbers
  counts the repeated key twice, and Sensors.Emit (with the report functions
  built on it) makes a record from every binding it keeps, so an earlier
  binding's record can remain where Python sees only the last value. So Dispatch.GetSensors can differ from the
  program there. For example, `parallel` with keys A, B, A gives `None` in the
  model but two inverters in Python.
