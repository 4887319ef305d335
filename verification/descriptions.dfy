/** Human-readable descriptions of sensor keys (`__get_description`). */
module Descriptions {

  /** The keys that have a fixed description, with their texts. */
  const DescriptionTable: map<string, string> := map[
    "sysLoadPwr" := "Hausnetz",
    "sysGridPwr" := "Stromnetz",
    "mpptPwr" := "Solarertrag",
    "bpPwr" := "Batterieleistung",
    "bpSoc" := "Ladezustand der Batterie",
    "online" := "Online",
    "systemName" := "System Name",
    "createTime" := "Installations Datum",
    "bpVol" := "Batteriespannung",
    "bpAmp" := "Batteriestrom",
    "bpCycles" := "Ladezyklen",
    "bpTemp" := "Temperatur der Batteriezellen"
  ]

  /** The description of a key: the key itself, overwritten by each matching
      test in turn (at most one test can match). */
  function GetDescription(key: string): string {
    var d0 := key;
    var d1 := if key == "sysLoadPwr" then "Hausnetz" else d0;
    var d2 := if key == "sysGridPwr" then "Stromnetz" else d1;
    var d3 := if key == "mpptPwr" then "Solarertrag" else d2;
    var d4 := if key == "bpPwr" then "Batterieleistung" else d3;
    var d5 := if key == "bpSoc" then "Ladezustand der Batterie" else d4;
    var d6 := if key == "online" then "Online" else d5;
    var d7 := if key == "systemName" then "System Name" else d6;
    var d8 := if key == "createTime" then "Installations Datum" else d7;
    var d9 := if key == "bpVol" then "Batteriespannung" else d8;
    var d10 := if key == "bpAmp" then "Batteriestrom" else d9;
    var d11 := if key == "bpCycles" then "Ladezyklen" else d10;
    if key == "bpTemp" then "Temperatur der Batteriezellen" else d11
  }

  /** A key in the table gets its fixed text; any other key is its own description. */
  lemma DescriptionIsTableOrKey(key: string)
    ensures key in DescriptionTable ==> GetDescription(key) == DescriptionTable[key]
    ensures key !in DescriptionTable ==> GetDescription(key) == key
  {
  }
}
