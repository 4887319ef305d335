/** Unit inference from a sensor key's spelling (`__get_unit`). */
module Units {
  import opened Wrappers
  import opened Strings

  datatype Unit = Watt | Ampere | Percent | Volt | WattHour | KiloWattHour | Celsius {
    /** The unit string the integration reports. */
    function Symbol(): string {
      match this
      case Watt => "W"
      case Ampere => "A"
      case Percent => "%"
      case Volt => "V"
      case WattHour => "Wh"
      case KiloWattHour => "kWh"
      case Celsius => "°C"
    }
  }

  /** The three kinds of test the rules apply to a key. */
  datatype KeyTest =
    | EndsWithOneOf(suffixes: seq<string>)
    | HasInfix(infix: string)
    | StartsWithText(prefix: string)

  predicate Passes(t: KeyTest, key: string) {
    match t
    case EndsWithOneOf(suffixes) => EndsWithAny(key, suffixes)
    case HasInfix(infix) => Contains(key, infix)
    case StartsWithText(prefix) => StartsWith(key, prefix)
  }

  /** The naming conventions, highest priority first. */
  const UnitRules: seq<(KeyTest, Unit)> := [
    (EndsWithOneOf(["pwr", "Pwr", "Power"]), Watt),
    (EndsWithOneOf(["amp", "Amp"]), Ampere),
    (EndsWithOneOf(["soc", "Soc", "soh", "Soh"]), Percent),
    (EndsWithOneOf(["vol", "Vol"]), Volt),
    (EndsWithOneOf(["Watth", "Energy"]), WattHour),
    (HasInfix("Generation"), KiloWattHour),
    (StartsWithText("bpTemp"), Celsius)
  ]

  /** Rule `i` is the first rule of the table that `key` passes. */
  ghost predicate FirstPassedRule(key: string, i: int) {
    && 0 <= i < |UnitRules|
    && Passes(UnitRules[i].0, key)
    && forall j :: 0 <= j < i ==> !Passes(UnitRules[j].0, key)
  }

  /** The unit of a key, tried rule by rule in the order the source writes them. */
  function GetUnit(key: string): Option<Unit> {
    if EndsWithAny(key, ["pwr", "Pwr", "Power"]) then Some(Watt)
    else if EndsWithAny(key, ["amp", "Amp"]) then Some(Ampere)
    else if EndsWithAny(key, ["soc", "Soc", "soh", "Soh"]) then Some(Percent)
    else if EndsWithAny(key, ["vol", "Vol"]) then Some(Volt)
    else if EndsWithAny(key, ["Watth", "Energy"]) then Some(WattHour)
    else if Contains(key, "Generation") then Some(KiloWattHour)
    else if StartsWith(key, "bpTemp") then Some(Celsius)
    else None
  }

  /** Each row of the table applies the test written in `GetUnit`. */
  lemma RuleTests(key: string)
    ensures Passes(UnitRules[0].0, key) == EndsWithAny(key, ["pwr", "Pwr", "Power"])
    ensures Passes(UnitRules[1].0, key) == EndsWithAny(key, ["amp", "Amp"])
    ensures Passes(UnitRules[2].0, key) == EndsWithAny(key, ["soc", "Soc", "soh", "Soh"])
    ensures Passes(UnitRules[3].0, key) == EndsWithAny(key, ["vol", "Vol"])
    ensures Passes(UnitRules[4].0, key) == EndsWithAny(key, ["Watth", "Energy"])
    ensures Passes(UnitRules[5].0, key) == Contains(key, "Generation")
    ensures Passes(UnitRules[6].0, key) == StartsWith(key, "bpTemp")
  {
  }

  /** The rule table read from row `i` on: the unit of the first row the key
      passes. */
  function TableUnit(key: string, i: nat): Option<Unit>
    requires i <= |UnitRules|
    decreases |UnitRules| - i
  {
    if i == |UnitRules| then None
    else if Passes(UnitRules[i].0, key) then Some(UnitRules[i].1)
    else TableUnit(key, i + 1)
  }

  /** Reading the table from a row that no earlier row beats finds the first
      row the key passes, and nothing exactly when no later row passes. */
  lemma {:induction false} TableUnitIsFirst(key: string, i: nat)
    requires i <= |UnitRules|
    requires forall j :: 0 <= j < i ==> !Passes(UnitRules[j].0, key)
    ensures TableUnit(key, i).None? <==> forall j :: i <= j < |UnitRules| ==> !Passes(UnitRules[j].0, key)
    ensures TableUnit(key, i).Some? ==>
      exists j :: FirstPassedRule(key, j) && UnitRules[j].1 == TableUnit(key, i).value
    decreases |UnitRules| - i
  {
    if i < |UnitRules| {
      if Passes(UnitRules[i].0, key) {
        assert FirstPassedRule(key, i);
      } else {
        TableUnitIsFirst(key, i + 1);
      }
    }
  }

  /** Reading the table from row `i` skips the rows before the first one the
      key passes. */
  lemma {:induction false} TableUnitSkips(key: string, i: nat, k: nat)
    requires i <= k < |UnitRules|
    requires forall j :: i <= j < k ==> !Passes(UnitRules[j].0, key)
    requires Passes(UnitRules[k].0, key)
    ensures TableUnit(key, i) == Some(UnitRules[k].1)
    decreases k - i
  {
    if i < k {
      TableUnitSkips(key, i + 1, k);
    }
  }

  /** The chain of tests in `GetUnit` is the table read from the top. */
  lemma UnitIsTableUnit(key: string)
    ensures GetUnit(key) == TableUnit(key, 0)
  {
    RuleTests(key);
    assert TableUnit(key, 6) == if StartsWith(key, "bpTemp") then Some(Celsius) else None;
    assert TableUnit(key, 5) == if Contains(key, "Generation") then Some(KiloWattHour) else TableUnit(key, 6);
    assert TableUnit(key, 4) == if EndsWithAny(key, ["Watth", "Energy"]) then Some(WattHour) else TableUnit(key, 5);
    assert TableUnit(key, 3) == if EndsWithAny(key, ["vol", "Vol"]) then Some(Volt) else TableUnit(key, 4);
    assert TableUnit(key, 2) == if EndsWithAny(key, ["soc", "Soc", "soh", "Soh"]) then Some(Percent) else TableUnit(key, 3);
    assert TableUnit(key, 1) == if EndsWithAny(key, ["amp", "Amp"]) then Some(Ampere) else TableUnit(key, 2);
  }

  /** The chain of tests in `GetUnit` is the rule table read top to bottom: the
      unit is that of the first rule the key passes, and there is none exactly
      when the key passes no rule. */
  lemma UnitIsFirstPassedRule(key: string)
    ensures GetUnit(key).None? <==> forall i :: 0 <= i < |UnitRules| ==> !Passes(UnitRules[i].0, key)
    ensures GetUnit(key).Some? ==> exists i :: FirstPassedRule(key, i) && UnitRules[i].1 == GetUnit(key).value
  {
    UnitIsTableUnit(key);
    TableUnitIsFirst(key, 0);
  }

  /** The last letters of the suffixes of the first five rules. */
  const SuffixEndings: string := "rpchly"

  /** A key whose last letter ends no suffix passes none of the suffix rules,
      so only the `Generation` and `bpTemp` rules can give it a unit. */
  lemma UnitWithoutSuffix(key: string)
    requires |key| > 0 && key[|key| - 1] !in SuffixEndings
    ensures GetUnit(key) ==
      if Contains(key, "Generation") then Some(KiloWattHour)
      else if StartsWith(key, "bpTemp") then Some(Celsius)
      else None
  {
    RuleTests(key);
    SuffixRuleFails(key, 0);
    SuffixRuleFails(key, 1);
    SuffixRuleFails(key, 2);
    SuffixRuleFails(key, 3);
    SuffixRuleFails(key, 4);
  }

  /** Each suffix of rule `i` ends with one of `SuffixEndings`. */
  lemma SuffixRuleFails(key: string, i: nat)
    requires i < 5
    requires |key| > 0 && key[|key| - 1] !in SuffixEndings
    ensures !Passes(UnitRules[i].0, key)
  {
    var c := key[|key| - 1];
    assert c != 'r' && c != 'p' && c != 'c' && c != 'h' && c != 'l' && c != 'y' by {
      assert SuffixEndings == ['r', 'p', 'c', 'h', 'l', 'y'];
    }
    var suffixes := UnitRules[i].0.suffixes;
    LastLetterRulesOut(key, suffixes);
  }

  /** No suffix ends a key whose last letter ends none of them. */
  lemma LastLetterRulesOut(key: string, suffixes: seq<string>)
    requires |key| > 0
    requires forall t :: t in suffixes ==> |t| > 0 && t[|t| - 1] != key[|key| - 1]
    ensures !EndsWithAny(key, suffixes)
  {
    forall t | t in suffixes
      ensures !EndsWith(key, t)
    {
      LastLetterDiffers(key, t);
    }
    EndsWithNone(key, suffixes);
  }

  lemma LastLetterDiffers(key: string, t: string)
    requires |key| > 0 && |t| > 0 && key[|key| - 1] != t[|t| - 1]
    ensures !EndsWith(key, t)
  {
  }

  /** Two suffixes that do not end with one another cannot both end a key that
      ends with the first. */
  lemma NotBothSuffixes(prefix: string, s: string, t: string)
    requires !EndsWith(s, t) && !EndsWith(t, s)
    ensures !EndsWith(prefix + s, t)
  {
    if |t| <= |s| {
      EndsWithAppend(prefix, s, t);
    }
  }

  /** The suffix rules decide a key by its ending alone: whatever precedes a
      suffix of the first five rules, the key gets that rule's unit (no suffix
      of one rule is a suffix of another's, so rule order never matters here). */
  lemma SuffixDecidesUnit(prefix: string, i: nat, j: nat)
    requires i < 5 && j < |UnitRules[i].0.suffixes|
    ensures GetUnit(prefix + UnitRules[i].0.suffixes[j]) == Some(UnitRules[i].1)
  {
    var s := UnitRules[i].0.suffixes[j];
    forall k: nat, m: nat | k < i && m < |UnitRules[k].0.suffixes|
      ensures !EndsWith(prefix + s, UnitRules[k].0.suffixes[m])
    {
      var t := UnitRules[k].0.suffixes[m];
      assert !EndsWith(s, t) && !EndsWith(t, s);
      NotBothSuffixes(prefix, s, t);
    }
    forall k | 0 <= k < i
      ensures !Passes(UnitRules[k].0, prefix + s)
    {
      EndsWithNone(prefix + s, UnitRules[k].0.suffixes);
    }
    assert EndsWith(prefix + s, s);
    UnitIsTableUnit(prefix + s);
    TableUnitSkips(prefix + s, 0, i);
  }

  /** `bpTemp` passes only the prefix rule, the last of the table, so it is in °C. */
  lemma ExampleTemperature()
    ensures GetUnit("bpTemp") == Some(Celsius)
  {
    assert "bpTemp"[5] == 'p' && "bpTemp"[3] == 'e';
    assert StartsWith("bpTemp", "bpTemp");
  }

  /** `xGenerationEnergy` passes both the `Energy` and the `Generation` rule; the
      earlier rule wins. */
  lemma ExampleEnergyBeforeGeneration()
    ensures GetUnit("xGenerationEnergy") == Some(WattHour)
  {
    assert "xGenerationEnergy" == "xGeneration" + "Energy";
    SuffixDecidesUnit("xGeneration", 4, 1);
  }

  lemma ExampleGeneration()
    ensures GetUnit("todayElectricityGeneration") == Some(KiloWattHour)
  {
    var g := "todayElectricityGeneration";
    assert g[25] == 'n';
    UnitWithoutSuffix(g);
    assert g == "todayElectricity" + "Generation" + "";
    ContainsInfix("todayElectricity", "Generation", "");
  }

  lemma ExampleAmpere()
    ensures GetUnit("bpAmp") == Some(Ampere)
  {
    assert "bpAmp" == "bp" + "Amp";
    SuffixDecidesUnit("bp", 1, 1);
  }

  /** Keys that pass no rule have no unit. */
  lemma ExampleNoUnit()
    ensures GetUnit("bpCycles") == None
    ensures GetUnit("online") == None
  {
    assert "bpCycles"[7] == 's' && "bpCycles"[2] == 'C';
    UnitWithoutSuffix("bpCycles");
    ContainsShort("bpCycles", "Generation");
    assert "online"[5] == 'e';
    UnitWithoutSuffix("online");
    ContainsShort("online", "Generation");
  }
}
