/**
 * The register catalog of `const.py`: the frozen sensor and switch
 * descriptors, the value type of the register map, and the default
 * key-to-address map derived from the catalog (`get_default_registers`).
 */
module Const {
  import opened Wrappers

  /** How a sensor's register word is read (`RegisterDataType`). */
  datatype RegisterDataType = UINT16 | INT16

  /**
   * `WanasSensorDescription`; unit, device class and state class are
   * presentation only and left out. The defaults are the dataclass's.
   */
  datatype SensorDescription = SensorDescription(
    key: string,
    name: string,
    address: int,
    dataType: RegisterDataType := UINT16,
    scale: Option<real> := None)

  /** `WanasSwitchDescription`, with the dataclass's defaults. */
  datatype SwitchDescription = SwitchDescription(
    key: string,
    name: string,
    writeAddress: int,
    verifyAddress: int,
    onValue: int := 1,
    offValue: int := 0)

  /** A value of the register map (`int | str`): an address, or a display name. */
  datatype RegValue = Addr(address: int) | Text(text: string)

  const SENSOR_DESCRIPTIONS: seq<SensorDescription> := [
    SensorDescription("supply_airflow", "Wydatek nawiewu", 0),
    SensorDescription("exhaust_airflow", "Wydatek wywiewu", 1),
    SensorDescription("supply_fan_speed", "Bieg nawiewu", 2),
    SensorDescription("exhaust_fan_speed", "Bieg wywiewu", 3),
    SensorDescription("outdoor_temperature", "Temperatura zewnętrzna", 4, INT16, Some(0.1)),
    SensorDescription("exhaust_temperature", "Temperatura wyrzutowa", 5, INT16, Some(0.1)),
    SensorDescription("supply_temperature", "Temperatura nawiewu", 6, INT16, Some(0.1)),
    SensorDescription("indoor_temperature", "Temperatura wewnątrz", 7, INT16, Some(0.1)),
    SensorDescription("current_temperature", "Aktualna temperatura", 29, INT16, Some(0.1)),
    SensorDescription("bypass_state", "Stan bypass", 31),
    SensorDescription("humidifier_state", "Stan nawilżacza", 32),
    SensorDescription("heater_state", "Stan nagrzewnicy", 33),
    SensorDescription("cooler_state", "Stan chłodnicy", 34),
    SensorDescription("vacation_mode", "Tryb urlopowy", 35),
    SensorDescription("filter_replacement", "Wymiana filtra", 36),
    SensorDescription("party_time", "Impreza (czas)", 45, INT16, Some(0.17)),
    SensorDescription("fan_speed_1", "Bieg I", 46, INT16),
    SensorDescription("fan_speed_3", "Bieg III", 47, INT16),
    SensorDescription("hood_state", "Okap - stan", 48, INT16)
  ]

  const SWITCH_DESCRIPTIONS: seq<SwitchDescription> := [
    SwitchDescription("bypass", "Bypass", 39, 31),
    SwitchDescription("humidifier", "Nawilżacz", 40, 32),
    SwitchDescription("heater", "Nagrzewnica", 41, 33),
    SwitchDescription("cooler", "Chłodnica", 42, 34),
    SwitchDescription("vacation", "Urlop", 43, 35, onValue := 30),
    SwitchDescription("fireplace", "Kominek", 44, 44, onValue := 180),
    SwitchDescription("party", "Impreza", 45, 45, onValue := 720)
  ]

  // ---------------------------------------------------------------------
  // Register-map keys
  // ---------------------------------------------------------------------

  predicate EndsWith(s: string, suffix: string) {
    |suffix| <= |s| && s[|s| - |suffix|..] == suffix
  }

  /** `f"{key}_address"`: a sensor's address key. */
  function SensorKey(key: string): string {
    key + "_address"
  }

  /** `f"{key}_write_address"`: a switch's write-address key. */
  function WriteKey(key: string): string {
    key + "_write_address"
  }

  /** `f"{key}_verify_address"`: a switch's verify-address key. */
  function VerifyKey(key: string): string {
    key + "_verify_address"
  }

  /** `f"{key}_name"`: a sensor's display-name key. */
  function NameKey(key: string): string {
    key + "_name"
  }

  /** Sensor, write and verify keys all end in `_address`; name keys never do. */
  lemma KeySuffixes(key: string)
    ensures EndsWith(SensorKey(key), "_address")
    ensures EndsWith(WriteKey(key), "_address")
    ensures EndsWith(VerifyKey(key), "_address")
    ensures !EndsWith(NameKey(key), "_address")
  {
    var n := |key|;
    assert SensorKey(key)[n..] == "_address";
    assert WriteKey(key)[n + 6..] == "_write_address"[6..] == "_address";
    assert VerifyKey(key)[n + 7..] == "_verify_address"[7..] == "_address";
    var s := NameKey(key);
    assert s[|s| - 4] == 'n' != "_address"[4];
    assert |s| >= 8 ==> s[|s| - 8..][4] == s[|s| - 4];
  }

  lemma SuffixCancel(a: string, b: string, t: string)
    requires a + t == b + t
    ensures a == b
  {
    assert |a| == |b|;
    assert a == (a + t)[..|a|];
    assert b == (b + t)[..|b|];
  }

  /** No write key is a verify key, whatever the two switch keys are. */
  lemma WriteKeyNotVerifyKey(a: string, b: string)
    ensures WriteKey(a) != VerifyKey(b)
  {
    var s, t := WriteKey(a), VerifyKey(b);
    assert s[|s| - 9] == 'e';
    assert t[|t| - 9] == 'y';
  }

  // ---------------------------------------------------------------------
  // get_default_registers
  // ---------------------------------------------------------------------

  /** The entries the first loop of `get_default_registers` makes for `ds`. */
  function SensorEntries(ds: seq<SensorDescription>): map<string, int> {
    if ds == [] then map[]
    else
      var d := ds[|ds| - 1];
      SensorEntries(ds[..|ds| - 1])[SensorKey(d.key) := d.address]
  }

  /** `regs` after the second loop of `get_default_registers` has run over `ds`. */
  function SwitchEntries(regs: map<string, int>, ds: seq<SwitchDescription>): map<string, int> {
    if ds == [] then regs
    else
      var d := ds[|ds| - 1];
      SwitchEntries(regs, ds[..|ds| - 1])[WriteKey(d.key) := d.writeAddress][VerifyKey(d.key) := d.verifyAddress]
  }

  function DefaultRegisters(): map<string, int> {
    SwitchEntries(SensorEntries(SENSOR_DESCRIPTIONS), SWITCH_DESCRIPTIONS)
  }

  method GetDefaultRegisters() returns (regs: map<string, int>)
    ensures regs == DefaultRegisters()
  {
    regs := map[];
    for i := 0 to |SENSOR_DESCRIPTIONS|
      invariant regs == SensorEntries(SENSOR_DESCRIPTIONS[..i])
    {
      var desc := SENSOR_DESCRIPTIONS[i];
      SensorEntriesStep(SENSOR_DESCRIPTIONS, i);
      regs := regs[SensorKey(desc.key) := desc.address];
    }
    assert SENSOR_DESCRIPTIONS[..|SENSOR_DESCRIPTIONS|] == SENSOR_DESCRIPTIONS;
    ghost var sensors := regs;
    for i := 0 to |SWITCH_DESCRIPTIONS|
      invariant regs == SwitchEntries(sensors, SWITCH_DESCRIPTIONS[..i])
    {
      var desc := SWITCH_DESCRIPTIONS[i];
      SwitchEntriesStep(sensors, SWITCH_DESCRIPTIONS, i);
      regs := regs[WriteKey(desc.key) := desc.writeAddress];
      regs := regs[VerifyKey(desc.key) := desc.verifyAddress];
    }
    assert SWITCH_DESCRIPTIONS[..|SWITCH_DESCRIPTIONS|] == SWITCH_DESCRIPTIONS;
  }

  lemma SensorEntriesStep(ds: seq<SensorDescription>, i: nat)
    requires i < |ds|
    ensures SensorEntries(ds[..i + 1]) == SensorEntries(ds[..i])[SensorKey(ds[i].key) := ds[i].address]
  {
    assert ds[..i + 1][..i] == ds[..i];
  }

  lemma SwitchEntriesStep(regs: map<string, int>, ds: seq<SwitchDescription>, i: nat)
    requires i < |ds|
    ensures SwitchEntries(regs, ds[..i + 1])
      == SwitchEntries(regs, ds[..i])[WriteKey(ds[i].key) := ds[i].writeAddress][VerifyKey(ds[i].key) := ds[i].verifyAddress]
  {
    assert ds[..i + 1][..i] == ds[..i];
  }

  lemma SensorKeyInjective(a: string, b: string)
    ensures SensorKey(a) == SensorKey(b) ==> a == b
  {
    if SensorKey(a) == SensorKey(b) {
      SuffixCancel(a, b, "_address");
    }
  }

  function SensorKeys(ds: seq<SensorDescription>): set<string> {
    set d | d in ds :: SensorKey(d.key)
  }

  lemma SensorKeysSnoc(init: seq<SensorDescription>, d: SensorDescription)
    ensures SensorKeys(init + [d]) == SensorKeys(init) + {SensorKey(d.key)}
  {
    var ds := init + [d];
    forall k | k in SensorKeys(ds) ensures k in SensorKeys(init) + {SensorKey(d.key)} {
      var e :| e in ds && k == SensorKey(e.key);
      if e != d {
        assert e in init;
      }
    }
  }

  lemma SensorKeyFresh(init: seq<SensorDescription>, d: SensorDescription)
    requires forall e :: e in init ==> e.key != d.key
    ensures SensorKey(d.key) !in SensorKeys(init)
  {
    forall e | e in init ensures SensorKey(e.key) != SensorKey(d.key) {
      SensorKeyInjective(e.key, d.key);
    }
  }

  /** The keys the sensor loop inserts: one `_address` key per sensor, whatever the sensors are. */
  lemma {:induction false} SensorEntriesKeys(ds: seq<SensorDescription>)
    ensures SensorEntries(ds).Keys == SensorKeys(ds)
  {
    if ds != [] {
      var n := |ds| - 1;
      var d := ds[n];
      var init := ds[..n];
      SensorEntriesKeys(init);
      assert ds == init + [d];
      SensorKeysSnoc(init, d);
    }
  }

  /** The sensor loop inserts one entry per sensor when the sensor keys are distinct. */
  lemma {:induction false} SensorEntriesCount(ds: seq<SensorDescription>)
    requires forall i, j :: 0 <= i < j < |ds| ==> ds[i].key != ds[j].key
    ensures |SensorEntries(ds)| == |ds|
  {
    if ds != [] {
      var n := |ds| - 1;
      var d := ds[n];
      var init := ds[..n];
      SensorEntriesCount(init);
      SensorEntriesKeys(init);
      forall e | e in init ensures e.key != d.key {
        var i :| 0 <= i < n && init[i] == e;
        assert ds[i] == e;
      }
      SensorKeyFresh(init, d);
    }
  }

  /** Each sensor's key is mapped to its address when the sensor keys are distinct. */
  lemma {:induction false} SensorEntriesValues(ds: seq<SensorDescription>)
    requires forall i, j :: 0 <= i < j < |ds| ==> ds[i].key != ds[j].key
    ensures forall i :: 0 <= i < |ds| ==>
      SensorKey(ds[i].key) in SensorEntries(ds) && SensorEntries(ds)[SensorKey(ds[i].key)] == ds[i].address
  {
    if ds != [] {
      var n := |ds| - 1;
      var d := ds[n];
      var init := ds[..n];
      var m := SensorEntries(init);
      SensorEntriesValues(init);
      assert SensorEntries(ds) == m[SensorKey(d.key) := d.address];
      forall i | 0 <= i < n
        ensures SensorKey(ds[i].key) in SensorEntries(ds) && SensorEntries(ds)[SensorKey(ds[i].key)] == ds[i].address
      {
        assert ds[i] == init[i];
        SensorKeyInjective(ds[i].key, d.key);
      }
    }
  }

  /** Sensor keys of the catalog are pairwise distinct. */
  lemma CatalogSensorKeysDistinct()
    ensures forall i, j :: 0 <= i < j < |SENSOR_DESCRIPTIONS| ==>
      SENSOR_DESCRIPTIONS[i].key != SENSOR_DESCRIPTIONS[j].key
  {
  }

  /** Switch keys of the catalog are pairwise distinct. */
  lemma CatalogSwitchKeysDistinct()
    ensures forall i, j :: 0 <= i < j < |SWITCH_DESCRIPTIONS| ==>
      SWITCH_DESCRIPTIONS[i].key != SWITCH_DESCRIPTIONS[j].key
  {
  }

  lemma WriteKeyInjective(a: string, b: string)
    ensures WriteKey(a) == WriteKey(b) ==> a == b
  {
    if WriteKey(a) == WriteKey(b) {
      SuffixCancel(a, b, "_write_address");
    }
  }

  lemma VerifyKeyInjective(a: string, b: string)
    ensures VerifyKey(a) == VerifyKey(b) ==> a == b
  {
    if VerifyKey(a) == VerifyKey(b) {
      SuffixCancel(a, b, "_verify_address");
    }
  }

  function WriteKeys(ds: seq<SwitchDescription>): set<string> {
    set d | d in ds :: WriteKey(d.key)
  }

  function VerifyKeys(ds: seq<SwitchDescription>): set<string> {
    set d | d in ds :: VerifyKey(d.key)
  }

  lemma SwitchKeysSnoc(init: seq<SwitchDescription>, d: SwitchDescription)
    ensures WriteKeys(init + [d]) == WriteKeys(init) + {WriteKey(d.key)}
    ensures VerifyKeys(init + [d]) == VerifyKeys(init) + {VerifyKey(d.key)}
  {
    var ds := init + [d];
    forall k | k in WriteKeys(ds) ensures k in WriteKeys(init) + {WriteKey(d.key)} {
      var e :| e in ds && k == WriteKey(e.key);
      if e != d {
        assert e in init;
      }
    }
    forall k | k in VerifyKeys(ds) ensures k in VerifyKeys(init) + {VerifyKey(d.key)} {
      var e :| e in ds && k == VerifyKey(e.key);
      if e != d {
        assert e in init;
      }
    }
  }

  lemma SwitchKeysFresh(init: seq<SwitchDescription>, d: SwitchDescription)
    requires forall e :: e in init ==> e.key != d.key
    ensures WriteKey(d.key) !in WriteKeys(init) + VerifyKeys(init)
    ensures VerifyKey(d.key) !in WriteKeys(init) + VerifyKeys(init)
  {
    forall e | e in init
      ensures WriteKey(e.key) != WriteKey(d.key) && VerifyKey(e.key) != VerifyKey(d.key)
      ensures WriteKey(e.key) != VerifyKey(d.key) && VerifyKey(e.key) != WriteKey(d.key)
    {
      WriteKeyInjective(e.key, d.key);
      VerifyKeyInjective(e.key, d.key);
      WriteKeyNotVerifyKey(e.key, d.key);
      WriteKeyNotVerifyKey(d.key, e.key);
    }
  }

  /** The switch loop adds exactly the write and verify keys of `ds`. */
  lemma {:induction false} SwitchEntriesKeys(regs: map<string, int>, ds: seq<SwitchDescription>)
    ensures SwitchEntries(regs, ds).Keys == regs.Keys + WriteKeys(ds) + VerifyKeys(ds)
  {
    if ds != [] {
      var n := |ds| - 1;
      SwitchEntriesKeys(regs, ds[..n]);
      assert ds == ds[..n] + [ds[n]];
      SwitchKeysSnoc(ds[..n], ds[n]);
    }
  }

  /** With distinct switch keys, each switch's keys map to its write and verify addresses. */
  lemma {:induction false} SwitchEntriesValues(regs: map<string, int>, ds: seq<SwitchDescription>)
    requires forall i, j :: 0 <= i < j < |ds| ==> ds[i].key != ds[j].key
    ensures var r := SwitchEntries(regs, ds);
      forall i :: 0 <= i < |ds| ==>
        WriteKey(ds[i].key) in r && r[WriteKey(ds[i].key)] == ds[i].writeAddress &&
        VerifyKey(ds[i].key) in r && r[VerifyKey(ds[i].key)] == ds[i].verifyAddress
  {
    if ds != [] {
      var n := |ds| - 1;
      var d := ds[n];
      var init := ds[..n];
      SwitchEntriesValues(regs, init);
      var m := SwitchEntries(regs, init);
      var r := SwitchEntries(regs, ds);
      assert r == m[WriteKey(d.key) := d.writeAddress][VerifyKey(d.key) := d.verifyAddress];
      WriteKeyNotVerifyKey(d.key, d.key);
      forall i | 0 <= i < n
        ensures WriteKey(ds[i].key) in r && r[WriteKey(ds[i].key)] == ds[i].writeAddress
        ensures VerifyKey(ds[i].key) in r && r[VerifyKey(ds[i].key)] == ds[i].verifyAddress
      {
        assert ds[i] == init[i];
        assert ds[i].key != d.key;
        WriteKeyInjective(ds[i].key, d.key);
        VerifyKeyInjective(ds[i].key, d.key);
        WriteKeyNotVerifyKey(ds[i].key, d.key);
        WriteKeyNotVerifyKey(d.key, ds[i].key);
      }
    }
  }

  /** The switch loop keeps the entries of `regs` whose keys are not switch keys. */
  lemma {:induction false} SwitchEntriesKeep(regs: map<string, int>, ds: seq<SwitchDescription>, k: string)
    requires k in regs && k !in WriteKeys(ds) + VerifyKeys(ds)
    ensures k in SwitchEntries(regs, ds) && SwitchEntries(regs, ds)[k] == regs[k]
  {
    if ds != [] {
      var n := |ds| - 1;
      assert ds == ds[..n] + [ds[n]];
      SwitchKeysSnoc(ds[..n], ds[n]);
      SwitchEntriesKeep(regs, ds[..n], k);
    }
  }

  /** The switch loop adds two fresh entries per switch. */
  lemma {:induction false} SwitchEntriesCount(regs: map<string, int>, ds: seq<SwitchDescription>)
    requires forall i, j :: 0 <= i < j < |ds| ==> ds[i].key != ds[j].key
    requires regs.Keys !! WriteKeys(ds) + VerifyKeys(ds)
    ensures |SwitchEntries(regs, ds)| == |regs| + 2 * |ds|
  {
    if ds != [] {
      var n := |ds| - 1;
      var d := ds[n];
      var init := ds[..n];
      assert ds == init + [d];
      SwitchKeysSnoc(init, d);
      SwitchEntriesCount(regs, init);
      SwitchEntriesKeys(regs, init);
      SwitchLastKeyFresh(ds);
      SwitchKeysFresh(init, d);
      WriteKeyNotVerifyKey(d.key, d.key);
      TwoFreshEntries(SwitchEntries(regs, init), WriteKey(d.key), VerifyKey(d.key), d.writeAddress, d.verifyAddress);
    }
  }

  lemma SwitchLastKeyFresh(ds: seq<SwitchDescription>)
    requires ds != []
    requires forall i, j :: 0 <= i < j < |ds| ==> ds[i].key != ds[j].key
    ensures forall e :: e in ds[..|ds| - 1] ==> e.key != ds[|ds| - 1].key
  {
    var n := |ds| - 1;
    forall e | e in ds[..n] ensures e.key != ds[n].key {
      var i :| 0 <= i < n && ds[..n][i] == e;
      assert ds[i] == e;
    }
  }

  lemma TwoFreshEntries(m: map<string, int>, w: string, v: string, a: int, b: int)
    requires w !in m && v !in m && w != v
    ensures |m[w := a][v := b]| == |m| + 2
  {
    var m1 := m[w := a];
    assert m1.Keys == m.Keys + {w};
    assert v !in m1;
    assert m1[v := b].Keys == m1.Keys + {v};
  }

  /** A sensor key can only equal a switch key if the sensor key is the switch key plus `_write` or `_verify`. */
  lemma SensorKeyVersusSwitchKeys(a: string, b: string)
    ensures SensorKey(a) == WriteKey(b) ==> a == b + "_write"
    ensures SensorKey(a) == VerifyKey(b) ==> a == b + "_verify"
  {
    assert WriteKey(b) == (b + "_write") + "_address";
    assert VerifyKey(b) == (b + "_verify") + "_address";
    if SensorKey(a) == WriteKey(b) {
      SuffixCancel(a, b + "_write", "_address");
    }
    if SensorKey(a) == VerifyKey(b) {
      SuffixCancel(a, b + "_verify", "_address");
    }
  }

  lemma CatalogSensorKeySuffixes()
    ensures forall i :: 0 <= i < |SENSOR_DESCRIPTIONS| ==>
      !EndsWith(SENSOR_DESCRIPTIONS[i].key, "_write") && !EndsWith(SENSOR_DESCRIPTIONS[i].key, "_verify")
  {
  }

  lemma CatalogSensorKeysNotSwitchKeys()
    ensures SensorKeys(SENSOR_DESCRIPTIONS) !! WriteKeys(SWITCH_DESCRIPTIONS) + VerifyKeys(SWITCH_DESCRIPTIONS)
  {
    CatalogSensorKeySuffixes();
    forall sd, wd | sd in SENSOR_DESCRIPTIONS && wd in SWITCH_DESCRIPTIONS
      ensures SensorKey(sd.key) != WriteKey(wd.key) && SensorKey(sd.key) != VerifyKey(wd.key)
    {
      SensorKeyVersusSwitchKeys(sd.key, wd.key);
      assert EndsWith(wd.key + "_write", "_write");
      assert EndsWith(wd.key + "_verify", "_verify");
    }
  }

  /**
   * `get_default_registers` has one `{key}_address` entry per sensor and one
   * `{key}_write_address` and `{key}_verify_address` entry per switch, each
   * mapped to the descriptor's address, and no other key: 19 + 2 * 7 entries.
   */
  lemma DefaultRegistersSpec()
    ensures DefaultRegisters().Keys
      == SensorKeys(SENSOR_DESCRIPTIONS) + WriteKeys(SWITCH_DESCRIPTIONS) + VerifyKeys(SWITCH_DESCRIPTIONS)
    ensures |DefaultRegisters()| == 33
    ensures forall i :: 0 <= i < |SENSOR_DESCRIPTIONS| ==>
      var d := SENSOR_DESCRIPTIONS[i];
      SensorKey(d.key) in DefaultRegisters() && DefaultRegisters()[SensorKey(d.key)] == d.address
    ensures forall i :: 0 <= i < |SWITCH_DESCRIPTIONS| ==>
      var d := SWITCH_DESCRIPTIONS[i];
      && WriteKey(d.key) in DefaultRegisters() && DefaultRegisters()[WriteKey(d.key)] == d.writeAddress
      && VerifyKey(d.key) in DefaultRegisters() && DefaultRegisters()[VerifyKey(d.key)] == d.verifyAddress
  {
    DefaultRegistersKeys();
    DefaultRegistersCount();
    DefaultRegistersSensorValues();
    DefaultRegistersSwitchValues();
  }

  lemma DefaultRegistersKeys()
    ensures DefaultRegisters().Keys
      == SensorKeys(SENSOR_DESCRIPTIONS) + WriteKeys(SWITCH_DESCRIPTIONS) + VerifyKeys(SWITCH_DESCRIPTIONS)
  {
    SensorEntriesKeys(SENSOR_DESCRIPTIONS);
    SwitchEntriesKeys(SensorEntries(SENSOR_DESCRIPTIONS), SWITCH_DESCRIPTIONS);
  }

  lemma DefaultRegistersCount()
    ensures |DefaultRegisters()| == 33
  {
    var sensors := SensorEntries(SENSOR_DESCRIPTIONS);
    CatalogSensorKeysDistinct();
    CatalogSwitchKeysDistinct();
    CatalogSensorKeysNotSwitchKeys();
    SensorEntriesKeys(SENSOR_DESCRIPTIONS);
    SensorEntriesCount(SENSOR_DESCRIPTIONS);
    SwitchEntriesCount(sensors, SWITCH_DESCRIPTIONS);
  }

  lemma DefaultRegistersSwitchValues()
    ensures forall i :: 0 <= i < |SWITCH_DESCRIPTIONS| ==>
      var d := SWITCH_DESCRIPTIONS[i];
      && WriteKey(d.key) in DefaultRegisters() && DefaultRegisters()[WriteKey(d.key)] == d.writeAddress
      && VerifyKey(d.key) in DefaultRegisters() && DefaultRegisters()[VerifyKey(d.key)] == d.verifyAddress
  {
    CatalogSwitchKeysDistinct();
    SwitchEntriesValues(SensorEntries(SENSOR_DESCRIPTIONS), SWITCH_DESCRIPTIONS);
  }

  lemma DefaultRegistersSensorValues()
    ensures forall i :: 0 <= i < |SENSOR_DESCRIPTIONS| ==>
      var d := SENSOR_DESCRIPTIONS[i];
      SensorKey(d.key) in DefaultRegisters() && DefaultRegisters()[SensorKey(d.key)] == d.address
  {
    var sensors := SensorEntries(SENSOR_DESCRIPTIONS);
    CatalogSensorKeysDistinct();
    CatalogSensorKeysNotSwitchKeys();
    SensorEntriesKeys(SENSOR_DESCRIPTIONS);
    SensorEntriesValues(SENSOR_DESCRIPTIONS);
    forall i | 0 <= i < |SENSOR_DESCRIPTIONS|
      ensures var d := SENSOR_DESCRIPTIONS[i];
        SensorKey(d.key) in DefaultRegisters() && DefaultRegisters()[SensorKey(d.key)] == d.address
    {
      var d := SENSOR_DESCRIPTIONS[i];
      assert SensorKey(d.key) in SensorKeys(SENSOR_DESCRIPTIONS);
      SwitchEntriesKeep(sensors, SWITCH_DESCRIPTIONS, SensorKey(d.key));
    }
  }

  /** The dataclass defaults: UINT16 without scale; on value 1 and off value 0. */
  lemma DescriptorDefaults(key: string, name: string, address: int, writeAddress: int, verifyAddress: int)
    ensures SensorDescription(key, name, address).dataType == UINT16
    ensures SensorDescription(key, name, address).scale == None
    ensures SwitchDescription(key, name, writeAddress, verifyAddress).onValue == 1
    ensures SwitchDescription(key, name, writeAddress, verifyAddress).offValue == 0
  {
  }

  /**
   * Every catalog switch is off at 0; vacation, fireplace and party switch on
   * with 30, 180 and 720, the others with 1.
   */
  lemma CatalogSwitchValues()
    ensures forall d :: d in SWITCH_DESCRIPTIONS ==> d.offValue == 0 && d.onValue != d.offValue
    ensures forall d :: d in SWITCH_DESCRIPTIONS ==>
      d.onValue == (if d.key == "vacation" then 30
                    else if d.key == "fireplace" then 180
                    else if d.key == "party" then 720
                    else 1)
  {
  }

  /**
   * Fireplace and party write and read back the same register (44 and 45);
   * register 45 is also the `party_time` sensor.
   */
  lemma CatalogSharedAddresses()
    ensures SWITCH_DESCRIPTIONS[5].key == "fireplace"
      && SWITCH_DESCRIPTIONS[5].writeAddress == SWITCH_DESCRIPTIONS[5].verifyAddress == 44
    ensures SWITCH_DESCRIPTIONS[6].key == "party"
      && SWITCH_DESCRIPTIONS[6].writeAddress == SWITCH_DESCRIPTIONS[6].verifyAddress == 45
    ensures SENSOR_DESCRIPTIONS[15].key == "party_time" && SENSOR_DESCRIPTIONS[15].address == 45
    ensures forall i :: 0 <= i < 5 ==> SWITCH_DESCRIPTIONS[i].writeAddress != SWITCH_DESCRIPTIONS[i].verifyAddress
  {
  }
}
