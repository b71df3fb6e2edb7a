/**
 * `WanasSensor` of `sensor.py`: a sensor reads its register from the last
 * polled data through `get_sensor_value`, at the address the register map
 * gives it, and takes its display name from the map when an option sets one.
 */
module Sensor {
  import opened Wrappers
  import opened Const
  import opened Codec
  import opened Coordinator

  /** The map's `<key>_address` entry, else the description's address. */
  function SensorAddress(registers: map<string, RegValue>, d: SensorDescription): RegValue {
    if SensorKey(d.key) in registers then registers[SensorKey(d.key)] else Addr(d.address)
  }

  /**
   * `native_value`: nothing before the first poll; otherwise the reading of
   * the sensor's register, decoded with the description's type and scale.
   */
  function NativeValue(data: Option<Snapshot>, registers: map<string, RegValue>, d: SensorDescription)
    : (r: Option<Reading>)
    ensures data == None ==> r == None
    ensures data != None ==>
      (r == None <==> !(SensorAddress(registers, d).Addr? && SensorAddress(registers, d).address in data.value))
    ensures r != None ==>
      && r.value.value == Decode(data.value[SensorAddress(registers, d).address], d.dataType)
      && (r.value.Scaled? <==> d.scale != None)
      && (r.value.Scaled? ==> r.value.scale == d.scale.value)
  {
    if data == None then None
    else GetSensorValue(data.value, SensorAddress(registers, d), d.dataType, d.scale)
  }

  /** The name `__init__` gives the entity: the map's `<key>_name` entry, else the description's name. */
  function DisplayName(registers: map<string, RegValue>, d: SensorDescription): RegValue {
    if NameKey(d.key) in registers then registers[NameKey(d.key)] else Text(d.name)
  }

  /**
   * The catalog defaults hold no name entries, so a sensor is named by its
   * description unless an option renames it.
   */
  lemma DisplayNameDefault(overrides: map<string, RegValue>, d: SensorDescription)
    ensures DisplayName(EffectiveRegisters(DefaultRegisters(), overrides), d)
      == if NameKey(d.key) in overrides then overrides[NameKey(d.key)] else Text(d.name)
  {
    DefaultRegistersSpec();
    KeySuffixes(d.key);
    if NameKey(d.key) in DefaultRegisters() {
      DefaultKeysAreAddressKeys(NameKey(d.key));
    }
  }

  /** Every key of the default map ends in `_address`. */
  lemma DefaultKeysAreAddressKeys(k: string)
    requires k in DefaultRegisters()
    ensures EndsWith(k, "_address")
  {
    DefaultRegistersSpec();
    if k in SensorKeys(SENSOR_DESCRIPTIONS) {
      var d :| d in SENSOR_DESCRIPTIONS && k == SensorKey(d.key);
      KeySuffixes(d.key);
    } else if k in WriteKeys(SWITCH_DESCRIPTIONS) {
      var d :| d in SWITCH_DESCRIPTIONS && k == WriteKey(d.key);
      KeySuffixes(d.key);
    } else {
      var d :| d in SWITCH_DESCRIPTIONS && k == VerifyKey(d.key);
      KeySuffixes(d.key);
    }
  }

  /**
   * After a poll in which every block returned in full, a catalog sensor
   * whose address is an int has a value: the word its block returned,
   * decoded with the sensor's type, scaled exactly when the sensor has a scale,
 * and then by that scale.
   */
  lemma NativeValueAfterPoll(c: WanasCoordinator, outcomes: seq<ReadOutcome>, i: nat)
    requires c.Valid() && FullReads(c.readBlocks, outcomes)
    requires i < |SENSOR_DESCRIPTIONS|
    requires SensorKey(SENSOR_DESCRIPTIONS[i].key) in c.registers
    requires c.registers[SensorKey(SENSOR_DESCRIPTIONS[i].key)].Addr?
    ensures var d := SENSOR_DESCRIPTIONS[i];
      var a := c.registers[SensorKey(d.key)].address;
      var data := Merge(c.readBlocks, outcomes);
      var r := NativeValue(Some(data), c.registers, d);
      && a in data && r != None
      && r.value.value == Decode(data[a], d.dataType)
      && (r.value.Scaled? <==> d.scale != None)
      && (r.value.Scaled? ==> r.value.scale == d.scale.value)
  {
    AddressKeysPlanned(c.registers, SENSOR_DESCRIPTIONS[i].key);
    PolledAddressesPresent(c, outcomes);
  }

  /**
   * A signed catalog temperature reads register value 0xFFFF as -1 tenth of a
   * degree, and 0x00C8 as 200 tenths.
   */
  lemma SignedTemperature(data: Snapshot)
    ensures var d := SENSOR_DESCRIPTIONS[4];
      && d.key == "outdoor_temperature"
      && NativeValue(Some(data[4 := 0xFFFF]), map[], d) == Some(Scaled(-1, 0.1))
      && NativeValue(Some(data[4 := 0x00C8]), map[], d) == Some(Scaled(200, 0.1))
  {
    Int16OfWord(0xFFFF);
    Int16OfWord(0x00C8);
  }
}
