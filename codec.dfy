/**
 * Register decoding (`WanasCoordinator.get_sensor_value` in
 * `coordinator.py`): a missing address reads as absent; INT16 reinterprets
 * the 16-bit word as two's complement (`ctypes.c_int16`); UINT16 passes the
 * word through.
 */
module Codec {
  import opened Wrappers
  import opened Const

  const WORD_SPAN := 0x1_0000

  /** A raw holding-register word as the device reports it. */
  type Word = w: int | 0 <= w < 0x1_0000

  /** The latest poll: register address to raw word. */
  type Snapshot = map<int, Word>

  /**
   * A decoded value: the (sign-adjusted) integer, or that integer paired
   * with the descriptor's scale, standing for `round(value * scale, 1)`.
   */
  datatype Reading = Plain(value: int) | Scaled(value: int, scale: real)

  /** `ctypes.c_int16(raw).value`: keep the low 16 bits, read them as two's complement. */
  function ToInt16(raw: int): (v: int)
    ensures -0x8000 <= v < 0x8000
    ensures (raw - v) % WORD_SPAN == 0
  {
    var low := raw % WORD_SPAN;
    if low >= 0x8000 then low - WORD_SPAN else low
  }

  /** The 16-bit pattern of a signed value (two's complement). */
  function ToWord(v: int): (w: Word)
    ensures (v - w) % WORD_SPAN == 0
  {
    v % WORD_SPAN
  }

  /** On a device word, INT16 subtracts 65536 exactly from the words 32768 and up. */
  lemma Int16OfWord(raw: Word)
    ensures ToInt16(raw) == if raw >= 0x8000 then raw - WORD_SPAN else raw
  {
  }

  /** Reading a word as INT16 and encoding it again gives the word back. */
  lemma WordRoundTrip(raw: Word)
    ensures ToWord(ToInt16(raw)) == raw
  {
  }

  /** Every signed 16-bit value survives encoding and decoding. */
  lemma Int16RoundTrip(v: int)
    requires -0x8000 <= v < 0x8000
    ensures ToInt16(ToWord(v)) == v
  {
  }

  /** The value a register holding `raw` decodes to, before scaling. */
  function Decode(raw: Word, dataType: RegisterDataType): (v: int)
    ensures dataType == UINT16 ==> v == raw
    ensures dataType == INT16 ==> -0x8000 <= v < 0x8000 && ToWord(v) == raw
  {
    match dataType
    case UINT16 => raw
    case INT16 => ToInt16(raw)
  }

  /**
   * `get_sensor_value(data, address, data_type, scale)`. The address is the
   * register-map value the entity looked up; a text value is never a key of
   * the snapshot.
   */
  function GetSensorValue(data: Snapshot, address: RegValue, dataType: RegisterDataType, scale: Option<real>)
    : (r: Option<Reading>)
    ensures r == None <==> !(address.Addr? && address.address in data)
    ensures r != None ==> r.value.value == Decode(data[address.address], dataType)
    ensures r != None ==> (r.value.Plain? <==> scale == None)
    ensures r != None && scale != None ==> r.value.scale == scale.value
  {
    if !address.Addr? || address.address !in data then None
    else
      var raw := Decode(data[address.address], dataType);
      match scale
      case None => Some(Plain(raw))
      case Some(s) => Some(Scaled(raw, s))
  }
}
