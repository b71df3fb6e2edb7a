# Wanas heat-recovery unit over Modbus — a Dafny model

The `wanas` Home Assistant integration polls a Wanas ventilation unit over
Modbus. Its coordinator builds an effective register map from a built-in
catalog and the user's options. It plans the holding-register reads once,
grouping nearby addresses into blocks. On every poll it reads the blocks
and hands the entities an address-to-word map. Sensors decode their word;
switches compare their verify word with their off value and write their on
or off value to their write register.

This project models that core in Dafny 4.11:

- `read_blocks.dfy` (`ReadBlocks`): the read-block planner
  `_build_read_blocks`. It is a loop method proved equal to the
  specification function `Plan`. Lemmas about `Plan` cover coverage,
  ordering, gaps and order independence.
- `codec.dfy` (`Codec`): `get_sensor_value`, with `ctypes.c_int16` written
  out as arithmetic modulo 65536.
- `const.dfy` (`Const`): the sensor and switch catalog with the dataclass
  defaults, and `get_default_registers` as a two-loop method proved equal to
  a fold.
- `coordinator.dfy` (`Coordinator`): the effective register map, the
  planner input, and the class `WanasCoordinator`. Its `client` field is
  none, connected or disconnected. It has `_get_client`, `_read_registers`,
  `_async_update_data`, `async_write_register` and `async_close`, all over an
  abstract transport.
- `catalog_plan.dfy` (`CatalogPlan`): the concrete plan of an unconfigured
  coordinator, which is two reads, registers 0-7 and 29-48.
- `switch.dfy` (`Switch`) and `sensor.dfy` (`Sensor`): the entity rules
  (`_write_address`, `_verify_address`, `is_on`, turn on/off, `native_value`
  and the display name).
- `wrappers.dfy` (`Wrappers`): `Option` and `Result`.

The pymodbus client is a transport whose behaviour is an input to each
operation:

- `connect` returns True, returns False, or raises.
- A read returns registers, returns an error response, or raises.
- A write returns a normal response, returns an error response, or raises.

The coordinator records every request it hands to the transport in `sent`.
It counts `async_request_refresh` calls in `refreshRequests`.
`ConnectionDropped` stands for the transport losing the link under a live
client (`connected` turning false). The source does not do this itself. A
refused connect already leaves a disconnected client (`GetClient`); this
method only adds the move from connected to disconnected, after which
`GetClient` connects again. No contract or lemma relies on it.

## Model

The fallback lookups `Switch.WriteAddress` and `Switch.VerifyAddress`
(`_write_address`, `_verify_address`), `Sensor.SensorAddress` (the address
`native_value` reads) and `Sensor.DisplayName` (the name override in
`__init__`) have no row of their own. The rows for
`Switch.CatalogSwitchAddresses`, `Switch.IsOn`, `Switch.TurnOn`,
`Switch.TurnOff`, `Sensor.NativeValue` and `Sensor.DisplayNameDefault` state
what they return.

| member | source | states |
|---|---|---|
| ReadBlocks.SortedDistinct | custom_components/wanas/coordinator.py:42 | `sorted(set(addresses))` is strictly increasing and has exactly the input's elements |
| ReadBlocks.SortedUnique | custom_components/wanas/coordinator.py:42 | two strictly increasing sequences with the same elements are equal, so the sorted form is unique |
| ReadBlocks.BuildReadBlocks | custom_components/wanas/coordinator.py:33-56 | the loop over the sorted addresses, which opens, extends and closes blocks, returns exactly the specified plan `Plan(addresses, maxGap)` |
| ReadBlocks.PlanShape | custom_components/wanas/coordinator.py:39-55 | the plan is empty iff the input is; every count is at least 1; every block starts and ends on an input address; blocks are ascending and non-overlapping; the next start is more than `maxGap` past the previous end |
| ReadBlocks.PlanCoverage | custom_components/wanas/coordinator.py:42-55 | every input address lies in some block's range `[start, start+count)`, and in no other block |
| ReadBlocks.PlanGaps | custom_components/wanas/coordinator.py:47-53 | two consecutive sorted addresses are in the same block iff their difference is at most `maxGap`, so an equal gap extends the block |
| ReadBlocks.PlanDependsOnlyOnSet | custom_components/wanas/coordinator.py:42 | inputs with the same set of addresses give the same plan, whatever their duplicates and order |
| ReadBlocks.PlanCovered | custom_components/wanas/coordinator.py:42-55 | planning every register that a list of ascending blocks reads (`Covered`, each block's `[start, start+count)` in order) gives back exactly those blocks, when every block is non-empty, holds a single register unless `maxGap` is at least 1, and lies more than `maxGap` past the previous one |
| ReadBlocks.PlanIdempotent | custom_components/wanas/coordinator.py:33-56 | for every input and every `maxGap`, planning the registers the plan reads gives the same plan again: read blocks are a fixed point of `_build_read_blocks` |
| ReadBlocks.WalkRun | custom_components/wanas/coordinator.py:47-55 | when no step after the open block's end is wider than `maxGap`, every later address joins the open block, which ends at the last address |
| ReadBlocks.WalkBreak | custom_components/wanas/coordinator.py:47-55 | the first step wider than `maxGap` closes the open block at the address before the step and opens a new block at the address after it |
| ReadBlocks.TwoRuns | custom_components/wanas/coordinator.py:47-55 | sorted addresses with exactly one step wider than the gap make exactly two blocks, split at that step |
| Codec.ToInt16 | custom_components/wanas/coordinator.py:186-187 | `c_int16(raw).value` lies in [-32768, 32767] and equals `raw` modulo 65536 |
| Codec.Int16OfWord | custom_components/wanas/coordinator.py:186-187 | for a 16-bit word, `c_int16` gives `raw - 65536` when `raw >= 32768` and `raw` otherwise |
| Codec.WordRoundTrip | custom_components/wanas/coordinator.py:186-187 | a word read as signed and stored back as a word is unchanged |
| Codec.Int16RoundTrip | custom_components/wanas/coordinator.py:186-187 | a signed 16-bit value stored as a word and read back as signed is unchanged |
| Codec.Decode | custom_components/wanas/coordinator.py:185-187 | UINT16 passes the word through; INT16 gives a value in the signed 16-bit range that maps back to the word |
| Codec.GetSensorValue | custom_components/wanas/coordinator.py:177-192 | the result is absent iff the address is not an int key of `data`; otherwise it carries the decoded word, plain iff there is no scale, and the description's scale when there is one |
| Const.KeySuffixes | custom_components/wanas/const.py:251-255 | sensor, write and verify keys end in `_address`; `_name` keys do not |
| Const.WriteKeyNotVerifyKey | custom_components/wanas/const.py:254-255 | no switch's write key is any switch's verify key |
| Const.SensorKeyInjective | custom_components/wanas/const.py:252 | distinct sensor keys give distinct `_address` keys |
| Const.WriteKeyInjective | custom_components/wanas/const.py:254 | distinct switch keys give distinct `_write_address` keys |
| Const.VerifyKeyInjective | custom_components/wanas/const.py:255 | distinct switch keys give distinct `_verify_address` keys |
| Const.GetDefaultRegisters | custom_components/wanas/const.py:248-256 | the two loops filling `regs` return the fold `DefaultRegisters()` |
| Const.SensorEntriesKeys | custom_components/wanas/const.py:251-252 | for any sensor descriptions, the sensor loop's keys are exactly their `{key}_address` keys |
| Const.SensorEntriesValues | custom_components/wanas/const.py:251-252 | each sensor's `{key}_address` entry maps to that sensor's address, given distinct keys |
| Const.SensorEntriesCount | custom_components/wanas/const.py:251-252 | with distinct keys the sensor loop adds one entry per description |
| Const.SwitchEntriesKeys | custom_components/wanas/const.py:253-255 | the switch loop adds exactly the `{key}_write_address` and `{key}_verify_address` keys of the switch descriptions |
| Const.SwitchEntriesValues | custom_components/wanas/const.py:253-255 | each switch's write and verify entries map to its write and verify addresses, given distinct keys |
| Const.SwitchEntriesKeep | custom_components/wanas/const.py:253-255 | the switch loop leaves every earlier entry whose key is not a switch key as it was |
| Const.SwitchEntriesCount | custom_components/wanas/const.py:253-255 | with distinct fresh keys the switch loop adds two entries per description |
| Const.CatalogSensorKeysDistinct | custom_components/wanas/const.py:66-198 | the 19 sensor keys of the catalog are pairwise distinct |
| Const.CatalogSwitchKeysDistinct | custom_components/wanas/const.py:200-246 | the 7 switch keys of the catalog are pairwise distinct |
| Const.CatalogSensorKeysNotSwitchKeys | custom_components/wanas/const.py:66-246 | no sensor's `_address` key is a switch's write or verify key |
| Const.DefaultRegistersSpec | custom_components/wanas/const.py:248-256 | the default map's keys are exactly the sensor, write and verify keys; it has 19 + 2·7 = 33 entries; each maps to its description's address |
| Const.DescriptorDefaults | custom_components/wanas/const.py:40-63 | sensor descriptions default to UINT16 with no scale; switch descriptions default to on 1 and off 0 |
| Const.CatalogSwitchValues | custom_components/wanas/const.py:200-246 | every catalog switch is off at 0; vacation, fireplace and party switch on with 30, 180 and 720; the others switch on with 1 |
| Const.CatalogSharedAddresses | custom_components/wanas/const.py:172-245 | fireplace and party write and verify the same register (44 and 45); 45 is also the `party_time` sensor; the other switches use different registers |
| Coordinator.EffectiveRegisters | custom_components/wanas/coordinator.py:79-81 | `{**defaults, **overrides}`: an option wins on its key; every other default key keeps its address |
| Coordinator.AddressList | custom_components/wanas/coordinator.py:84-87 | the comprehension over the map's items yields exactly the int values under `_address` keys |
| Coordinator.AddressKeysPlanned | custom_components/wanas/coordinator.py:84-87 | an int under a sensor, write or verify key is part of the planner input |
| Coordinator.NameEntriesIgnored | custom_components/wanas/coordinator.py:83-87 | a `_name` entry never changes the planner input, whatever it holds |
| Coordinator.TextValuesIgnored | custom_components/wanas/coordinator.py:84-87 | a text value never changes the planner input, whatever key it sits under |
| Coordinator.WanasCoordinator.constructor | custom_components/wanas/coordinator.py:76-88 | the map is the defaults overridden by the options; the read plan is the plan of that map's `_address` values with gap 3; there is no client yet |
| Coordinator.WanasCoordinator.GetClient | custom_components/wanas/coordinator.py:105-114 | a connected client is kept; otherwise a new client replaces the old one and connects; a refused connect raises `UpdateFailed` and a connect exception propagates, both leaving the unconnected client in place |
| Coordinator.WanasCoordinator.ReadRegisters | custom_components/wanas/coordinator.py:116-127 | registers come back iff the read returned them; an error response becomes "Error reading registers at address"; an exception passes through |
| Coordinator.FirstFailure | custom_components/wanas/coordinator.py:139-141 | the position where the read loop stops: every earlier read returned registers and this one did not |
| Coordinator.Fill | custom_components/wanas/coordinator.py:142-143 | storing a block's words adds exactly the registers from `start` on, each holding its word, and leaves all other entries unchanged |
| Coordinator.FillBlock | custom_components/wanas/coordinator.py:142-143 | the `enumerate(regs)` loop stores the words as `Fill` specifies |
| Coordinator.WanasCoordinator.AsyncUpdateData | custom_components/wanas/coordinator.py:129-150 | a map is returned iff the client was obtained and every read returned registers, so never a partial map; reads are issued in plan order up to the first failure; no client gives "Connection error" and clears `_client`; an error response keeps the client; a read exception clears it and gives "Error fetching data" |
| Coordinator.MergeKeys | custom_components/wanas/coordinator.py:139-143 | the polled map's keys are exactly the union of `[start, start + len(regs))` over the blocks |
| Coordinator.MergeKeysFull | custom_components/wanas/coordinator.py:139-143 | when every block returned its count of words, the polled keys are exactly the registers the plan covers |
| Coordinator.MergeValues | custom_components/wanas/coordinator.py:139-143 | with ascending, non-overlapping blocks and full reads, `data[start + i]` is the i-th word read for that block |
| Coordinator.PolledAddressesPresent | custom_components/wanas/coordinator.py:83-143 | after a full poll every `_address` value of the map is in the data, holding the word of the block covering it, and every polled key lies in a planned block |
| Coordinator.WanasCoordinator.AsyncWriteRegister | custom_components/wanas/coordinator.py:152-169 | exactly one refresh is requested iff nothing was raised; a normal write sends one request and keeps the client; an error response raises "Error writing register <address>" and keeps it; a refused connect is re-raised without clearing `_client` or sending; a transport exception clears `_client` |
| Coordinator.WanasCoordinator.AsyncClose | custom_components/wanas/coordinator.py:171-175 | a connected client is closed and forgotten; any other client state is left as it is |
| CatalogPlan.DefaultAddressSet | custom_components/wanas/const.py:248-256 | the planner input of the default map is exactly the addresses the catalog's sensors and switches name |
| CatalogPlan.DescribedAddressesListed | custom_components/wanas/const.py:66-246 | the catalog names 25 distinct addresses: 0-7, 29, 31-36 and 39-48 |
| CatalogPlan.CatalogPlanIsTwoReads | custom_components/wanas/coordinator.py:33-56 | the catalog addresses planned with gap 3 give exactly the blocks (0, 8) and (29, 20) |
| CatalogPlan.DefaultCoordinatorBlocks | custom_components/wanas/coordinator.py:78-88 | a coordinator without options reads (0, 8) and (29, 20), whatever order the map yields its entries in |
| Switch.IsOn | custom_components/wanas/switch.py:67-75 | unknown iff there is no data or the verify address is not in it; otherwise on iff the raw verify word differs from the off value |
| Switch.CatalogSwitchAddresses | custom_components/wanas/switch.py:53-65 | for a catalog switch both keys are always in the map: the write and verify addresses are the options' values if set, else the description's addresses |
| Switch.TurnOn | custom_components/wanas/switch.py:77-81 | once a client is obtained, the only request is the on value written to the effective write address (never the verify address); a normal response gives no error and one refresh, an error response raises with the client kept, an exception drops the client; a refused or failed connect sends nothing |
| Switch.TurnOff | custom_components/wanas/switch.py:83-87 | the same as `TurnOn`, with the off value |
| Switch.ReadBack | custom_components/wanas/switch.py:67-87 | the on value read back at the verify address reports on; the off value reports off |
| Switch.CatalogSwitchesReadBack | custom_components/wanas/const.py:200-246 | every catalog switch's on and off values fit a register and differ, so the read-back holds for all of them |
| Switch.IsOnAfterPoll | custom_components/wanas/switch.py:67-75 | after a full poll a catalog switch with an int verify address knows its state, taken from the polled word |
| Sensor.NativeValue | custom_components/wanas/sensor.py:56-69 | nothing without data; otherwise absent iff the effective address is not an int key of the data, else the decoded word, scaled iff the description has a scale, and then by the description's own scale |
| Sensor.DisplayNameDefault | custom_components/wanas/sensor.py:44-46 | the display name is the option's `{key}_name` if set, else the description's name (the defaults hold no name keys) |
| Sensor.DefaultKeysAreAddressKeys | custom_components/wanas/const.py:248-256 | every key of the default map ends in `_address` |
| Sensor.NativeValueAfterPoll | custom_components/wanas/sensor.py:56-69 | after a full poll a catalog sensor with an int address has a value: the decoded polled word, scaled iff it has a scale, and then by that scale |
| Sensor.SignedTemperature | custom_components/wanas/const.py:91-100 | the signed outdoor temperature reads word 0xFFFF as -1 and 0x00C8 as 200, both in tenths of a degree |

## Left out

- Codec.GetSensorValue: a scaled reading is `Scaled(value, scale)`. The model keeps the decoded word and the scale but does not compute `round(raw * scale, 1)`, because that is floating-point arithmetic with Python's rounding.
- Client construction and framing are not modelled: `_create_client` (TCP, UDP, RTU over TCP), host, port, slave id and the `device_id` of each request. They are calls into pymodbus. The transport's behaviour is an input instead.
- The text of the exception messages (`{err}`, `{result}`, host and port) is not modelled. Each message is a constructor of `UpdateFailed`.
- async/await scheduling, `DataUpdateCoordinator` internals and the debouncing of `async_request_refresh` are not modelled. They belong to the host framework. A refresh request is a counter.
- The host framework keeps `coordinator.data` from the last successful poll. This is not modelled: the entity functions take the data, or its absence, as a parameter.
- Register values from the transport are words in 0..65535, the range of a Modbus holding register. An out-of-range value is not modelled.
- Dict iteration order is not modelled. `AddressList` visits the keys in an arbitrary order, and `PlanDependsOnlyOnSet` shows the order cannot change the plan.
- A text value under an address key is passed on as a text address. The outcome of writing to it is the transport's input, as for any write.
- config_flow.py, `__init__.py` setup and unload, and the platform setup functions are left out: they are UI, schema and Home Assistant lifecycle code.
- Logging, `DeviceInfo`, unique ids, translation keys, units and device and state classes are left out: they are presentation metadata. The descriptions keep only the key, name, addresses, data type, scale and on/off values.
