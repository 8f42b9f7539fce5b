# max-mqtt: a Dafny model of the MAX! Cube bridge core

max-mqtt bridges an eQ-3 MAX! Cube heating hub to an MQTT broker. This
project models its core in Dafny:

- **The cube client** (`maxcube/cube.py`). It decodes the hub's status dump:
  - `H:` lines give the hub address and firmware;
  - `M:` lines give the room table and device discovery;
  - `C:` lines give each thermostat's temperature limits;
  - `L:` lines give the live status records.
  
  It also builds the `s:` command that sets a thermostat's target temperature or mode, and it parses the hub's reply (duty cycle, command result, free memory slots).
- **The device records** (`maxcube/device.py`, `maxcube/thermostat.py`). These are the type and mode constants, the device and thermostat records, and their name lookups.
- **The worker** (`MaxWorker.py`). It keeps a *topology* (a table of device records keyed by serial number) and diffs each device against it, queueing an MQTT publish record for every change. It also:
  - publishes a six-record status snapshot per device;
  - forwards `target_temperature` and `mode` commands to the hub;
  - re-sends a thermostat's desired temperature when the sanity check sees it drift;
  - resets its duty-cycle metric on a timer;
  - drains the command queue;
  - refreshes the whole topology when the publish timer elapses.

Conventions of the model:

- **Temperatures** are integers in tenths of a degree. The hub's half-degree values are multiplied by 5.
- **Bytes** are `byte = 0..255`. Python's `&` on them is `PyText.BitAnd`, and `PyText.ByteMasks` says what each mask used here extracts.
- **Python's text and number builtins** the code relies on are written out in module `PyText` for the text the hub produces (white space is the set `str.isspace()` accepts; letters and digits are ASCII):
  - slicing that clamps;
  - `str.split`/`join`;
  - `strip`, `upper`;
  - `int(s, base)`;
  - `hex`, `'{:02X}'`;
  - `bytearray.fromhex`;
  - signed bytes (`struct 'b'`).
- **Exceptions** are the `Wrappers.Error` values. An operation that can raise returns a `Result`, and the caller's `try`/`except` becomes a match on it.
- **Base64 and UTF-8 decoding** are an oracle (`Codec.Decoders`) that returns the decoded value or `None` when the library would raise.
- **The hub connection** is the class `Cube.Hub`. It has a script of responses, one taken per connect-and-read (a status dump) or per command (its reply), and a log of the command payloads sent.
- **Entities updated in place** are classes with `modifies` frames: the cube client (`Cube.MaxCube`) and the worker (`Worker.MaxWorker`). Their methods are proved against pure functions:
  - the cube client against `Codec.ApplyResponse`, `Codec.TemperaturePayload` and `Codec.ParseReply`;
  - the worker against `Topology.RefreshDevice` (one device), `WorkerSpec.RefreshPass` (a whole refresh, drift corrections included), `WorkerSpec.TemperatureTask` and `WorkerSpec.ModeTask` (the two command handlers), `WorkerSpec.Drain` (the command queue) and `WorkerSpec.DutyReset` (the duty-cycle timer).
  
  The lemmas in `CodecFacts`, `TopologyFacts` and `WorkerSpec` state what those functions guarantee.
- **The worker's queues** are sequences. Outgoing publish records are appended to `messages`, and incoming commands are consumed from the front of `commands`.
- **The clock** is a parameter `now`. Topology dumps are recorded in `dumps`.

Where the code and its documentation disagree, the model follows the code:

- **Bad status lines.** `parse_response` has no `try`, so the first line that raises aborts the whole parse; no bad line is skipped. The worker then catches the error for the whole refresh or command batch.
- **Command encoding.**
  - The room is zero-padded only below 10.
  - The command value is `int(t*2) + (mode << 6)`, using `+`.
  - `hex(...)[2:]` is not padded.

  So a value below 16 (for example automatic mode below 8 degrees) or a three-digit room id gives an odd-length hex string that `fromhex` rejects.
- **Refresh timing.** The refresh in `run` is gated by the MQTT publish timer; `max_topology_refresh_interval` is read but never consulted.
- **Command results.**
  - `set_temperature` never writes the topology.
  - The cube client stores the new target or mode whenever the reply parses, even when the hub reports a failed command.
  - The drift correction publishes the topology's stale target, not the value it sent.
- **Status flags.** The link and battery flags of every `L:` status record are read from byte 6 of the whole blob, that is from the first record.
- **New wall thermostats.** `update_device` raises `KeyError` for a wall thermostat it has never seen, because its `valve_position` is `None` and is never written to the fresh record. The error stops the refresh of the remaining devices.

## Model

| member | source | states |
|---|---|---|
| Device.NewDevice | maxcube/device.py:14-22 | a new device has type, address, room, name, battery, link and room name unset |
| Device.NewThermostat | maxcube/thermostat.py:4-12 | a new thermostat additionally has mode, limits, actual and target temperature and valve position unset |
| Device.DeviceTypeNameKnown | maxcube/device.py:24-29 | types 0..5 name the device in table order: 3 is "Wall Thermostat", 5 is "Eco button" |
| Device.DeviceTypeNameUnknown | maxcube/device.py:28-30 | a type of 6 or more has no name (None) |
| Device.DeviceTypeNameTotal | maxcube/device.py:24-30 | for every byte-sized type the lookup never raises, and yields a name exactly when the type is below 6 |
| Device.DeviceModeNameKnown | maxcube/thermostat.py:14-19 | modes 0..3 name the mode as AUTO, MANUAL, VACATION, BOOST |
| Device.DeviceModeNameIgnoresMode | maxcube/thermostat.py:18-20 | the guard tests the type, not the mode: a type of 4 or more yields None whatever the mode |
| Device.DeviceModeNameUnchecked | maxcube/thermostat.py:18-19 | the unchecked mode index: unset raises TypeError, 4 raises IndexError, -1 wraps round to BOOST |
| Codec.IsThermostatTypeRange | maxcube/cube.py:243-245 | a type is a thermostat type exactly when it is 1, 2 or 3 |
| Codec.ResolveDeviceMode | maxcube/cube.py:239-241 | the mode is the two low bits of the byte, always in 0..3 |
| Codec.ParseRfAddress | maxcube/cube.py:247-249 | the address text has two characters per byte |
| Codec.RfAddressDecodes | maxcube/cube.py:247-249 | every character is an upper-case hex digit and hex-decoding the text gives the bytes back |
| Codec.RfAddressInjective | maxcube/cube.py:247-249 | different byte addresses never render to the same text |
| Codec.IndexOfRf | maxcube/cube.py:68-72 | the lookup finds the first device with that address, and finds none exactly when no device has it |
| CodecFacts.IndexOfRfFirst | maxcube/cube.py:68-72 | a device whose address no earlier device has is the one found |
| CodecFacts.IndexOfRfListed | maxcube/cube.py:68-72 | with unique addresses, looking up a listed device's address finds that device |
| Codec.MRoom | maxcube/cube.py:113-120 | a room entry reads exactly when its two header bytes exist, the signed name length is not negative and the name decodes; the id is the signed first byte and the cursor moves past header, name and three address bytes |
| Codec.MHeader | maxcube/cube.py:126-131 | a device header that reads has its name-length byte and its room byte inside the data |
| Codec.MDevice | maxcube/cube.py:125-149 | a device record that applies had its name-length and room bytes inside the data |
| CodecFacts.MRecordFails | maxcube/cube.py:132-145 | a discovery record raises exactly when it would register a device (known address or thermostat type) whose room is missing from the room table, and then it raises KeyError |
| CodecFacts.MRecordFrame | maxcube/cube.py:132-147 | a new thermostat-type address appends one device, anything else keeps the count; devices with other addresses are unchanged and every earlier device stays listed |
| CodecFacts.MRecordRegisters | maxcube/cube.py:134-147 | the registered device is found at its address and carries the record's type, address, room id, room name, name and serial |
| CodecFacts.MRecordPreserves | maxcube/cube.py:132-147 | one discovery record keeps the device list well formed (registered, unique addresses) |
| CodecFacts.MDevicesPreserves | maxcube/cube.py:125-149 | the whole device loop keeps the device list well formed |
| CodecFacts.ApplyMMessagePreserves | maxcube/cube.py:106-149 | an `M:` line keeps the device list well formed |
| CodecFacts.MMessageKeeps | maxcube/cube.py:106-149 | an `M:` line never removes or reorders a listed device |
| Codec.ApplyC | maxcube/cube.py:90-98 | a `C:` line never changes the number of devices |
| CodecFacts.ApplyCFails | maxcube/cube.py:92-98 | a `C:` line raises exactly when its payload does not decode, or it names a listed thermostat and the data is shorter than 22 bytes |
| CodecFacts.ApplyCData | maxcube/cube.py:92-98 | a listed thermostat gets minimum = byte 21 and maximum = byte 20 as half-degrees; for any other address the list is unchanged |
| CodecFacts.ApplyCSetsLimits | maxcube/cube.py:96-98 | the addressed thermostat changes in its two limits and nothing else |
| CodecFacts.ApplyCFrame | maxcube/cube.py:90-98 | a `C:` line keeps every identity and leaves every other device unchanged |
| CodecFacts.ApplyCPreserves | maxcube/cube.py:90-98 | a `C:` line keeps the device list well formed and keeps every device |
| Codec.LRecord | maxcube/cube.py:163-182 | a status record that applies leaves a thermostat a thermostat |
| CodecFacts.LRecordFails | maxcube/cube.py:165-179 | a status record raises exactly when the blob has fewer than 7 bytes, the record's mode bytes are missing, or the byte its temperature reading needs is past the end; StructError for the former two, IndexError for the last |
| CodecFacts.LRecordFlags | maxcube/cube.py:167-171 | link is OK when flag bits 0-2 of blob byte 6 are set, battery when bit 3 is; the mode is the two low bits of the record's byte 5 |
| CodecFacts.LRecordTarget | maxcube/cube.py:182 | the target is the low seven bits of byte 7 in half-degrees |
| CodecFacts.LRecordWall | maxcube/cube.py:174-175 | a wall thermostat reads byte 11 plus bit 7 of byte 7 as the ninth bit, keeps its valve position, and keeps its old actual temperature on a zero reading |
| CodecFacts.LRecordRadiator | maxcube/cube.py:176-181 | other thermostats take the valve position from byte 6, read bytes 8-9 as actual temperature in automatic and manual mode (a zero reading is ignored), and clear it in vacation and boost mode |
| CodecFacts.LRecordIdentity | maxcube/cube.py:163-182 | a status record changes no identity field and neither temperature limit |
| Codec.LStep | maxcube/cube.py:156-183 | one status record never changes the number of devices |
| CodecFacts.LStepFrame | maxcube/cube.py:156-183 | one status record keeps every identity, changes only a thermostat at its own address, and stamps the blob's flags on it |
| Codec.LRecords | maxcube/cube.py:156-183 | the status loop never changes the number of devices |
| CodecFacts.LRecordsFrame | maxcube/cube.py:156-183 | the status loop keeps every identity, and every device it updates carries the first record's flags |
| Codec.ApplyLMessage | maxcube/cube.py:151-183 | an `L:` line never changes the number of devices |
| CodecFacts.ApplyLMessagePreserves | maxcube/cube.py:151-183 | an `L:` line keeps every identity and so keeps the list well formed |
| CodecFacts.ApplyHTokens | maxcube/cube.py:100-104 | the hub address is the second comma field and the firmware is the third field's first two digits, a dot, and the next two |
| CodecFacts.ApplyHRoundTrip | maxcube/cube.py:100-104 | an `H:` line built from comma-free fields is read back as its address field and dotted firmware |
| CodecFacts.ApplyLineStrip | maxcube/cube.py:78-79 | a line is handled the same with or without surrounding white space |
| CodecFacts.ApplyLineFrame | maxcube/cube.py:78-88 | a short line or one with another tag changes nothing; only `H:` lines set the hub address and firmware, and they set them to the parsed values |
| CodecFacts.ApplyLinePreserves | maxcube/cube.py:78-88 | every handled line keeps the device list well formed and keeps every device |
| CodecFacts.ApplyLinesAppend | maxcube/cube.py:78-88 | handling lines stops at the first line that raises; otherwise the second batch continues from the first batch's state |
| CodecFacts.ApplyLinesPreserves | maxcube/cube.py:78-88 | handling any number of lines keeps the device list well formed and keeps every device |
| CodecFacts.ApplyResponseLines | maxcube/cube.py:74-88 | a response is its newline-separated lines handled in order |
| CodecFacts.ApplyResponseCons | maxcube/cube.py:74-88 | a response whose first line raises raises that error; otherwise the rest is parsed from the updated state |
| CodecFacts.ApplyResponsePreserves | maxcube/cube.py:74-88 | parsing a whole response keeps the device list well formed and never loses a device |
| CodecFacts.RoomByte | maxcube/cube.py:188-190 | a room id below 100 becomes one byte whose two hex digits are its two decimal digits |
| CodecFacts.PrefixBytes | maxcube/cube.py:193 | the fixed command prefix decodes to bytes 00 04 40 00 00 00 |
| CodecFacts.RoomTextBytes | maxcube/cube.py:188-190 | the room text of an id below 100 has two characters and decodes to that one byte |
| CodecFacts.ValueTextByte | maxcube/cube.py:193 | a command value from 16 to 255 renders as two hex digits that decode back to it |
| CodecFacts.CommandBytes | maxcube/cube.py:193-195 | a command for a rendered 3-byte address, a room below 100 and a two-digit value decodes to prefix, address, room byte and value byte |
| CodecFacts.CommandRejected | maxcube/cube.py:188-195 | a value below 16 with a two-digit room, or a three-digit room with a two-digit value, gives odd-length hex that `fromhex` rejects |
| CodecFacts.CommandValueFields | maxcube/cube.py:191 | for modes 0..3 and targets below 32 degrees the value byte holds the mode in its top two bits and the half-degree target in the low six |
| CodecFacts.TemperaturePayloadLayout | maxcube/cube.py:187-195 | the set-temperature payload is prefix, address, room and the value combining the new target with the current mode |
| CodecFacts.ModePayloadLayout | maxcube/cube.py:215-222 | the set-mode payload is prefix, address, room and the value combining the current target with the new mode |
| CodecFacts.TemperaturePayloadLowAutomatic | maxcube/cube.py:189-195 | a target below 8 degrees in automatic mode cannot be encoded and raises ValueError |
| Codec.StoredTarget | maxcube/cube.py:210 | the stored target is a whole number of half-degrees, truncated toward zero, less than half a degree from the request |
| CodecFacts.StoredTargetIdempotent | maxcube/cube.py:210 | storing an already stored target does not change it |
| CodecFacts.StoredTargetExact | maxcube/cube.py:210 | a whole half-degree target is stored exactly |
| CodecFacts.StoredTargetCommand | maxcube/cube.py:191 | the stored target and the requested target encode to the same command value |
| CodecFacts.ParseReplyRoundTrip | maxcube/cube.py:202-207 | a reply of hex duty cycle, decimal result and hex free slots, with trailing white space, parses back to exactly those three numbers |
| Cube.NextResponse | maxcube/connection.py:14-36 | a connect-and-read yields the next scripted response, and fails when there is none |
| Cube.CommandOutcome | maxcube/cube.py:193-207 | an unencodable command raises before anything is sent; a missing reply is an I/O error; otherwise the outcome is the parsed reply |
| Cube.ReadRoom | maxcube/cube.py:113-120 | reads one room entry exactly as the room specification does |
| Cube.ReadRoomTable | maxcube/cube.py:109-120 | the room loop builds the specified room table and cursor |
| Cube.ReadDeviceHeader | maxcube/cube.py:126-131 | reads one device header as specified |
| Cube.FindByRf | maxcube/cube.py:68-72 | the search loop returns the specified first match |
| Cube.StoreDevice | maxcube/cube.py:132-147 | applies one discovery record as specified |
| Cube.ReadDevice | maxcube/cube.py:125-149 | one pass of the device loop advances the cursor by 16 plus the name length, or raises the specified error |
| Cube.ReadDevices | maxcube/cube.py:125-149 | the device loop computes the specified device list |
| Cube.ReadStatusRecord | maxcube/cube.py:163-182 | applies one status record as specified |
| Cube.ReadStatusAt | maxcube/cube.py:157-183 | one pass of the status loop as specified |
| Cube.ReadStatusRecords | maxcube/cube.py:154-183 | the status loop computes the specified device list |
| Cube.Hub.constructor | maxcube/connection.py:8-12 | a connection starts with its responses to come and nothing sent |
| Cube.Hub.Receive | maxcube/connection.py:14-36 | connecting consumes exactly one scripted response |
| Cube.Hub.Send | maxcube/connection.py:38-43 | sending consumes one reply and logs the payload when a reply came |
| Cube.MaxCube.constructor | maxcube/cube.py:18-30 | a new cube client has no address, firmware, devices or reply statistics |
| Cube.MaxCube.DeviceByRf | maxcube/cube.py:68-72 | returns the first device with the address, or none |
| Cube.MaxCube.ParseCMessage | maxcube/cube.py:90-98 | the device list becomes the `C:` update of the old list, or the call fails exactly when that raises |
| Cube.MaxCube.ParseHMessage | maxcube/cube.py:100-104 | the hub address and firmware become the parsed values, or the call fails exactly when parsing raises |
| Cube.MaxCube.ParseMMessage | maxcube/cube.py:106-149 | the device list becomes the `M:` update of the old list, or the call fails exactly when that raises |
| Cube.MaxCube.ParseLMessage | maxcube/cube.py:151-183 | the device list becomes the `L:` update of the old list, or the call fails exactly when that raises |
| Cube.MaxCube.ParseLine | maxcube/cube.py:79-88 | the client state becomes the specified update for one response line |
| Cube.MaxCube.ParseResponse | maxcube/cube.py:74-88 | the line loop leaves the state the whole response specifies, failing exactly when a line raises |
| Cube.MaxCube.Update | maxcube/cube.py:50-63 | consumes one response, applies it, and keeps the device list well formed |
| Cube.MaxCube.RecordReply | maxcube/cube.py:202-207 | stores duty cycle, result and free slots, with success meaning result 0 |
| Cube.MaxCube.Exchange | maxcube/cube.py:198-209 | one command round trip: one reply consumed, the payload logged, and the statistics replaced only when the reply parses |
| Cube.MaxCube.SetTargetTemperature | maxcube/cube.py:185-210 | nothing is sent when the command cannot be encoded; on a parsed reply the thermostat's target becomes the truncated half-degree request, regardless of the hub's result; other devices never change |
| Cube.MaxCube.SetMode | maxcube/cube.py:212-237 | as for the target, with the thermostat's mode set to the requested one on a parsed reply |
| Topology.Get | MaxWorker.py:124 | a stored value, or None when the record has no such key |
| Topology.PrepareOutput | MaxWorker.py:154-163 | a publish record with the device id, parameter and value, QoS 1 and the current time |
| Topology.Attribute | MaxWorker.py:147 | reading a device attribute fails (KeyError) exactly for thermostat-only attributes of a plain device and for hub statistics |
| TopologyFacts.StatusMessages | MaxWorker.py:123-134 | the status snapshot is six publish records |
| TopologyFacts.MetricOnEffect | MaxWorker.py:144-152 | a metric publishes at most one record, exactly when it changes the record, and only when the device value differs from the stored one; afterwards the record holds the device value |
| TopologyFacts.MetricOnSilent | MaxWorker.py:147 | an unchanged value writes and publishes nothing |
| TopologyFacts.MetricEffect | MaxWorker.py:144-152 | on the table, a metric changes only that device's parameter and publishes it; a missing device or attribute changes nothing |
| TopologyFacts.MetricIdempotent | MaxWorker.py:144-152 | repeating a metric update with the same device changes and publishes nothing |
| TopologyFacts.PublishShape | MaxWorker.py:123-134 | the snapshot raises KeyError exactly when a required key is missing; otherwise it appends the six records |
| TopologyFacts.ThermostatWritesFrame | MaxWorker.py:113-118 | the thermostat block touches only thermostat attributes |
| TopologyFacts.ThermostatWritesActualKept | MaxWorker.py:115-116 | a falsy actual temperature leaves the stored one untouched |
| TopologyFacts.ThermostatWritesValues | MaxWorker.py:113-118 | after the block the record holds the mode name, target, valve and truthy actual temperature |
| TopologyFacts.CommonWritesStored | MaxWorker.py:103-110 | after the common block the record holds address, name, room, room name, type name, serial, link and battery |
| TopologyFacts.CommonWritesFrame | MaxWorker.py:103-110 | the common block leaves thermostat attributes untouched |
| TopologyFacts.RefreshRecordIdentity | MaxWorker.py:103-108 | a device's identity is always recorded, even when a later step raises |
| TopologyFacts.RefreshRecordThermostat | MaxWorker.py:113-118 | a thermostat's record holds its thermostat attributes, a falsy actual temperature keeping the old one |
| TopologyFacts.RefreshRecordOutcome | MaxWorker.py:98-135 | `update_device` succeeds exactly when the names resolve and the record holds every snapshot key, ending with the six snapshot records; otherwise the error is the name lookup's error, or KeyError when both names resolve |
| TopologyFacts.RefreshRecordSilent | MaxWorker.py:98-135 | a device already recorded produces only the snapshot |
| TopologyFacts.RefreshRecordStable | MaxWorker.py:98-135 | a second update with the same device changes nothing and republishes only the snapshot |
| TopologyFacts.ThermostatWritesNoValve | MaxWorker.py:118 | an unset valve position is never written to a record that lacks it |
| TopologyFacts.RefreshDeviceWrites | MaxWorker.py:98-118 | the device's serial becomes a key, other records are untouched, and the record holds the identity and attributes |
| TopologyFacts.RefreshDeviceOutcome | MaxWorker.py:98-135 | on the table, success exactly when names resolve and the snapshot keys exist, ending with the snapshot; otherwise the name lookup's error, or KeyError when both names resolve |
| TopologyFacts.RefreshDeviceStable | MaxWorker.py:98-135 | refreshing an unchanged device again changes nothing and republishes only the snapshot |
| TopologyFacts.RefreshDeviceNewWallThermostat | MaxWorker.py:98-134 | a wall thermostat new to the topology raises KeyError, because no valve position is stored for it |
| WorkerSpec.Lookup | MaxWorker.py:183-186 | indexing a record returns the stored value, or KeyError when it is absent |
| WorkerSpec.ModeNumber | MaxWorker.py:209-218 | a mode name maps to its position in AUTO, MANUAL, VACATION, BOOST; anything else raises KeyError |
| WorkerSpec.ModeNumberRoundTrip | MaxWorker.py:209-218 | the mode name a thermostat publishes maps back to its mode number |
| WorkerSpec.RfIndex | MaxWorker.py:191 | looks up the stored address text among the cube's devices |
| WorkerSpec.TemperatureCommand | MaxWorker.py:182-186 | a command is planned exactly when the stored and requested targets differ as numbers, and it goes to the stored address; a missing record, target or address raises |
| WorkerSpec.ModeCommand | MaxWorker.py:207-213 | a command is planned exactly when the stored mode differs from the requested one; a missing record, mode or address raises |
| WorkerSpec.CubeStats | MaxWorker.py:201-205 | the hub statistics are two records for device "cube": free memory slots, then duty cycle |
| WorkerSpec.CorrectionRecords | MaxWorker.py:77-84 | an accepted correction publishes the stored target, then the hub statistics; nothing otherwise |
| WorkerSpec.CommandTarget | MaxWorker.py:185-191 | the command reaches the device listed at the stored address, once the logged room name and name exist |
| WorkerSpec.TemperatureEffect | MaxWorker.py:185-198 | the command is attempted (handed to the cube) exactly when the device is reachable, and reaches the hub only when its payload encodes. On a parsed reply its target becomes the stored half-degree value; on an accepted reply the statistics and the requested target are published. Any failure publishes nothing |
| WorkerSpec.ModeEffect | MaxWorker.py:211-228 | as for the target, the command attempted exactly for a reachable device and a known mode name, and reaching the hub only when its payload encodes; publishing the statistics and the requested mode name on success |
| WorkerSpec.CorrectionRepeats | MaxWorker.py:67-75 | after a correction is stored, another is due exactly when the desired value is not a whole half-degree |
| WorkerSpec.CorrectionPublishesStale | MaxWorker.py:77-80 | the accepted correction republishes the hub's old target, which differs from the desired one |
| WorkerSpec.Discover | MaxWorker.py:60-61 | discovery succeeds exactly when a response arrives and parses, and then yields a well-formed device list |
| WorkerSpec.RefreshAllSnoc | MaxWorker.py:65-66 | the device loop refreshes device after device until one raises |
| WorkerSpec.RefreshAllStops | MaxWorker.py:59-91 | once a device raises, the devices after it are not refreshed |
| WorkerSpec.RefreshAllFrame | MaxWorker.py:65-66 | a refresh only adds or changes the records of discovered serials |
| WorkerSpec.RefreshAllRecords | MaxWorker.py:65-66 | a refresh that completes records every discovered serial |
| WorkerSpec.DutyReset | MaxWorker.py:240-244 | once the interval has strictly passed since the last reset the counter becomes 0, the reset time becomes now and a 0 is published for "cube"; before that nothing changes |
| WorkerSpec.TemperatureTask | MaxWorker.py:182-199 | the desired temperature is recorded once the record exists and the payload is numeric, even when the handler then raises or sends nothing; the handler raises exactly when the plan raises, and only a planned command has the target effect on records, devices and connection |
| WorkerSpec.ModeTask | MaxWorker.py:207-229 | the desired temperatures are untouched; the handler raises exactly when the plan raises, and only a planned command has the mode effect, otherwise nothing changes |
| WorkerSpec.RunTask | MaxWorker.py:252-257 | only `command` tasks for `target_temperature` or `mode` reach a handler, every other task changes nothing; records are only ever added |
| WorkerSpec.RunTasksLeaves | MaxWorker.py:251-260 | the queue left is an end of the queue, empty unless a handler raised, and then the last one taken reached a handler |
| WorkerSpec.RunTasksSuffix | MaxWorker.py:251-260 | the commands left are an end of the queue, and none unless a handler raised |
| WorkerSpec.RunTasksRaiser | MaxWorker.py:251-260 | when a handler raised, the command taken just before the ones left is one that reached a handler |
| WorkerSpec.RunTasksRecords | MaxWorker.py:251-260 | the inner loop only adds records, and a queue with no command for a handler changes nothing |
| WorkerSpec.RunTasksAppend | MaxWorker.py:251-257 | tasks behind others wait their turn: when the first tasks all run without raising, the rest runs from the state they leave |
| WorkerSpec.DrainOutcome | MaxWorker.py:247-260 | records are only added and the commands left are an end of the queue; an empty queue opens no connection; a hub state that does not parse uses one response and leaves queue, records and desired temperatures; a queue with no handled command is emptied silently |
| WorkerSpec.Correction | MaxWorker.py:67-86 | no command unless the sanity check finds a thermostat type whose desired temperature differs from its target; otherwise the desired value is handed to the cube, and it reaches the hub over the connection only when its payload encodes; only an accepted reply publishes (the stored target and the hub statistics) and takes the hub's duty cycle with the time noted; the topology is never written |
| WorkerSpec.CheckDevice | MaxWorker.py:65-89 | one device: the topology and error are those of `update_device`, its records come first, and after an error or with no correction due nothing is sent and the duty cycle is untouched |
| WorkerSpec.RefreshCheckedSnoc | MaxWorker.py:65-89 | the checked loop over one more device checks that device after the others, unless an earlier one raised |
| WorkerSpec.RefreshCheckedStops | MaxWorker.py:65-89 | once a device raises, the devices after it change nothing |
| WorkerSpec.RefreshCheckedNext | MaxWorker.py:65-89 | one device further, or the whole list once that device raises |
| WorkerSpec.RefreshCheckedTopology | MaxWorker.py:65-89 | the sanity check never changes the topology: the checked loop leaves the plain loop's topology and error |
| WorkerSpec.RefreshCheckedPlain | MaxWorker.py:65-89 | with the check off or no desired temperature the checked loop is the plain loop: the same records, nothing sent, the duty cycle untouched |
| WorkerSpec.RefreshPassTopology | MaxWorker.py:59-91 | a hub state that does not parse changes nothing but the one response used; otherwise the topology is the plain refresh of the discovered devices, and without the check so are the records |
| Worker.MaxWorker.constructor | MaxWorker.py:15-39 | starts from the loaded topology (or an empty one), no desired temperatures, no connection and zeroed timers |
| Worker.MaxWorker.Connect | MaxWorker.py:165-171 | an existing connection is kept; otherwise the given one is opened |
| Worker.MaxWorker.Close | MaxWorker.py:173-180 | afterwards there is no connection |
| Worker.MaxWorker.UpdateDeviceMetric | MaxWorker.py:144-152 | the topology and queue become the specified metric diff |
| Worker.MaxWorker.PublishStatus | MaxWorker.py:123-134 | queues the six snapshot records, or reports the KeyError |
| Worker.MaxWorker.WriteIdentity | MaxWorker.py:99-108 | creates the record when missing and writes the identity fields |
| Worker.MaxWorker.WriteCommon | MaxWorker.py:103-110 | writes the common fields and queues the link and battery diffs |
| Worker.MaxWorker.WriteThermostat | MaxWorker.py:113-118 | writes the mode name and the thermostat metric diffs |
| Worker.MaxWorker.UpdateThermostat | MaxWorker.py:113-134 | runs the thermostat block and then the snapshot |
| Worker.MaxWorker.WriteAndPublish | MaxWorker.py:114-134 | the thermostat writes followed by the snapshot |
| Worker.MaxWorker.UpdateDevice | MaxWorker.py:98-135 | the topology and queue become the specified device refresh, returning the serial or the raised error |
| Worker.MaxWorker.UpdateCubeStats | MaxWorker.py:201-205 | queues the two hub-statistics records |
| Worker.MaxWorker.SendTemperature | MaxWorker.py:186-198 | the records, devices and connection become the target effect of the stored address |
| Worker.MaxWorker.SetTemperature | MaxWorker.py:182-199 | desired temperatures, records, devices and connection become the target handler's, and the raised error is its error |
| Worker.MaxWorker.SendMode | MaxWorker.py:213-228 | the records, devices and connection become the mode effect of the stored address |
| Worker.MaxWorker.SetMode | MaxWorker.py:207-229 | records, devices and connection become the mode handler's, and the raised error is its error |
| Worker.MaxWorker.ResetDutyCycle | MaxWorker.py:240-244 | once the reset interval has passed, zeroes the metric, restarts its timer and publishes 0; otherwise nothing changes |
| Worker.MaxWorker.CorrectDrift | MaxWorker.py:67-89 | a command is attempted (handed to the cube) exactly when the correction is due, reaching the hub only when its payload encodes, with the specified outcome; the state becomes the correction's, and the devices after this one are untouched |
| Worker.MaxWorker.SendCorrection | MaxWorker.py:75-86 | hands the desired temperature to the cube (it reaches the hub only when its payload encodes), and the connection, records and duty cycle become those the outcome specifies |
| Worker.MaxWorker.RecordReply | MaxWorker.py:77-86 | an accepted correction queues the stored target and the hub statistics and restarts the duty-cycle timer with the hub's value |
| Worker.MaxWorker.RecordCorrection | MaxWorker.py:78-86 | queues the stored target and hub statistics and takes over the hub's duty cycle |
| Worker.MaxWorker.Dispatch | MaxWorker.py:252-257 | the session and the raised error become the specified task's |
| Worker.MaxWorker.TakeTask | MaxWorker.py:251-257 | takes the first task off the queue and runs it as specified |
| Worker.MaxWorker.ProcessCommands | MaxWorker.py:251-260 | the session, the commands left and the raised error become the specified inner loop's |
| Worker.MaxWorker.VisitDevice | MaxWorker.py:65-89 | the device is refreshed as specified and fails exactly when that raises; otherwise the correction follows, from the refreshed topology |
| Worker.MaxWorker.VisitStep | MaxWorker.py:65-89 | one pass of the device loop keeps the state equal to the checked refresh of the devices so far |
| Worker.MaxWorker.RefreshDevices | MaxWorker.py:65-89 | the loop leaves topology, records, connection and duty cycle equal to the checked refresh of the cube's devices |
| Worker.MaxWorker.RefreshFrom | MaxWorker.py:59-91 | the state becomes the specified refresh pass over the link |
| Worker.MaxWorker.RefreshConnected | MaxWorker.py:59-96 | the refresh pass, then the dump when the publish timer elapsed |
| Worker.MaxWorker.DumpWhenDue | MaxWorker.py:93-95 | dumps the topology and restarts the publish timer exactly when it elapsed |
| Worker.MaxWorker.RefreshTopology | MaxWorker.py:56-96 | connects, runs the refresh pass and dumps when due; the desired temperatures and the command queue are untouched |
| Worker.MaxWorker.Start | MaxWorker.py:233-234 | the first refresh pass with its dump, and the refresh time stamped |
| Worker.MaxWorker.TakeCommands | MaxWorker.py:247-260 | connects only when commands are pending, and the state becomes the specified drain |
| Worker.MaxWorker.DrainCommands | MaxWorker.py:249-260 | the state becomes the drain's try block over the connection |
| Worker.MaxWorker.HandleCommands | MaxWorker.py:240-260 | the duty-cycle reset, then the drain of the queue with the new commands |
| Worker.MaxWorker.RefreshWhenDue | MaxWorker.py:262-264 | the refresh pass only when the publish timer elapsed, the refresh time then noted; the desired temperatures and queue are untouched |
| Worker.MaxWorker.RunIteration | MaxWorker.py:237-265 | one pass of the main loop: the duty-cycle reset, the drain, the refresh pass with the desired temperatures the drain left only when the publish timer elapsed, and the connection closed |
| PyText.Split | maxcube/cube.py:76 | the pieces contain no separator, and there is at least one |
| PyText.SplitJoin | maxcube/cube.py:76 | joining the pieces with the separator gives the text back |
| PyText.JoinSplit | maxcube/cube.py:76 | splitting separator-free pieces joined by the separator gives the pieces back |
| PyText.Strip | maxcube/cube.py:79 | the stripped text neither starts nor ends with a character `str.isspace()` accepts |
| PyText.StripInfix | maxcube/cube.py:79 | stripping removes exactly the leading and trailing `str.isspace()` characters and keeps the rest: the result is a slice of the input with only white space before and after it |
| PyText.TrimLeftRemovesSpace | maxcube/cube.py:79 | every character removed from the front is white space |
| PyText.TrimRightRemovesSpace | maxcube/cube.py:79 | every character removed from the end is white space |
| PyText.StripIdempotent | maxcube/cube.py:79-82 | stripping twice is stripping once |
| PyText.Upper | maxcube/cube.py:92 | upper-cases ASCII letters one by one, leaving every other character, and keeps the length |
| PyText.HexByte | maxcube/cube.py:249 | a byte renders as two upper-case hex digits |
| PyText.FromHexByte | maxcube/cube.py:249 | decoding a rendered byte followed by more hex gives that byte first |
| PyText.HexLower | maxcube/cube.py:193 | `hex(n)[2:]` has one digit below 16 and two from 16 to 255 |
| PyText.FromHexOdd | maxcube/cube.py:195 | odd-length hex is rejected |
| PyText.ParseIntHex | maxcube/cube.py:204-205 | `int(..., 16)` reads back rendered hex, trailing white space allowed |
| PyText.ParseIntDecimal | maxcube/cube.py:206 | `int(...)` reads back a rendered decimal, sign included |
| PyText.TruncDiv | maxcube/cube.py:191 | `int()` of a quotient truncates toward zero |
| PyText.Signed | maxcube/cube.py:113-114 | a signed byte is the byte or the byte minus 256, within -128..127 |
| PyText.ByteMasks | maxcube/cube.py:168-182 | the masks 0x03, 0x07, 0x7F, 0x08 and 0x80 extract the low bits or a single bit |

## Left out

- The socket code of `maxcube/connection.py` is not part of this model. The hub is a script of responses; a failed connect or read is a missing response; the `q:` sent on disconnect is not logged.
- Base64 encoding, the `s:` prefix and the CRLF framing of commands are left out; the hub is handed the payload bytes.
- Base64 and UTF-8 decoding are an oracle that returns the decoded value or a failure; the codecs themselves are not modelled.
- The JSON load and dump of `topology.json` are left out. The loaded table is a constructor argument, and each dump is recorded as a copy of the table.
- The multiprocessing process, the two queues, `sleep` and the clock are left out. The queues are sequences and the time is a parameter.
- Logging, `MaxCube.log`, `MaxCube.init`, `get_devices`, and the commented-out reply parse in `update` are left out (no effect on state).
- `Max!-MQTT.py`, which wires the worker to the broker, is not part of this model.
- Floating point is left out. Temperatures are tenths of a degree; a text payload that `float()` would parse is reported as unsupported.
- `int()` on text with underscores or a `0x` prefix is left out (reported as unsupported).
- A negative signed room name length is reported as unsupported rather than given Python's negative-slice meaning.
- `device.__dict__` becomes a fixed set of attributes (`Topology.Attr`). Hub statistics are not device attributes and fail with KeyError.
- The endless `while True` of `run` is modelled one pass at a time (`Worker.MaxWorker.RunIteration`).
- Cube.MaxCube.Exchange: when `int()` fails on a reply field, Python has already assigned the raw strings to the statistics; the model keeps the old values instead.
- Cube.Hub.Send: a payload is logged only when a reply comes back; a send whose read fails is not recorded, since the socket is not modelled.
- PyText.Upper: only a-z are upper-cased. Python's full Unicode case mapping is not modelled, including mappings that change the length (ß to SS). A `C:` address with such characters would therefore be looked up unchanged.
- PyText.ParseIntHex: `int()` reads only ASCII digits here. The non-ASCII decimal digits Python also accepts are not modelled. The same holds for PyText.ParseIntDecimal.
- WorkerSpec.RunTask: every queued command carries its method, device id, param and payload (`WorkerSpec.Task`). The KeyError that a command missing one of these would raise in the drain is not modelled, because the commands are built outside the worker.
