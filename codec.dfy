/**
 * The hub message codec of maxcube/cube.py as pure functions: how one line
 * of the hub's response (tag H, M, L or C) changes the cube's view of the
 * world, how a `s:` set command payload is built and how the hub's
 * three-field reply is read. The class in cube.dfy runs these step by step
 * and is proved to agree with them.
 *
 * Base64 and UTF-8 decoding are library calls and enter as parameters.
 */
module Codec {
  import opened Wrappers
  import opened PyText
  import opened Device

  /**
   * The two library decoders the parsers call: base64 for payload fields
   * and UTF-8 for names and serials. None is a decoder that raises.
   */
  datatype Decoders = Decoders(base64: string -> Option<seq<byte>>, utf8: seq<byte> -> Option<string>)

  // ------------------------------------------------------ small lookups

  /** `is_thermostat`: the three thermostat types. */
  predicate IsThermostatType(t: Option<int>)
  {
    t == Some(ThermostatType) || t == Some(ThermostatPlusType) || t == Some(WallThermostatType)
  }

  /** The thermostat types are exactly 1, 2 and 3. */
  lemma IsThermostatTypeRange(t: int)
    ensures IsThermostatType(Some(t)) <==> 1 <= t <= 3
  {
  }

  /**
   * `is_thermostat` on a listed device: a thermostat type on a record that has
   * the thermostat fields (every device the cube lists has them).
   */
  predicate IsThermostat(d: MaxDevice)
  {
    d.Thermostat? && IsThermostatType(d.devType)
  }

  /** `resolve_device_mode`: the low two bits of the status byte. */
  function ResolveDeviceMode(bits: byte): (m: int)
    ensures 0 <= m <= 3
    ensures m == bits % 4
  {
    ByteMasks(bits);
    BitAnd(bits, 3)
  }

  /** `parse_rf_address`: every byte as two upper-case hex digits, so three bytes give six characters. */
  function ParseRfAddress(bs: seq<byte>): (r: string)
    ensures |r| == 2 * |bs|
  {
    if |bs| == 0 then "" else HexByte(bs[0]) + ParseRfAddress(bs[1..])
  }

  /** The address text is upper-case hex and decodes back to the bytes it was made from. */
  lemma {:induction false} RfAddressDecodes(bs: seq<byte>)
    ensures forall k :: 0 <= k < |ParseRfAddress(bs)| ==> IsUpperHexDigit(ParseRfAddress(bs)[k])
    ensures FromHex(ParseRfAddress(bs)) == Some(bs)
  {
    if |bs| > 0 {
      var rest := ParseRfAddress(bs[1..]);
      RfAddressDecodes(bs[1..]);
      FromHexByte(bs[0], rest);
      assert [bs[0]] + bs[1..] == bs;
      assert ParseRfAddress(bs) == HexByte(bs[0]) + rest;
    }
  }

  /** Two byte strings have the same address text only if they are equal. */
  lemma RfAddressInjective(a: seq<byte>, b: seq<byte>)
    requires ParseRfAddress(a) == ParseRfAddress(b)
    ensures a == b
  {
    RfAddressDecodes(a);
    RfAddressDecodes(b);
  }

  /** `device_by_rf`: the first device with that RF address, if any. */
  function IndexOfRf(ds: seq<MaxDevice>, rf: string): (r: Option<nat>)
    ensures r.Some? ==> r.value < |ds| && ds[r.value].rfAddress == Some(rf)
    ensures r.Some? ==> forall j :: 0 <= j < r.value ==> ds[j].rfAddress != Some(rf)
    ensures r.None? ==> forall j :: 0 <= j < |ds| ==> ds[j].rfAddress != Some(rf)
  {
    if |ds| == 0 then None
    else if ds[0].rfAddress == Some(rf) then Some(0)
    else
      match IndexOfRf(ds[1..], rf)
      case None => None
      case Some(k) => Some(k + 1)
  }

  // ---------------------------------------------------- device invariants

  /** Every object in the cube's device list is a thermostat record. */
  predicate AllThermostats(ds: seq<MaxDevice>)
  {
    forall i :: 0 <= i < |ds| ==> ds[i].Thermostat?
  }

  /** A device as a discovery record leaves it: identity, room and name are set. */
  predicate Registered(d: MaxDevice)
  {
    && d.Thermostat?
    && d.devType.Some? && 0 <= d.devType.value < 256
    && d.rfAddress.Some? && d.serial.Some? && d.name.Some?
    && d.roomId.Some? && 0 <= d.roomId.value < 256 && d.roomName.Some?
  }

  predicate WellFormed(ds: seq<MaxDevice>)
  {
    forall i :: 0 <= i < |ds| ==> Registered(ds[i])
  }

  /** No two devices share an RF address. */
  predicate UniqueRf(ds: seq<MaxDevice>)
  {
    forall i, j :: 0 <= i < j < |ds| ==> ds[i].rfAddress != ds[j].rfAddress
  }

  /** The device list a cube keeps: registered thermostats, one per RF address. */
  predicate ValidDevices(ds: seq<MaxDevice>)
  {
    AllThermostats(ds) && WellFormed(ds) && UniqueRf(ds)
  }

  /** Two records of the same kind that agree on every field a discovery record writes. */
  predicate SameIdentity(a: MaxDevice, b: MaxDevice)
  {
    && a.Thermostat? == b.Thermostat?
    && a.devType == b.devType && a.rfAddress == b.rfAddress && a.serial == b.serial
    && a.name == b.name && a.roomId == b.roomId && a.roomName == b.roomName
  }

  /** Two device lists that differ at most in the status fields of their devices. */
  predicate SameIdentities(ds: seq<MaxDevice>, es: seq<MaxDevice>)
  {
    |ds| == |es| && forall i :: 0 <= i < |ds| ==> SameIdentity(ds[i], es[i])
  }

  // ----------------------------------------------------------- H message

  /**
   * `parse_h_message`: the RF address is token 1 after the tag, the firmware
   * version is characters 0-1 of token 2, a dot, then characters 2-3.
   */
  function ApplyH(message: string): Result<(string, string)>
  {
    var tokens := Split(Drop(message, 2), ',');
    if |tokens| < 3 then Err(IndexError)
    else Ok((tokens[1], Slice(tokens[2], 0, 2) + "." + Slice(tokens[2], 2, 4)))
  }

  // ----------------------------------------------------------- C message

  /**
   * The address a configuration line names: its first comma-separated field
   * after the tag character, without the colon, in upper case.
   */
  function ConfigAddress(message: string): string
  {
    Upper(Drop(Split(Drop(message, 1), ',')[0], 1))
  }

  /**
   * `parse_c_message`: sets the minimum (byte 21) and maximum (byte 20)
   * temperature of an already known thermostat; any other RF address
   * leaves the devices as they are.
   */
  function ApplyC(ds: seq<MaxDevice>, message: string, decode: Decoders): (r: Result<seq<MaxDevice>>)
    ensures r.Ok? ==> |r.value| == |ds|
  {
    var rf := ConfigAddress(message);
    var fields := Split(Drop(message, 2), ',');
    var text :- PyIndex(fields, 1);
    var data :- Need(decode.base64(text), DecodeError);
    var found := IndexOfRf(ds, rf);
    if found.Some? && IsThermostat(ds[found.value]) then
      if |data| < 22 then Err(IndexError)
      else
        var i := found.value;
        Ok(ds[i := ds[i].(minTemperature := Some(data[21] as int * 5), maxTemperature := Some(data[20] as int * 5))])
    else Ok(ds)
  }

  // ----------------------------------------------------------- M message

  /** The base64 field of an M line: the third comma-separated field after the tag. */
  function MPayload(message: string, decode: Decoders): Result<seq<byte>>
  {
    var fields := Split(Drop(message, 2), ',');
    var text :- PyIndex(fields, 2);
    Need(decode.base64(text), DecodeError)
  }

  /**
   * One room entry of an M payload at cursor `pos`: {room id (signed), name
   * length (signed), name, 3-byte anchor address}. Gives the id, the name
   * and the cursor after the entry.
   */
  function MRoom(data: seq<byte>, pos: nat, decode: Decoders): (r: Result<(int, string, nat)>)
    ensures r.Ok? <==> pos + 2 <= |data| && data[pos + 1] < 128
                       && decode.utf8(Slice(data, pos + 2, pos + 2 + data[pos + 1])).Some?
    ensures r.Ok? ==> r.value.0 == Signed(data[pos]) && r.value.2 == pos + 2 + data[pos + 1] + 3
  {
    if pos + 2 > |data| then Err(StructError)
    else
      var roomId := Signed(data[pos]);
      var nameLength := Signed(data[pos + 1]);
      if nameLength < 0 then Err(Unsupported)
      else
        var name :- Need(decode.utf8(Slice(data, pos + 2, pos + 2 + nameLength)), DecodeError);
        Ok((roomId, name, pos + 2 + nameLength + 3))
  }

  /** The room table: `count` entries from cursor `pos`, names by room id. */
  function MRooms(data: seq<byte>, pos: nat, count: nat, rooms: map<int, string>, decode: Decoders): Result<(map<int, string>, nat)>
    decreases count
  {
    if count == 0 then Ok((rooms, pos))
    else
      var entry :- MRoom(data, pos, decode);
      MRooms(data, entry.2, count - 1, rooms[entry.0 := entry.1], decode)
  }

  /** The identity fields a discovery record writes into a device. */
  function Assign(d: MaxDevice, t: byte, rf: string, roomId: byte, roomName: string, name: string, serial: string): MaxDevice
  {
    d.(devType := Some(t), rfAddress := Some(rf), roomId := Some(roomId), roomName := Some(roomName),
       name := Some(name), serial := Some(serial))
  }

  /**
   * One discovery record: an unknown RF address of a thermostat type appends a
   * new thermostat, an unknown one of another type changes nothing, and a
   * known one is overwritten; the room id must be in the room table.
   */
  function MRecord(ds: seq<MaxDevice>, t: byte, rf: string, serial: string, name: string, roomId: byte,
                   rooms: map<int, string>): (r: Result<seq<MaxDevice>>)
  {
    var found := IndexOfRf(ds, rf);
    if found.None? && !IsThermostatType(Some(t)) then Ok(ds)
    else
      var ds1 := if found.None? then ds + [NewThermostat()] else ds;
      var i := if found.None? then |ds| else found.value;
      if roomId !in rooms then Err(KeyError)
      else Ok(ds1[i := Assign(ds1[i], t, rf, roomId, rooms[roomId], name, serial)])
  }

  /** The fields of one discovery device record. */
  datatype DeviceHeader = DeviceHeader(devType: byte, rf: string, serial: string, name: string, roomId: byte)

  /**
   * The device record of an M payload at cursor `pos`: {type, 3-byte RF
   * address, 10-byte serial, name length, name, room id, 2 unused bytes}, read
   * in the order the fields are taken.
   */
  function MHeader(data: seq<byte>, pos: nat, decode: Decoders): (r: Result<DeviceHeader>)
    ensures r.Ok? ==> pos + 14 < |data| && pos + 15 + data[pos + 14] < |data|
  {
    if pos >= |data| then Err(IndexError)
    else
      var serial :- Need(decode.utf8(Slice(data, pos + 4, pos + 14)), DecodeError);
      if pos + 14 >= |data| then Err(IndexError)
      else
        var nameLength := data[pos + 14];
        var name :- Need(decode.utf8(Slice(data, pos + 15, pos + 15 + nameLength)), DecodeError);
        if pos + 15 + nameLength >= |data| then Err(IndexError)
        else
          Ok(DeviceHeader(data[pos], ParseRfAddress(Slice(data, pos + 1, pos + 4)), serial, name,
                          data[pos + 15 + nameLength]))
  }

  /** One device record read and applied to the device list. */
  function MDevice(ds: seq<MaxDevice>, data: seq<byte>, pos: nat, rooms: map<int, string>, decode: Decoders): (r: Result<seq<MaxDevice>>)
    ensures r.Ok? ==> pos + 14 < |data| && pos + 15 + data[pos + 14] < |data|
  {
    var h :- MHeader(data, pos, decode);
    MRecord(ds, h.devType, h.rf, h.serial, h.name, h.roomId, rooms)
  }

  /** `count` device records from cursor `pos`, each 16 + its name length bytes long. */
  function MDevices(ds: seq<MaxDevice>, data: seq<byte>, pos: nat, count: nat, rooms: map<int, string>, decode: Decoders)
    : (r: Result<seq<MaxDevice>>)
    decreases count, 1
  {
    if count == 0 then Ok(ds) else MDevicesNext(ds, data, pos, count, rooms, decode)
  }

  /**
   * A non-empty run of device records: the record at `pos`, then the rest
   * from the cursor after it. A proof unfolds one record at a time.
   */
  function MDevicesNext(ds: seq<MaxDevice>, data: seq<byte>, pos: nat, count: nat, rooms: map<int, string>, decode: Decoders)
    : (r: Result<seq<MaxDevice>>)
    requires count > 0
    decreases count, 0
  {
    var ds' :- MDevice(ds, data, pos, rooms, decode);
    MDevices(ds', data, pos + 16 + data[pos + 14], count - 1, rooms, decode)
  }

  /** `parse_m_message` on the decoded payload: room count at byte 2, table from byte 3. */
  function ApplyM(ds: seq<MaxDevice>, data: seq<byte>, decode: Decoders): (r: Result<seq<MaxDevice>>)
  {
    if |data| < 3 then Err(IndexError)
    else
      var table :- MRooms(data, 3, data[2], map[], decode);
      var pos := table.1;
      if pos >= |data| then Err(IndexError)
      else MDevices(ds, data, pos + 1, data[pos], table.0, decode)
  }

  /** `parse_m_message`: decode the payload field, then read rooms and devices. */
  function ApplyMMessage(ds: seq<MaxDevice>, message: string, decode: Decoders): (r: Result<seq<MaxDevice>>)
  {
    var data :- MPayload(message, decode);
    ApplyM(ds, data, decode)
  }

  // ----------------------------------------------------------- L message

  /** How the decoded status applies an actual temperature and the target. */
  function Finish(d: MaxDevice, actual: Option<int>, b7: byte): (r: MaxDevice)
    requires d.Thermostat?
    ensures r.Thermostat?
  {
    var d1 := if actual != Some(0) then d.(actualTemperature := actual) else d;
    d1.(targetTemperature := Some(BitAnd(b7, 0x7F) * 5))
  }

  /**
   * One live-status record of a known thermostat whose length byte is at
   * `p - 1`. The link and battery flags come from byte 6 of the WHOLE
   * payload, not of this record.
   */
  function LRecord(d: MaxDevice, data: seq<byte>, p: nat): (r: Result<MaxDevice>)
    requires d.Thermostat?
    ensures r.Ok? ==> r.value.Thermostat?
  {
    if p + 6 > |data| || |data| < 7 then Err(StructError)
    else
      var mode := ResolveDeviceMode(data[p + 5]);
      var d1 := d.(linkOk := Some(BitAnd(data[6], 0x07) != 0),
                   batteryOk := Some(BitAnd(data[6], 0x08) != 0),
                   mode := Some(mode));
      if d.devType == Some(WallThermostatType) then
        if p + 11 >= |data| then Err(IndexError)
        else Ok(Finish(d1, Some(data[p + 11] + BitAnd(data[p + 7], 0x80) * 2), data[p + 7]))
      else if p + 6 >= |data| then Err(IndexError)
      else
        var d2 := d1.(valvePosition := Some(data[p + 6]));
        if mode == ModeManual || mode == ModeAutomatic then
          if p + 9 >= |data| then Err(IndexError)
          else Ok(Finish(d2, Some(data[p + 8] as int * 256 + data[p + 9]), data[p + 7]))
        else if p + 7 >= |data| then Err(IndexError)
        else Ok(Finish(d2, None, data[p + 7]))
  }

  /**
   * The live-status record whose length byte is at `pos`: a known thermostat
   * named by the three address bytes after it is updated, anything else is
   * skipped.
   */
  function LStep(ds: seq<MaxDevice>, data: seq<byte>, pos: nat): (r: Result<seq<MaxDevice>>)
    ensures r.Ok? ==> |r.value| == |ds|
  {
    var p := pos + 1;
    var found := IndexOfRf(ds, ParseRfAddress(Slice(data, p, p + 3)));
    if found.Some? && IsThermostat(ds[found.value]) then
      var d :- LRecord(ds[found.value], data, p);
      Ok(ds[found.value := d])
    else Ok(ds)
  }

  /** The live-status records from `pos` to the end of the payload. */
  function LRecords(ds: seq<MaxDevice>, data: seq<byte>, pos: nat): (r: Result<seq<MaxDevice>>)
    ensures r.Ok? ==> |r.value| == |ds|
    decreases |data| - pos
  {
    if pos >= |data| then Ok(ds)
    else
      var ds' :- LStep(ds, data, pos);
      LRecords(ds', data, pos + 1 + data[pos])
  }

  /** `parse_l_message`: everything after the tag is one base64 payload. */
  function ApplyLMessage(ds: seq<MaxDevice>, message: string, decode: Decoders): (r: Result<seq<MaxDevice>>)
    ensures r.Ok? ==> |r.value| == |ds|
  {
    var data :- Need(decode.base64(Drop(message, 2)), DecodeError);
    LRecords(ds, data, 0)
  }

  // ------------------------------------------------------------ responses

  /** What parsing a response sets on the cube. */
  datatype CubeState = CubeState(rfAddress: Option<string>, firmwareVersion: Option<string>, devices: seq<MaxDevice>)

  /**
   * One line of `parse_response`: stripped, ignored when 10 characters or
   * shorter, dispatched on its first character, ignored for any other tag.
   */
  function ApplyLine(st: CubeState, raw: string, decode: Decoders): (r: Result<CubeState>)
  {
    var line := Strip(raw);
    if |line| <= 10 then Ok(st)
    else if line[0] == 'C' then
      var ds :- ApplyC(st.devices, line, decode);
      Ok(st.(devices := ds))
    else if line[0] == 'H' then
      var h :- ApplyH(line);
      Ok(st.(rfAddress := Some(h.0), firmwareVersion := Some(h.1)))
    else if line[0] == 'L' then
      var ds :- ApplyLMessage(st.devices, line, decode);
      Ok(st.(devices := ds))
    else if line[0] == 'M' then
      var ds :- ApplyMMessage(st.devices, line, decode);
      Ok(st.(devices := ds))
    else Ok(st)
  }

  /** The lines in order; the first one that raises stops the rest. */
  function ApplyLines(st: CubeState, lines: seq<string>, decode: Decoders): (r: Result<CubeState>)
    decreases |lines|
  {
    if |lines| == 0 then Ok(st)
    else
      var st' :- ApplyLine(st, lines[0], decode);
      ApplyLines(st', lines[1..], decode)
  }

  /** `parse_response`: the response split at newlines. */
  function ApplyResponse(st: CubeState, response: string, decode: Decoders): (r: Result<CubeState>)
  {
    ApplyLines(st, Split(response, '\n'), decode)
  }

  // --------------------------------------------------------- set commands

  /** The room as the command text writes it: `str(room_id)`, with a leading 0 below 10. */
  function RoomText(roomId: int): string
  {
    if roomId < 10 then "0" + DecimalString(roomId) else DecimalString(roomId)
  }

  /** `int(temperature * 2) + (mode << 6)` for a temperature in tenths. */
  function CommandValue(temperature: int, mode: int): int
  {
    TruncDiv(temperature, 5) + mode * 64
  }

  /**
   * The target a thermostat records after a set, `int(t * 2) / 2.0`: the
   * requested tenths truncated toward zero to a half degree.
   */
  function StoredTarget(temperature: int): (r: int)
    ensures r % 5 == 0
    ensures temperature >= 0 ==> 0 <= r <= temperature < r + 5
    ensures temperature < 0 ==> r - 5 < temperature <= r <= 0
  {
    TruncDiv(temperature, 5) * 5
  }

  /** The hex text of an `s:` command before `bytes.fromhex`. */
  function CommandHex(rf: string, roomId: int, value: int): string
  {
    "000440000000" + rf + RoomText(roomId) + HexTail(value)
  }

  /** The payload `set_target_temperature` sends: new temperature, current mode. */
  function TemperaturePayload(d: MaxDevice, temperature: int): Result<seq<byte>>
    requires d.Thermostat?
  {
    var rf :- Need(d.rfAddress, TypeError);
    var roomId :- Need(d.roomId, TypeError);
    var mode :- Need(d.mode, TypeError);
    Need(FromHex(CommandHex(rf, roomId, CommandValue(temperature, mode))), ValueError)
  }

  /** The payload `set_mode` sends: current target temperature, new mode. */
  function ModePayload(d: MaxDevice, mode: int): Result<seq<byte>>
    requires d.Thermostat?
  {
    var rf :- Need(d.rfAddress, TypeError);
    var roomId :- Need(d.roomId, TypeError);
    var target :- Need(d.targetTemperature, TypeError);
    Need(FromHex(CommandHex(rf, roomId, CommandValue(target, mode))), ValueError)
  }

  /** What the hub's reply to a command reports. */
  datatype Reply = Reply(dutyCycle: int, commandResult: int, freeMemSlots: int)

  /**
   * The reply after its first two characters: exactly three comma-separated
   * fields, duty cycle in hex, result code in decimal, free memory slots in hex.
   */
  function ParseReply(response: string): Result<Reply>
  {
    var fields := Split(Drop(response, 2), ',');
    if |fields| != 3 then Err(ValueError)
    else
      var duty :- ParseInt(fields[0], 16);
      var result :- ParseInt(fields[1], 10);
      var free :- ParseInt(fields[2], 16);
      Ok(Reply(duty, result, free))
  }
}
