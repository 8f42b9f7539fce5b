/**
 * The hub client of maxcube/cube.py as a class: the cube's own record, the
 * device list it builds from the hub's response, and the two set commands.
 * Every method is proved to do what the codec functions of codec.dfy say.
 */
module Cube {
  import opened Wrappers
  import opened PyText
  import opened Device
  import opened Codec
  import opened CodecFacts

  /** The next response of a script: None, or no response left, is a failed connection. */
  function NextResponse(script: seq<Option<string>>): (r: Result<string>)
    ensures r.Ok? <==> script != [] && script[0].Some?
    ensures r.Ok? ==> r.value == script[0].value
  {
    if script == [] || script[0].None? then Err(IOError) else Ok(script[0].value)
  }

  function RestOf(script: seq<Option<string>>): (r: seq<Option<string>>)
    ensures script != [] ==> r == script[1..]
    ensures script == [] ==> r == []
  {
    if script == [] then [] else script[1..]
  }

  /**
   * What a command returns: the payload's own error, or else the reply read
   * from the hub's next answer, or the I/O error of a hub that answers nothing.
   */
  function CommandOutcome(payload: Result<seq<byte>>, script: seq<Option<string>>): (r: Result<Reply>)
    ensures payload.Err? ==> r == Err(payload.error)
    ensures payload.Ok? && NextResponse(script).Err? ==> r == Err(IOError)
    ensures payload.Ok? && NextResponse(script).Ok? ==> r == ParseReply(script[0].value)
  {
    if payload.Err? then Err(payload.error)
    else
      match NextResponse(script)
      case Err(e) => Err(e)
      case Ok(response) => ParseReply(response)
  }

  /** What a connection holds: the responses still to come and the payloads sent so far. */
  datatype Channel = Channel(script: seq<Option<string>>, sent: seq<seq<byte>>)

  /**
   * The connection after a command: a payload that cannot be built never
   * reaches the hub; otherwise one response is used up, and the payload is
   * logged exactly when the hub answered.
   */
  function CommandChannel(payload: Result<seq<byte>>, ch: Channel): (r: Channel)
    ensures payload.Err? ==> r == ch
    ensures payload.Ok? ==> r.script == RestOf(ch.script)
    ensures ch.sent <= r.sent && |r.sent| <= |ch.sent| + 1
    ensures |r.sent| == |ch.sent| + 1 <==> payload.Ok? && NextResponse(ch.script).Ok?
    ensures |r.sent| == |ch.sent| + 1 ==> r.sent[|ch.sent|] == payload.value
  {
    if payload.Err? then ch
    else Channel(RestOf(ch.script), ch.sent + (if NextResponse(ch.script).Ok? then [payload.value] else []))
  }

  /**
   * One entry of the room table of `parse_m_message`: the (signed) room id,
   * its name and the cursor after the entry.
   */
  method ReadRoom(data: seq<byte>, pos: nat, decode: Decoders) returns (r: Result<(int, string, nat)>)
    ensures r == MRoom(data, pos, decode)
  {
    if pos + 2 > |data| {
      return Err(StructError);
    }
    var roomId := Signed(data[pos]);
    var nameLength := Signed(data[pos + 1]);
    if nameLength < 0 {
      return Err(Unsupported);
    }
    var name := decode.utf8(Slice(data, pos + 2, pos + 2 + nameLength));
    if name.None? {
      return Err(DecodeError);
    }
    // the room's anchor device address is read and not used
    return Ok((roomId, name.value, pos + 2 + nameLength + 3));
  }

  /** The room table of a discovery payload, read entry by entry. */
  method ReadRoomTable(data: seq<byte>, decode: Decoders) returns (r: Result<(map<int, string>, nat)>)
    requires |data| >= 3
    ensures r == MRooms(data, 3, data[2], map[], decode)
  {
    var rooms: map<int, string> := map[];
    var pos: nat := 3;
    var remaining: nat := data[2];
    ghost var table := MRooms(data, pos, remaining, rooms, decode);
    while remaining > 0
      invariant table == MRooms(data, pos, remaining, rooms, decode)
    {
      var entry := ReadRoom(data, pos, decode);
      if entry.Err? {
        return Err(entry.error);
      }
      assert MRooms(data, pos, remaining, rooms, decode)
          == MRooms(data, entry.value.2, remaining - 1, rooms[entry.value.0 := entry.value.1], decode);
      rooms := rooms[entry.value.0 := entry.value.1];
      pos := entry.value.2;
      remaining := remaining - 1;
    }
    return Ok((rooms, pos));
  }

  /** The fields of one device record of `parse_m_message`, read in order. */
  method ReadDeviceHeader(data: seq<byte>, pos: nat, decode: Decoders) returns (r: Result<DeviceHeader>)
    ensures r == MHeader(data, pos, decode)
  {
    if pos >= |data| {
      return Err(IndexError);
    }
    var deviceType := data[pos];
    var rf := ParseRfAddress(Slice(data, pos + 1, pos + 4));
    var serial := decode.utf8(Slice(data, pos + 4, pos + 14));
    if serial.None? {
      return Err(DecodeError);
    }
    if pos + 14 >= |data| {
      return Err(IndexError);
    }
    var nameLength := data[pos + 14];
    var name := decode.utf8(Slice(data, pos + 15, pos + 15 + nameLength));
    if name.None? {
      return Err(DecodeError);
    }
    if pos + 15 + nameLength >= |data| {
      return Err(IndexError);
    }
    return Ok(DeviceHeader(deviceType, rf, serial.value, name.value, data[pos + 15 + nameLength]));
  }

  /** `device_by_rf` on a device list: the position of the first device with that address. */
  method FindByRf(ds: seq<MaxDevice>, rf: string) returns (r: Option<nat>)
    ensures r == IndexOfRf(ds, rf)
  {
    var i := 0;
    while i < |ds|
      invariant 0 <= i <= |ds|
      invariant forall j :: 0 <= j < i ==> ds[j].rfAddress != Some(rf)
    {
      if ds[i].rfAddress == Some(rf) {
        return Some(i);
      }
      i := i + 1;
    }
    return None;
  }

  /**
   * The device list update of one discovery record: a new thermostat address
   * adds a thermostat, a known address gets its identity overwritten.
   */
  method StoreDevice(ds: seq<MaxDevice>, h: DeviceHeader, rooms: map<int, string>) returns (r: Result<seq<MaxDevice>>)
    ensures r == MRecord(ds, h.devType, h.rf, h.serial, h.name, h.roomId, rooms)
  {
    var devices := ds;
    var found := FindByRf(devices, h.rf);
    if found.None? && IsThermostatType(Some(h.devType)) {
      devices := devices + [NewThermostat()];
      found := Some(|devices| - 1);
    }
    if found.Some? {
      if h.roomId !in rooms {
        return Err(KeyError);
      }
      var i := found.value;
      devices := devices[i := Assign(devices[i], h.devType, h.rf, h.roomId, rooms[h.roomId], h.name, h.serial)];
    }
    return Ok(devices);
  }

  /**
   * One device record of `parse_m_message`, read at `pos` and applied to the
   * device list: the first of the `count` records still to read.
   */
  method ReadDevice(ds: seq<MaxDevice>, data: seq<byte>, pos: nat, count: nat, rooms: map<int, string>, decode: Decoders)
    returns (r: Result<seq<MaxDevice>>)
    requires count > 0
    ensures r.Ok? ==> pos + 14 < |data|
    ensures r.Ok? ==> MDevices(ds, data, pos, count, rooms, decode)
                      == MDevices(r.value, data, pos + 16 + data[pos + 14], count - 1, rooms, decode)
    ensures r.Err? ==> MDevices(ds, data, pos, count, rooms, decode) == Err(r.error)
  {
    var header := ReadDeviceHeader(data, pos, decode);
    if header.Err? {
      assert MDevicesNext(ds, data, pos, count, rooms, decode) == Err(header.error);
      return Err(header.error);
    }
    r := StoreDevice(ds, header.value, rooms);
    assert MDevicesNext(ds, data, pos, count, rooms, decode)
        == if r.Err? then r else MDevices(r.value, data, pos + 16 + data[pos + 14], count - 1, rooms, decode);
  }

  /** The device-record loop of `parse_m_message`: `count` records from cursor `pos`. */
  method ReadDevices(ds: seq<MaxDevice>, data: seq<byte>, pos: nat, count: nat, rooms: map<int, string>, decode: Decoders)
    returns (r: Result<seq<MaxDevice>>)
    ensures r == MDevices(ds, data, pos, count, rooms, decode)
  {
    var devices := ds;
    var p: nat := pos;
    var remaining: nat := count;
    while remaining > 0
            invariant MDevices(ds, data, pos, count, rooms, decode) == MDevices(devices, data, p, remaining, rooms, decode)
    {
      var stored := ReadDevice(devices, data, p, remaining, rooms, decode);
      if stored.Err? {
        return Err(stored.error);
      }
      devices, p, remaining := stored.value, p + 16 + data[p + 14], remaining - 1;
    }
    return Ok(devices);
  }

  /**
   * One live-status record of `parse_l_message` for a known thermostat whose
   * record starts at `p`, after its length byte.
   */
  method ReadStatusRecord(d: MaxDevice, data: seq<byte>, p: nat) returns (r: Result<MaxDevice>)
    requires d.Thermostat?
    ensures r == LRecord(d, data, p)
  {
    var dev := d;
    if p + 6 > |data| || |data| < 7 {
      return Err(StructError);
    }
    var bits2, flags2 := data[p + 5], data[6];
    dev := dev.(linkOk := Some(BitAnd(flags2, 0x07) != 0), batteryOk := Some(BitAnd(flags2, 0x08) != 0));
    dev := dev.(mode := Some(ResolveDeviceMode(bits2)));
    var actual: Option<int> := None;
    if dev.devType == Some(WallThermostatType) {
      if p + 11 >= |data| {
        return Err(IndexError);
      }
      actual := Some(data[p + 11] as int + BitAnd(data[p + 7], 0x80) * 2);
    } else {
      if p + 6 >= |data| {
        return Err(IndexError);
      }
      dev := dev.(valvePosition := Some(data[p + 6] as int));
      if dev.mode == Some(ModeManual) || dev.mode == Some(ModeAutomatic) {
        if p + 9 >= |data| {
          return Err(IndexError);
        }
        actual := Some(data[p + 8] as int * 256 + data[p + 9]);
      }
    }
    if actual != Some(0) {
      dev := dev.(actualTemperature := actual);
    }
    if p + 7 >= |data| {
      return Err(IndexError);
    }
    dev := dev.(targetTemperature := Some(BitAnd(data[p + 7], 0x7F) * 5));
    return Ok(dev);
  }

  /** One pass of the `parse_l_message` loop: the record whose length byte is at `pos`. */
  method ReadStatusAt(ds: seq<MaxDevice>, data: seq<byte>, pos: nat) returns (r: Result<seq<MaxDevice>>)
    ensures r == LStep(ds, data, pos)
  {
    var rf := ParseRfAddress(Slice(data, pos + 1, pos + 4));
    var found := FindByRf(ds, rf);
    if found.Some? && IsThermostat(ds[found.value]) {
      var d := ReadStatusRecord(ds[found.value], data, pos + 1);
      if d.Err? {
        return Err(d.error);
      }
      return Ok(ds[found.value := d.value]);
    }
    return Ok(ds);
  }

  /** The record loop of `parse_l_message`: each record is a length byte and that many bytes. */
  method ReadStatusRecords(ds: seq<MaxDevice>, data: seq<byte>) returns (r: Result<seq<MaxDevice>>)
    ensures r == LRecords(ds, data, 0)
  {
    var devices := ds;
    var pos: nat := 0;
    while pos < |data|
            invariant LRecords(ds, data, 0) == LRecords(devices, data, pos)
      decreases |data| - pos
    {
      var step := ReadStatusAt(devices, data, pos);
      if step.Err? {
        return Err(step.error);
      }
      assert LRecords(devices, data, pos) == LRecords(step.value, data, pos + 1 + data[pos]);
      devices := step.value;
      pos := pos + 1 + data[pos];
    }
    return Ok(devices);
  }

  /**
   * The connection to the hub (the socket code is not part of this model):
   * every connect-and-read takes the next response of a script, and every
   * command payload handed to it is logged in order.
   */
  class Hub {
    var script: seq<Option<string>>
    var sent: seq<seq<byte>>

    constructor(script: seq<Option<string>>)
      ensures this.script == script && sent == []
    {
      this.script := script;
      sent := [];
    }

    /** The responses still to come and the payloads sent so far. */
    function State(): Channel
      reads this
    {
      Channel(script, sent)
    }

    /** Connect and read what the hub sends on its own: the greeting lines. */
    method Receive() returns (r: Result<string>)
      modifies this`script
      ensures r == NextResponse(old(script))
      ensures script == RestOf(old(script))
    {
      r := NextResponse(script);
      script := RestOf(script);
    }

    /**
     * Connect, send one command payload and read the hub's reply. A failed
     * connection sends nothing.
     */
    method Send(payload: seq<byte>) returns (r: Result<string>)
      modifies this
      ensures r == NextResponse(old(script))
      ensures script == RestOf(old(script))
      ensures sent == old(sent) + (if r.Ok? then [payload] else [])
    {
      r := NextResponse(script);
      if r.Ok? {
        sent := sent + [payload];
      }
      script := RestOf(script);
    }
  }

  /** `MaxCube`: the hub's own record and the devices it reports. */
  class MaxCube {
    const connection: Hub
    const decode: Decoders
    var rfAddress: Option<string>
    var firmwareVersion: Option<string>
    var devices: seq<MaxDevice>
    var dutyCycle: Option<int>
    var commandResult: Option<int>
    var commandSuccess: Option<bool>
    var freeMemSlots: Option<int>

    /** What parsing a response has set. */
    function State(): (st: CubeState)
      reads this
      ensures st.devices == devices
    {
      CubeState(rfAddress, firmwareVersion, devices)
    }

    /** Only thermostats are listed, each registered and under its own RF address. */
    predicate Valid()
      reads this
    {
      ValidDevices(devices)
    }

    /**
     * The fields `__init__` sets before it asks the hub for its state (that
     * request is `Update`, which the caller runs next).
     */
    constructor(connection: Hub, decode: Decoders)
      ensures this.connection == connection && this.decode == decode
      ensures State() == CubeState(None, None, [])
      ensures dutyCycle == None && commandResult == None && commandSuccess == None && freeMemSlots == None
      ensures Valid()
    {
      this.connection := connection;
      this.decode := decode;
      rfAddress := None;
      firmwareVersion := None;
      devices := [];
      dutyCycle := None;
      commandResult := None;
      commandSuccess := None;
      freeMemSlots := None;
    }

    /** `device_by_rf`: the position of the first device with that address. */
    method DeviceByRf(rf: string) returns (r: Option<nat>)
      ensures r == IndexOfRf(devices, rf)
    {
      r := FindByRf(devices, rf);
    }

    /** `parse_c_message`: minimum and maximum temperature of a known thermostat. */
    method ParseCMessage(message: string) returns (ok: bool)
      modifies this`devices
      ensures ok == ApplyC(old(devices), message, decode).Ok?
      ensures ok ==> devices == ApplyC(old(devices), message, decode).value
    {
      var rf := Upper(Drop(Split(Drop(message, 1), ',')[0], 1));
      var fields := Split(Drop(message, 2), ',');
      if |fields| < 2 {
        return false;
      }
      var decoded := decode.base64(fields[1]);
      if decoded.None? {
        return false;
      }
      var data := decoded.value;
      var found := DeviceByRf(rf);
      if found.Some? && IsThermostat(devices[found.value]) {
        if |data| < 22 {
          return false;
        }
        var i := found.value;
        devices := devices[i := devices[i].(minTemperature := Some(data[21] as int * 5),
                                            maxTemperature := Some(data[20] as int * 5))];
      }
      return true;
    }

    /**
     * `parse_h_message`: the hub's RF address and firmware version. As in the
     * source, the address is already set when the firmware token is missing.
     */
    method ParseHMessage(message: string) returns (ok: bool)
      modifies this`rfAddress, this`firmwareVersion
      ensures ok == ApplyH(message).Ok?
      ensures ok ==> rfAddress == Some(ApplyH(message).value.0)
      ensures ok ==> firmwareVersion == Some(ApplyH(message).value.1)
      ensures !ok ==> firmwareVersion == old(firmwareVersion)
    {
      var tokens := Split(Drop(message, 2), ',');
      if |tokens| < 2 {
        return false;
      }
      rfAddress := Some(tokens[1]);
      if |tokens| < 3 {
        return false;
      }
      firmwareVersion := Some(Slice(tokens[2], 0, 2) + "." + Slice(tokens[2], 2, 4));
      return true;
    }

    /**
     * `parse_m_message`: walks the room table, then the device records,
     * adding a thermostat for every new thermostat address and overwriting
     * the identity of every known one.
     */
    method ParseMMessage(message: string) returns (ok: bool)
      modifies this`devices
      ensures ok == ApplyMMessage(old(devices), message, decode).Ok?
      ensures ok ==> devices == ApplyMMessage(old(devices), message, decode).value
    {
      var fields := Split(Drop(message, 2), ',');
      if |fields| < 3 {
        return false;
      }
      var decoded := decode.base64(fields[2]);
      if decoded.None? {
        return false;
      }
      var data := decoded.value;
      if |data| < 3 {
        return false;
      }
      var table := ReadRoomTable(data, decode);
      if table.Err? {
        return false;
      }
      var pos := table.value.1;
      if pos >= |data| {
        return false;
      }
      var found := ReadDevices(devices, data, pos + 1, data[pos], table.value.0, decode);
      if found.Err? {
        return false;
      }
      devices := found.value;
      return true;
    }

    /**
     * `parse_l_message`: walks the live-status records and updates every
     * known thermostat among them. (`& 0xFF` on a byte is the byte itself.)
     */
    method ParseLMessage(message: string) returns (ok: bool)
      modifies this`devices
      ensures ok == ApplyLMessage(old(devices), message, decode).Ok?
      ensures ok ==> devices == ApplyLMessage(old(devices), message, decode).value
    {
      var decoded := decode.base64(Drop(message, 2));
      if decoded.None? {
        return false;
      }
      var updated := ReadStatusRecords(devices, decoded.value);
      if updated.Err? {
        return false;
      }
      devices := updated.value;
      return true;
    }

    /** One line of `parse_response`, dispatched on its first character. */
    method ParseLine(raw: string) returns (ok: bool)
      modifies this`rfAddress, this`firmwareVersion, this`devices
      ensures ok == ApplyLine(old(State()), raw, decode).Ok?
      ensures ok ==> State() == ApplyLine(old(State()), raw, decode).value
    {
      var line := Strip(raw);
      ok := true;
      if |line| > 10 {
        if line[0] == 'C' {
          ok := ParseCMessage(line);
        } else if line[0] == 'H' {
          ok := ParseHMessage(line);
        } else if line[0] == 'L' {
          ok := ParseLMessage(line);
        } else if line[0] == 'M' {
          ok := ParseMMessage(line);
        }
      }
    }

    /**
     * `parse_response`: every line stripped; lines of more than ten
     * characters go to the parser their first character names. The first
     * line that raises ends the parse.
     */
    method ParseResponse(response: string) returns (ok: bool)
      modifies this`rfAddress, this`firmwareVersion, this`devices
      ensures ok == ApplyResponse(old(State()), response, decode).Ok?
      ensures ok ==> State() == ApplyResponse(old(State()), response, decode).value
    {
      var lines := Split(response, '\n');
      ghost var spec := ApplyLines(State(), lines, decode);
      var i := 0;
      while i < |lines|
        invariant 0 <= i <= |lines|
                invariant spec == ApplyLines(State(), lines[i..], decode)
      {
        assert lines[i..][0] == lines[i] && lines[i..][1..] == lines[i + 1..];
        var lineOk := ParseLine(lines[i]);
        if !lineOk {
          return false;
        }
        i := i + 1;
      }
      return true;
    }

    /**
     * `update`: connect, take the hub's greeting and parse it. A failed
     * connection or a line that raises leaves `ok` false.
     */
    method Update() returns (ok: bool)
      requires Valid()
      modifies this`rfAddress, this`firmwareVersion, this`devices, connection`script
      ensures var response := NextResponse(old(connection.script));
        ok == (response.Ok? && ApplyResponse(old(State()), response.value, decode).Ok?)
      ensures ok ==> State() == ApplyResponse(old(State()), NextResponse(old(connection.script)).value, decode).value
      ensures connection.script == RestOf(old(connection.script))
      ensures ok ==> Valid()
    {
      var response := connection.Receive();
      if response.Err? {
        return false;
      }
      ghost var before := State();
      ok := ParseResponse(response.value);
      if ok {
        ApplyResponsePreserves(before, response.value, decode);
      }
    }

    /** Records the three fields of a parsed reply; success is a result code of 0. */
    method RecordReply(reply: Reply)
      modifies this`dutyCycle, this`commandResult, this`commandSuccess, this`freeMemSlots
      ensures dutyCycle == Some(reply.dutyCycle) && commandResult == Some(reply.commandResult)
      ensures freeMemSlots == Some(reply.freeMemSlots)
      ensures commandSuccess == Some(reply.commandResult == 0)
    {
      dutyCycle := Some(reply.dutyCycle);
      freeMemSlots := Some(reply.freeMemSlots);
      commandResult := Some(reply.commandResult);
      commandSuccess := Some(reply.commandResult == 0);
    }

    /**
     * Sends one command payload and reads the reply into the cube's reply
     * fields; `r` is the exception a failed connection or a malformed reply
     * raises.
     */
    method Exchange(payload: seq<byte>) returns (r: Result<Reply>)
      modifies this`dutyCycle, this`commandResult, this`commandSuccess, this`freeMemSlots, connection
      ensures var response := NextResponse(old(connection.script));
        r == if response.Ok? then ParseReply(response.value) else Err(response.error)
      ensures connection.script == RestOf(old(connection.script))
      ensures connection.sent == old(connection.sent) + (if NextResponse(old(connection.script)).Ok? then [payload] else [])
      ensures r.Ok? ==> dutyCycle == Some(r.value.dutyCycle) && commandResult == Some(r.value.commandResult)
      ensures r.Ok? ==> freeMemSlots == Some(r.value.freeMemSlots) && commandSuccess == Some(r.value.commandResult == 0)
      ensures r.Err? ==> dutyCycle == old(dutyCycle) && commandResult == old(commandResult)
      ensures r.Err? ==> freeMemSlots == old(freeMemSlots) && commandSuccess == old(commandSuccess)
    {
      var response := connection.Send(payload);
      if response.Err? {
        return Err(response.error);
      }
      r := ParseReply(response.value);
      if r.Ok? {
        RecordReply(r.value);
      }
    }

    /**
     * `set_target_temperature` of the device at `i`: the command with the
     * new temperature and the device's mode, the reply read into the reply
     * fields, then the target, truncated to half degrees, stored whatever
     * the result code said.
     */
    method SetTargetTemperature(i: nat, temperature: int) returns (r: Result<Reply>)
      requires Valid() && i < |devices|
      modifies this`devices, this`dutyCycle, this`commandResult, this`commandSuccess, this`freeMemSlots, connection
      ensures var payload := TemperaturePayload(old(devices[i]), temperature);
        && (payload.Err? ==> r == Err(payload.error) && connection.sent == old(connection.sent)
                             && connection.script == old(connection.script))
        && (payload.Ok? ==> connection.script == RestOf(old(connection.script))
                            && connection.sent == old(connection.sent)
                               + (if NextResponse(old(connection.script)).Ok? then [payload.value] else []))
        && r == CommandOutcome(payload, old(connection.script))
      ensures r.Ok? ==> devices == old(devices)[i := old(devices[i]).(targetTemperature := Some(StoredTarget(temperature)))]
      ensures r.Err? ==> devices == old(devices)
      ensures r.Ok? ==> commandSuccess == Some(r.value.commandResult == 0) && dutyCycle == Some(r.value.dutyCycle)
      ensures r.Ok? ==> commandResult == Some(r.value.commandResult) && freeMemSlots == Some(r.value.freeMemSlots)
      ensures Valid()
    {
      var payload := TemperaturePayload(devices[i], temperature);
      if payload.Err? {
        return Err(payload.error);
      }
      r := Exchange(payload.value);
      if r.Ok? {
        var d := devices[i].(targetTemperature := Some(StoredTarget(temperature)));
        ReplaceIdentity(devices, i, d);
        SameIdentitiesValid(devices, devices[i := d]);
        devices := devices[i := d];
      }
    }

    /**
     * `set_mode` of the device at `i`: the command with the device's stored
     * target and the new mode, the reply read into the reply fields, then
     * the mode stored whatever the result code said.
     */
    method SetMode(i: nat, mode: int) returns (r: Result<Reply>)
      requires Valid() && i < |devices|
      modifies this`devices, this`dutyCycle, this`commandResult, this`commandSuccess, this`freeMemSlots, connection
      ensures var payload := ModePayload(old(devices[i]), mode);
        && (payload.Err? ==> r == Err(payload.error) && connection.sent == old(connection.sent)
                             && connection.script == old(connection.script))
        && (payload.Ok? ==> connection.script == RestOf(old(connection.script))
                            && connection.sent == old(connection.sent)
                               + (if NextResponse(old(connection.script)).Ok? then [payload.value] else []))
        && r == CommandOutcome(payload, old(connection.script))
      ensures r.Ok? ==> devices == old(devices)[i := old(devices[i]).(mode := Some(mode))]
      ensures r.Err? ==> devices == old(devices)
      ensures r.Ok? ==> commandSuccess == Some(r.value.commandResult == 0) && dutyCycle == Some(r.value.dutyCycle)
      ensures r.Ok? ==> commandResult == Some(r.value.commandResult) && freeMemSlots == Some(r.value.freeMemSlots)
      ensures Valid()
    {
      var payload := ModePayload(devices[i], mode);
      if payload.Err? {
        return Err(payload.error);
      }
      r := Exchange(payload.value);
      if r.Ok? {
        var d := devices[i].(mode := Some(mode));
        ReplaceIdentity(devices, i, d);
        SameIdentitiesValid(devices, devices[i := d]);
        devices := devices[i := d];
      }
    }
  }
}
