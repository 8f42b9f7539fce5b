/**
 * What the codec of codec.dfy guarantees: which devices a discovery (M)
 * record creates or overwrites, what a live-status (L) record writes, that
 * no message breaks the cube's device invariant, how responses compose
 * line by line, and the byte layout of the set command and its reply.
 */
module CodecFacts {
  import opened Wrappers
  import opened PyText
  import opened Device
  import opened Codec

  // ---------------------------------------------------- RF address lookup

  /** The first device carrying an address is the one the lookup finds. */
  lemma IndexOfRfFirst(ds: seq<MaxDevice>, rf: string, i: nat)
    requires i < |ds| && ds[i].rfAddress == Some(rf)
    requires forall j :: 0 <= j < i ==> ds[j].rfAddress != Some(rf)
    ensures IndexOfRf(ds, rf) == Some(i)
  {
  }

  /** Under unique addresses, every listed device is found by its own address. */
  lemma IndexOfRfListed(ds: seq<MaxDevice>, i: nat)
    requires UniqueRf(ds) && i < |ds| && ds[i].rfAddress.Some?
    ensures IndexOfRf(ds, ds[i].rfAddress.value) == Some(i)
  {
    IndexOfRfFirst(ds, ds[i].rfAddress.value, i);
  }

  /** Discovery keeps every device it had, in place and under its address. */
  predicate KeepsDevices(ds: seq<MaxDevice>, es: seq<MaxDevice>)
  {
    |ds| <= |es| && forall j :: 0 <= j < |ds| ==> es[j].rfAddress == ds[j].rfAddress && es[j].Thermostat? == ds[j].Thermostat?
  }

  lemma KeepsDevicesTrans(ds: seq<MaxDevice>, es: seq<MaxDevice>, fs: seq<MaxDevice>)
    requires KeepsDevices(ds, es) && KeepsDevices(es, fs)
    ensures KeepsDevices(ds, fs)
  {
  }

  // ------------------------------------------------- discovery (M) records

  /** A record fails only on a room id missing from the room table, and only when it would be stored. */
  lemma MRecordFails(ds: seq<MaxDevice>, t: byte, rf: string, serial: string, name: string, roomId: byte,
                     rooms: map<int, string>)
    ensures MRecord(ds, t, rf, serial, name, roomId, rooms).Err?
        <==> (IndexOfRf(ds, rf).Some? || IsThermostatType(Some(t))) && roomId !in rooms
    ensures MRecord(ds, t, rf, serial, name, roomId, rooms).Err? ==> MRecord(ds, t, rf, serial, name, roomId, rooms).error == KeyError
  {
  }

  /**
   * The list grows by one exactly for an unknown address of a thermostat
   * type; devices under any other address are left as they were.
   */
  lemma MRecordFrame(ds: seq<MaxDevice>, t: byte, rf: string, serial: string, name: string, roomId: byte,
                     rooms: map<int, string>)
    requires MRecord(ds, t, rf, serial, name, roomId, rooms).Ok?
    ensures var es := MRecord(ds, t, rf, serial, name, roomId, rooms).value;
      && |es| == (if IndexOfRf(ds, rf).None? && IsThermostatType(Some(t)) then |ds| + 1 else |ds|)
      && (forall j :: 0 <= j < |ds| && ds[j].rfAddress != Some(rf) ==> es[j] == ds[j])
      && KeepsDevices(ds, es)
  {
  }

  /**
   * A stored record is then found under its address with the record's
   * type, room, room name, name and serial; a known device keeps its
   * status fields and a new one is a fresh thermostat.
   */
  lemma MRecordRegisters(ds: seq<MaxDevice>, t: byte, rf: string, serial: string, name: string, roomId: byte,
                         rooms: map<int, string>)
    requires MRecord(ds, t, rf, serial, name, roomId, rooms).Ok?
    requires IndexOfRf(ds, rf).Some? || IsThermostatType(Some(t))
    ensures var es := MRecord(ds, t, rf, serial, name, roomId, rooms).value;
      var i := if IndexOfRf(ds, rf).Some? then IndexOfRf(ds, rf).value else |ds|;
      && IndexOfRf(es, rf) == Some(i)
      && es[i] == Assign(if i < |ds| then ds[i] else NewThermostat(), t, rf, roomId, rooms[roomId], name, serial)
  {
    var es := MRecord(ds, t, rf, serial, name, roomId, rooms).value;
    var i := if IndexOfRf(ds, rf).Some? then IndexOfRf(ds, rf).value else |ds|;
    IndexOfRfFirst(es, rf, i);
  }

  /** Replacing a device by a registered one under the same address keeps the invariant. */
  lemma ReplacePreserves(ds: seq<MaxDevice>, i: nat, x: MaxDevice)
    requires ValidDevices(ds) && i < |ds|
    requires Registered(x) && x.rfAddress == ds[i].rfAddress
    ensures ValidDevices(ds[i := x])
  {
  }

  /** Appending a registered device under a new address keeps the invariant. */
  lemma AppendPreserves(ds: seq<MaxDevice>, x: MaxDevice)
    requires ValidDevices(ds) && Registered(x)
    requires forall j :: 0 <= j < |ds| ==> ds[j].rfAddress != x.rfAddress
    ensures ValidDevices(ds + [x])
  {
  }

  /** A stored record keeps the list registered thermostats with unique addresses. */
  lemma MRecordPreserves(ds: seq<MaxDevice>, t: byte, rf: string, serial: string, name: string, roomId: byte,
                         rooms: map<int, string>)
    requires ValidDevices(ds)
    requires MRecord(ds, t, rf, serial, name, roomId, rooms).Ok?
    ensures ValidDevices(MRecord(ds, t, rf, serial, name, roomId, rooms).value)
  {
    var found := IndexOfRf(ds, rf);
    if found.Some? {
      ReplacePreserves(ds, found.value, Assign(ds[found.value], t, rf, roomId, rooms[roomId], name, serial));
    } else if IsThermostatType(Some(t)) {
      var x := Assign(NewThermostat(), t, rf, roomId, rooms[roomId], name, serial);
      AppendPreserves(ds, x);
      assert (ds + [NewThermostat()])[|ds| := x] == ds + [x];
    }
  }

  /** A run of device records keeps the invariant. */
  lemma {:induction false} MDevicesPreserves(ds: seq<MaxDevice>, data: seq<byte>, pos: nat, count: nat,
                                             rooms: map<int, string>, decode: Decoders)
    requires ValidDevices(ds)
    requires MDevices(ds, data, pos, count, rooms, decode).Ok?
    ensures ValidDevices(MDevices(ds, data, pos, count, rooms, decode).value)
    decreases count
  {
    if count > 0 {
      assert MDevices(ds, data, pos, count, rooms, decode) == MDevicesNext(ds, data, pos, count, rooms, decode);
      var h := MHeader(data, pos, decode).value;
      var es := MDevice(ds, data, pos, rooms, decode).value;
      MRecordPreserves(ds, h.devType, h.rf, h.serial, h.name, h.roomId, rooms);
      MDevicesPreserves(es, data, pos + 16 + data[pos + 14], count - 1, rooms, decode);
    }
  }

  /** A whole discovery message keeps the invariant. */
  lemma ApplyMMessagePreserves(ds: seq<MaxDevice>, message: string, decode: Decoders)
    requires ValidDevices(ds)
    requires ApplyMMessage(ds, message, decode).Ok?
    ensures ValidDevices(ApplyMMessage(ds, message, decode).value)
  {
    var data := MPayload(message, decode).value;
    var table := MRooms(data, 3, data[2], map[], decode).value;
    MDevicesPreserves(ds, data, table.1 + 1, data[table.1], table.0, decode);
  }

  // ---------------------------------------------- live-status (L) records

  /**
   * A status record fails exactly when the payload is too short for the
   * bytes its kind reads: byte 6 and six record bytes for every kind, then
   * up to record byte 11 for a wall thermostat, byte 9 in automatic or
   * manual mode and byte 7 otherwise.
   */
  lemma LRecordFails(d: MaxDevice, data: seq<byte>, p: nat)
    requires d.Thermostat?
    ensures LRecord(d, data, p).Err?
        <==> |data| < 7 || p + 6 > |data|
             || (if d.devType == Some(WallThermostatType) then p + 11
                 else if data[p + 5] % 4 < 2 then p + 9 else p + 7) >= |data|
    ensures LRecord(d, data, p).Err? ==>
              LRecord(d, data, p).error == if |data| < 7 || p + 6 > |data| then StructError else IndexError
  {
  }

  /**
   * The flags every status record writes: link and battery from byte 6 of
   * the whole payload, the mode from the low two bits of record byte 5.
   */
  lemma LRecordFlags(d: MaxDevice, data: seq<byte>, p: nat)
    requires d.Thermostat? && LRecord(d, data, p).Ok?
    ensures var e := LRecord(d, data, p).value;
      && e.linkOk == Some(data[6] % 8 != 0)
      && e.batteryOk == Some((data[6] / 8) % 2 == 1)
      && e.mode == Some(data[p + 5] % 4)
  {
    ByteMasks(data[6]);
  }

  /** Every status record writes the target: the low seven bits of record byte 7, in half degrees. */
  lemma LRecordTarget(d: MaxDevice, data: seq<byte>, p: nat)
    requires d.Thermostat? && LRecord(d, data, p).Ok?
    ensures LRecord(d, data, p).value.targetTemperature == Some((data[p + 7] as int % 128) * 5)
  {
    ByteMasks(data[p + 7]);
  }

  /**
   * A wall thermostat's actual temperature is record byte 11 plus 256 when
   * the top bit of record byte 7 is set, in tenths; zero is not applied and
   * the valve is not touched.
   */
  lemma LRecordWall(d: MaxDevice, data: seq<byte>, p: nat)
    requires d.Thermostat? && d.devType == Some(WallThermostatType) && LRecord(d, data, p).Ok?
    ensures var e := LRecord(d, data, p).value;
      var v := data[p + 11] as int + (data[p + 7] as int / 128) * 256;
      && e.actualTemperature == (if v != 0 then Some(v) else d.actualTemperature)
      && e.valvePosition == d.valvePosition
  {
    ByteMasks(data[p + 7]);
  }

  /**
   * Any other thermostat reports its valve in record byte 6; in automatic or
   * manual mode the actual temperature is the big-endian pair at record
   * bytes 8-9 (zero is not applied), in vacation or boost mode it is unset.
   */
  lemma LRecordRadiator(d: MaxDevice, data: seq<byte>, p: nat)
    requires d.Thermostat? && d.devType != Some(WallThermostatType) && LRecord(d, data, p).Ok?
    ensures var e := LRecord(d, data, p).value;
      && e.valvePosition == Some(data[p + 6] as int)
      && (data[p + 5] % 4 < 2 ==>
            var v := data[p + 8] as int * 256 + data[p + 9];
            e.actualTemperature == if v != 0 then Some(v) else d.actualTemperature)
      && (data[p + 5] % 4 >= 2 ==> e.actualTemperature == None)
  {
  }

  /** A status record leaves identity and the temperature limits alone. */
  lemma LRecordIdentity(d: MaxDevice, data: seq<byte>, p: nat)
    requires d.Thermostat? && LRecord(d, data, p).Ok?
    ensures SameIdentity(d, LRecord(d, data, p).value)
    ensures LRecord(d, data, p).value.minTemperature == d.minTemperature
    ensures LRecord(d, data, p).value.maxTemperature == d.maxTemperature
  {
  }

  /** The address a status record whose length byte is at `pos` names. */
  function StatusAddress(data: seq<byte>, pos: nat): string
  {
    ParseRfAddress(Slice(data, pos + 1, pos + 4))
  }

  /** Every device whose status a payload wrote carries the payload's link and battery flags. */
  predicate FlagsFrom(ds: seq<MaxDevice>, es: seq<MaxDevice>, data: seq<byte>)
    requires |data| >= 7
  {
    |ds| == |es| &&
    forall i :: 0 <= i < |ds| ==>
      es[i] == ds[i] || (es[i].linkOk == Some(data[6] % 8 != 0) && es[i].batteryOk == Some((data[6] / 8) % 2 == 1))
  }

  /**
   * One pass of the record loop changes only the known thermostat its
   * address names, and nothing when there is none; identities are kept.
   */
  lemma LStepFrame(ds: seq<MaxDevice>, data: seq<byte>, pos: nat)
    requires LStep(ds, data, pos).Ok?
    ensures var es := LStep(ds, data, pos).value;
      && SameIdentities(ds, es)
      && (forall j :: 0 <= j < |ds| && ds[j].rfAddress != Some(StatusAddress(data, pos)) ==> es[j] == ds[j])
      && (forall j :: 0 <= j < |ds| && !IsThermostat(ds[j]) ==> es[j] == ds[j])
      && (|data| >= 7 ==> FlagsFrom(ds, es, data))
  {
    var found := IndexOfRf(ds, StatusAddress(data, pos));
    if found.Some? && IsThermostat(ds[found.value]) {
      LRecordIdentity(ds[found.value], data, pos + 1);
      LRecordFlags(ds[found.value], data, pos + 1);
    }
  }

  lemma SameIdentitiesTrans(ds: seq<MaxDevice>, es: seq<MaxDevice>, fs: seq<MaxDevice>)
    requires SameIdentities(ds, es) && SameIdentities(es, fs)
    ensures SameIdentities(ds, fs)
  {
  }

  /** Lists with the same identities are equally valid. */
  lemma SameIdentitiesValid(ds: seq<MaxDevice>, es: seq<MaxDevice>)
    requires SameIdentities(ds, es) && ValidDevices(ds)
    ensures ValidDevices(es)
  {
    assert forall i :: 0 <= i < |es| ==> es[i].rfAddress == ds[i].rfAddress;
  }

  /**
   * The record loop keeps every identity, and every device it writes gets
   * the same link and battery flags, those of payload byte 6.
   */
  lemma {:induction false} LRecordsFrame(ds: seq<MaxDevice>, data: seq<byte>, pos: nat)
    requires LRecords(ds, data, pos).Ok?
    ensures SameIdentities(ds, LRecords(ds, data, pos).value)
    ensures |data| >= 7 ==> FlagsFrom(ds, LRecords(ds, data, pos).value, data)
    decreases |data| - pos
  {
    if pos < |data| {
      var es := LStep(ds, data, pos).value;
      LStepFrame(ds, data, pos);
      LRecordsFrame(es, data, pos + 1 + data[pos]);
      SameIdentitiesTrans(ds, es, LRecords(ds, data, pos).value);
    }
  }

  /** A live-status message changes no identity, so it keeps the invariant. */
  lemma ApplyLMessagePreserves(ds: seq<MaxDevice>, message: string, decode: Decoders)
    requires ApplyLMessage(ds, message, decode).Ok?
    ensures SameIdentities(ds, ApplyLMessage(ds, message, decode).value)
    ensures ValidDevices(ds) ==> ValidDevices(ApplyLMessage(ds, message, decode).value)
  {
    LRecordsFrame(ds, decode.base64(Drop(message, 2)).value, 0);
    if ValidDevices(ds) {
      SameIdentitiesValid(ds, ApplyLMessage(ds, message, decode).value);
    }
  }

  /** Lists with the same identities keep every device. */
  lemma SameIdentitiesKeep(ds: seq<MaxDevice>, es: seq<MaxDevice>)
    requires SameIdentities(ds, es)
    ensures KeepsDevices(ds, es)
  {
    assert forall i :: 0 <= i < |es| ==> es[i].rfAddress == ds[i].rfAddress;
  }

  // ---------------------------------------------- configuration (C) lines

  /** The decoded payload of a configuration line, when it has one. */
  function ConfigData(message: string, decode: Decoders): Option<seq<byte>>
  {
    var fields := Split(Drop(message, 2), ',');
    if |fields| < 2 then None else decode.base64(fields[1])
  }

  /**
   * A configuration line fails when it has no payload field, the payload
   * does not decode, or it names a known thermostat and is shorter than 22
   * bytes.
   */
  lemma ApplyCFails(ds: seq<MaxDevice>, message: string, decode: Decoders)
    ensures var found := IndexOfRf(ds, ConfigAddress(message));
      ApplyC(ds, message, decode).Err? <==>
        (ConfigData(message, decode).None?
         || (found.Some? && IsThermostat(ds[found.value]) && |ConfigData(message, decode).value| < 22))
  {
  }

  /** The payload field of a configuration line that did not fail. */
  lemma ApplyCData(ds: seq<MaxDevice>, message: string, decode: Decoders)
    requires ApplyC(ds, message, decode).Ok?
    ensures ConfigData(message, decode).Some?
    ensures var found := IndexOfRf(ds, ConfigAddress(message));
      found.Some? && IsThermostat(ds[found.value]) ==>
        var data := ConfigData(message, decode).value;
        && |data| >= 22
        && ApplyC(ds, message, decode).value
           == ds[found.value := ds[found.value].(minTemperature := Some(data[21] as int * 5),
                                                 maxTemperature := Some(data[20] as int * 5))]
    ensures var found := IndexOfRf(ds, ConfigAddress(message));
      !(found.Some? && IsThermostat(ds[found.value])) ==> ApplyC(ds, message, decode).value == ds
  {
    assert PyIndex(Split(Drop(message, 2), ','), 1).Ok?;
  }

  /**
   * A configuration line sets the minimum from payload byte 21 and the
   * maximum from byte 20 (in half degrees) of the known thermostat it
   * names, and nothing else of it.
   */
  lemma ApplyCSetsLimits(ds: seq<MaxDevice>, message: string, decode: Decoders)
    requires ApplyC(ds, message, decode).Ok?
    requires IndexOfRf(ds, ConfigAddress(message)).Some?
    requires IsThermostat(ds[IndexOfRf(ds, ConfigAddress(message)).value])
    ensures var i := IndexOfRf(ds, ConfigAddress(message)).value;
      var d, e, data := ds[i], ApplyC(ds, message, decode).value[i], ConfigData(message, decode).value;
      && |data| >= 22
      && e.minTemperature == Some(data[21] as int * 5) && e.maxTemperature == Some(data[20] as int * 5)
      && e == d.(minTemperature := e.minTemperature, maxTemperature := e.maxTemperature)
  {
    ApplyCData(ds, message, decode);
  }

  /** Every other device is kept, and no identity changes. */
  lemma ApplyCFrame(ds: seq<MaxDevice>, message: string, decode: Decoders)
    requires ApplyC(ds, message, decode).Ok?
    ensures var es := ApplyC(ds, message, decode).value;
      var found := IndexOfRf(ds, ConfigAddress(message));
      && SameIdentities(ds, es)
      && forall j :: 0 <= j < |ds| && (found != Some(j) || !IsThermostat(ds[j])) ==> es[j] == ds[j]
  {
    ApplyCData(ds, message, decode);
    var found := IndexOfRf(ds, ConfigAddress(message));
    if found.Some? && IsThermostat(ds[found.value]) {
      var i := found.value;
      var data := ConfigData(message, decode).value;
      var x := ds[i].(minTemperature := Some(data[21] as int * 5), maxTemperature := Some(data[20] as int * 5));
      assert SameIdentity(ds[i], x);
      ReplaceIdentity(ds, i, x);
    }
  }

  /** Replacing one device by one of the same identity keeps every identity and every other device. */
  lemma ReplaceIdentity(ds: seq<MaxDevice>, i: nat, x: MaxDevice)
    requires i < |ds| && SameIdentity(ds[i], x)
    ensures SameIdentities(ds, ds[i := x])
    ensures forall j :: 0 <= j < |ds| && j != i ==> ds[i := x][j] == ds[j]
  {
  }

  /** Replacing one device leaves the devices after it as they were. */
  lemma ReplaceKeepsTail(ds: seq<MaxDevice>, i: nat, x: MaxDevice)
    requires i < |ds|
    ensures ds[i := x][i + 1..] == ds[i + 1..]
  {
  }

  /** A configuration line changes no identity, so it keeps the invariant. */
  lemma ApplyCPreserves(ds: seq<MaxDevice>, message: string, decode: Decoders)
    requires ApplyC(ds, message, decode).Ok?
    ensures ValidDevices(ds) ==> ValidDevices(ApplyC(ds, message, decode).value)
    ensures KeepsDevices(ds, ApplyC(ds, message, decode).value)
  {
    ApplyCFrame(ds, message, decode);
    SameIdentitiesKeep(ds, ApplyC(ds, message, decode).value);
    if ValidDevices(ds) {
      SameIdentitiesValid(ds, ApplyC(ds, message, decode).value);
    }
  }

  // -------------------------------------------------------- hub (H) lines

  /** A hub line with three tokens or more: the address and the dotted firmware text. */
  lemma ApplyHTokens(message: string, tokens: seq<string>)
    requires Split(Drop(message, 2), ',') == tokens
    requires |tokens| >= 3 && |tokens[2]| >= 4
    ensures ApplyH(message) == Ok((tokens[1], tokens[2][0..2] + "." + tokens[2][2..4]))
  {
    SliceInRange(tokens[2], 0, 2);
    SliceInRange(tokens[2], 2, 4);
  }

  /** The tag of a line is the first two characters only. */
  lemma DropTag(tag: string, body: string)
    requires |tag| == 2
    ensures Drop(tag + body, 2) == body
  {
    DropInRange(tag + body, 2);
    assert (tag + body)[2..] == body;
  }

  /**
   * A hub line `H:` followed by comma-free fields serial, address, firmware
   * and any more gives the address and the firmware text as digits 0-1, a
   * dot and digits 2-3.
   */
  lemma ApplyHRoundTrip(tag: string, fields: seq<string>)
    requires |tag| == 2 && |fields| >= 3 && |fields[2]| >= 4
    requires forall k :: 0 <= k < |fields| ==> ',' !in fields[k]
    ensures ApplyH(tag + Join(fields, ',')) == Ok((fields[1], fields[2][0..2] + "." + fields[2][2..4]))
  {
    JoinSplit(fields, ',');
    DropTag(tag, Join(fields, ','));
    ApplyHTokens(tag + Join(fields, ','), fields);
  }

  // ------------------------------------------------------------ responses

  /** A line is stripped before it is read, so stripping it first changes nothing. */
  lemma ApplyLineStrip(st: CubeState, raw: string, decode: Decoders)
    ensures ApplyLine(st, Strip(raw), decode) == ApplyLine(st, raw, decode)
  {
    var line := Strip(raw);
    StripIdempotent(raw);
    if |line| > 10 {
      if line[0] == 'C' {
        assert ApplyLine(st, line, decode) == ApplyLine(st, raw, decode);
      } else if line[0] == 'H' {
        assert ApplyLine(st, line, decode) == ApplyLine(st, raw, decode);
      } else if line[0] == 'L' {
        assert ApplyLine(st, line, decode) == ApplyLine(st, raw, decode);
      } else if line[0] == 'M' {
        assert ApplyLine(st, line, decode) == ApplyLine(st, raw, decode);
      }
    }
  }

  /** A line that is read at all: longer than ten characters after stripping, tag C, H, L or M. */
  predicate Dispatched(raw: string)
  {
    var line := Strip(raw);
    |line| > 10 && (line[0] == 'C' || line[0] == 'H' || line[0] == 'L' || line[0] == 'M')
  }

  /**
   * A short line or one with another tag changes nothing; a hub line sets
   * only the hub's address and firmware, any other line only the devices.
   */
  lemma ApplyLineFrame(st: CubeState, raw: string, decode: Decoders)
    requires ApplyLine(st, raw, decode).Ok?
    ensures var r, line := ApplyLine(st, raw, decode).value, Strip(raw);
      && (!Dispatched(raw) ==> r == st)
      && (Dispatched(raw) && line[0] == 'H' ==>
            r == st.(rfAddress := Some(ApplyH(line).value.0), firmwareVersion := Some(ApplyH(line).value.1)))
      && (!(Dispatched(raw) && line[0] == 'H') ==> r.rfAddress == st.rfAddress && r.firmwareVersion == st.firmwareVersion)
  {
    var line := Strip(raw);
    if |line| <= 10 {
      assert !Dispatched(raw);
    } else if line[0] == 'H' {
      var h := ApplyH(line).value;
      assert ApplyLine(st, raw, decode) == Ok(st.(rfAddress := Some(h.0), firmwareVersion := Some(h.1)));
    } else if line[0] != 'C' && line[0] != 'L' && line[0] != 'M' {
      assert !Dispatched(raw);
    }
  }

  /** No line breaks the device invariant or drops a device. */
  lemma ApplyLinePreserves(st: CubeState, raw: string, decode: Decoders)
    requires ApplyLine(st, raw, decode).Ok?
    ensures ValidDevices(st.devices) ==> ValidDevices(ApplyLine(st, raw, decode).value.devices)
    ensures KeepsDevices(st.devices, ApplyLine(st, raw, decode).value.devices)
  {
    var line := Strip(raw);
    var es := ApplyLine(st, raw, decode).value.devices;
    if |line| > 10 && line[0] == 'C' {
      ApplyCPreserves(st.devices, line, decode);
    } else if |line| > 10 && line[0] == 'L' {
      ApplyLMessagePreserves(st.devices, line, decode);
      SameIdentitiesKeep(st.devices, es);
    } else if |line| > 10 && line[0] == 'M' {
      if ValidDevices(st.devices) {
        ApplyMMessagePreserves(st.devices, line, decode);
      }
      MMessageKeeps(st.devices, line, decode);
    }
  }

  /** A discovery message keeps every device already listed, whatever the list. */
  lemma MMessageKeeps(ds: seq<MaxDevice>, message: string, decode: Decoders)
    requires ApplyMMessage(ds, message, decode).Ok?
    ensures KeepsDevices(ds, ApplyMMessage(ds, message, decode).value)
  {
    var data := MPayload(message, decode).value;
    var table := MRooms(data, 3, data[2], map[], decode).value;
    MDevicesKeep(ds, data, table.1 + 1, data[table.1], table.0, decode);
  }

  /** A run of device records keeps every device already listed. */
  lemma {:induction false} MDevicesKeep(ds: seq<MaxDevice>, data: seq<byte>, pos: nat, count: nat,
                                        rooms: map<int, string>, decode: Decoders)
    requires MDevices(ds, data, pos, count, rooms, decode).Ok?
    ensures KeepsDevices(ds, MDevices(ds, data, pos, count, rooms, decode).value)
    decreases count
  {
    if count > 0 {
      assert MDevices(ds, data, pos, count, rooms, decode) == MDevicesNext(ds, data, pos, count, rooms, decode);
      var h := MHeader(data, pos, decode).value;
      var es := MDevice(ds, data, pos, rooms, decode).value;
      MRecordFrame(ds, h.devType, h.rf, h.serial, h.name, h.roomId, rooms);
      MDevicesKeep(es, data, pos + 16 + data[pos + 14], count - 1, rooms, decode);
      KeepsDevicesTrans(ds, es, MDevices(es, data, pos + 16 + data[pos + 14], count - 1, rooms, decode).value);
    }
  }

  /** Reading lines `a + b` is reading `a`, then `b` from where `a` left the cube. */
  lemma {:induction false} ApplyLinesAppend(st: CubeState, a: seq<string>, b: seq<string>, decode: Decoders)
    ensures ApplyLines(st, a + b, decode)
         == if ApplyLines(st, a, decode).Ok? then ApplyLines(ApplyLines(st, a, decode).value, b, decode)
            else ApplyLines(st, a, decode)
    decreases |a|
  {
    if |a| == 0 {
      assert a + b == b;
    } else {
      assert (a + b)[0] == a[0] && (a + b)[1..] == a[1..] + b;
      var first := ApplyLine(st, a[0], decode);
      if first.Ok? {
        ApplyLinesAppend(first.value, a[1..], b, decode);
      }
    }
  }

  /** No sequence of lines breaks the device invariant or drops a device. */
  lemma {:induction false} ApplyLinesPreserves(st: CubeState, lines: seq<string>, decode: Decoders)
    requires ApplyLines(st, lines, decode).Ok?
    ensures ValidDevices(st.devices) ==> ValidDevices(ApplyLines(st, lines, decode).value.devices)
    ensures KeepsDevices(st.devices, ApplyLines(st, lines, decode).value.devices)
    decreases |lines|
  {
    if |lines| > 0 {
      var next := ApplyLine(st, lines[0], decode).value;
      ApplyLinePreserves(st, lines[0], decode);
      ApplyLinesPreserves(next, lines[1..], decode);
      KeepsDevicesTrans(st.devices, next.devices, ApplyLines(st, lines, decode).value.devices);
    }
  }

  /** A response joined from newline-free lines is read line by line, in order. */
  lemma ApplyResponseLines(st: CubeState, lines: seq<string>, decode: Decoders)
    requires |lines| >= 1
    requires forall k :: 0 <= k < |lines| ==> '\n' !in lines[k]
    ensures ApplyResponse(st, Join(lines, '\n'), decode) == ApplyLines(st, lines, decode)
  {
    JoinSplit(lines, '\n');
  }

  /** The first line of a response is read first; the rest is read as a response of its own. */
  lemma ApplyResponseCons(st: CubeState, first: string, rest: string, decode: Decoders)
    requires '\n' !in first
    ensures ApplyResponse(st, first + "\n" + rest, decode)
         == if ApplyLine(st, first, decode).Ok? then ApplyResponse(ApplyLine(st, first, decode).value, rest, decode)
            else ApplyLine(st, first, decode)
  {
    SplitCons(first, '\n', rest);
    var lines := [first] + Split(rest, '\n');
    assert lines[0] == first && lines[1..] == Split(rest, '\n');
  }

  /** No response breaks the device invariant or drops a device. */
  lemma ApplyResponsePreserves(st: CubeState, response: string, decode: Decoders)
    requires ApplyResponse(st, response, decode).Ok?
    ensures ValidDevices(st.devices) ==> ValidDevices(ApplyResponse(st, response, decode).value.devices)
    ensures KeepsDevices(st.devices, ApplyResponse(st, response, decode).value.devices)
  {
    ApplyLinesPreserves(st, Split(response, '\n'), decode);
  }

  // --------------------------------------------------------- set commands

  /** The six fixed bytes every `s:` command starts with. */
  const CommandPrefix: seq<byte> := [0x00, 0x04, 0x40, 0x00, 0x00, 0x00]

  /**
   * The byte the room text becomes: its decimal digits are read as hex, so
   * room 12 is sent as 0x12.
   */
  function RoomByte(roomId: nat): (b: byte)
    requires roomId < 100
    ensures b / 16 == roomId / 10 && b % 16 == roomId % 10
  {
    16 * (roomId / 10) + roomId % 10
  }

  lemma PrefixBytes()
    ensures FromHex("000440000000") == Some(CommandPrefix)
  {
    var p := CommandPrefix;
    RfAddressDecodes(p);
    assert ParseRfAddress(p) == "000440000000";
  }

  /** Two hex digits decode to one byte. */
  lemma FromHexPair(c0: char, c1: char, b: byte)
    requires HexDigitValue(c0).Some? && HexDigitValue(c1).Some?
    requires b == HexDigitValue(c0).value * 16 + HexDigitValue(c1).value
    ensures FromHex([c0, c1]) == Some([b])
  {
    var t := [c0, c1];
    assert t[0] == c0 && t[1] == c1 && t[2..] == [];
    assert FromHex(t[2..]) == Some([]);
    FromHexCons(t);
    assert [b] + [] == [b];
  }

  /** A room below 100 is written as two decimal digits, one byte once decoded. */
  lemma RoomTextBytes(roomId: nat)
    requires roomId < 100
    ensures |RoomText(roomId)| == 2
    ensures FromHex(RoomText(roomId)) == Some([RoomByte(roomId)])
  {
    var hi, lo := roomId / 10, roomId % 10;
    DigitCharValue(hi);
    DigitCharValue(lo);
    if roomId < 10 {
      assert RoomText(roomId) == ['0', DigitChar(lo)];
      FromHexPair('0', DigitChar(lo), RoomByte(roomId));
    } else {
      assert DecimalDigits(roomId) == DecimalDigits(hi) + [DigitChar(lo)];
      assert RoomText(roomId) == [DigitChar(hi), DigitChar(lo)];
      FromHexPair(DigitChar(hi), DigitChar(lo), RoomByte(roomId));
    }
  }

  /** A value from 16 to 255 is written as two hex digits, one byte once decoded. */
  lemma ValueTextByte(v: nat)
    requires 16 <= v < 256
    ensures FromHex(HexTail(v)) == Some([v as byte])
  {
    HexDigitValueLower(v / 16);
    HexDigitValueLower(v % 16);
    assert HexLower(v / 16) == [LowerHexChar(v / 16)];
    assert HexTail(v) == [LowerHexChar(v / 16), LowerHexChar(v % 16)];
    FromHexPair(LowerHexChar(v / 16), LowerHexChar(v % 16), v);
  }

  /** Decoding four texts, each but the last of even length, one after the other. */
  lemma FromHexJoin(a: string, b: string, c: string, d: string, w: seq<byte>, x: seq<byte>, y: seq<byte>, z: seq<byte>)
    requires FromHex(a) == Some(w) && FromHex(b) == Some(x) && FromHex(c) == Some(y) && FromHex(d) == Some(z)
    ensures FromHex(a + b + c + d) == Some(w + x + y + z)
  {
    FromHexJoinTwo(a, b, w, x);
    FromHexJoinTwo(a + b, c, w + x, y);
    FromHexJoinTwo(a + b + c, d, w + x + y, z);
  }

  lemma FromHexJoinTwo(a: string, b: string, x: seq<byte>, y: seq<byte>)
    requires FromHex(a) == Some(x) && FromHex(b) == Some(y)
    ensures FromHex(a + b) == Some(x + y)
  {
    assert |a| == 2 * |x|;
    FromHexAppend(a, b);
  }

  lemma AppendTwo<T>(s: seq<T>, a: T, b: T)
    ensures s + [a] + [b] == s + [a, b]
  {
  }

  /**
   * The command bytes: the prefix, the three address bytes, the room byte
   * and the value byte holding mode and temperature.
   */
  lemma CommandBytes(address: seq<byte>, roomId: nat, v: nat)
    requires |address| == 3 && roomId < 100 && 16 <= v < 256
    ensures FromHex(CommandHex(ParseRfAddress(address), roomId, v))
         == Some(CommandPrefix + address + [RoomByte(roomId), v as byte])
  {
    PrefixBytes();
    RfAddressDecodes(address);
    RoomTextBytes(roomId);
    ValueTextByte(v);
    FromHexJoin("000440000000", ParseRfAddress(address), RoomText(roomId), HexTail(v),
                CommandPrefix, address, [RoomByte(roomId)], [v as byte]);
    AppendTwo(CommandPrefix + address, RoomByte(roomId), v as byte);
  }

  /**
   * `hex()` does not pad: a value below 16 is one digit, the command text
   * has an odd length and `fromhex` rejects it; so does a three-digit room.
   */
  lemma CommandRejected(rf: string, roomId: nat, v: nat)
    requires |rf| % 2 == 0
    requires (roomId < 100 && v < 16) || (100 <= roomId < 1000 && 16 <= v < 256)
    ensures FromHex(CommandHex(rf, roomId, v)) == None
  {
    if roomId >= 100 {
      DecimalDigitsThree(roomId);
    }
    FromHexOdd(CommandHex(rf, roomId, v));
  }

  /**
   * The value byte keeps the mode in its top two bits and the temperature,
   * in half degrees, in the low six.
   */
  lemma CommandValueFields(temperature: nat, mode: nat)
    requires mode < 4 && temperature / 5 < 64
    ensures 0 <= CommandValue(temperature, mode) < 256
    ensures CommandValue(temperature, mode) / 64 == mode
    ensures CommandValue(temperature, mode) % 64 == temperature / 5
  {
    DivModUnique(CommandValue(temperature, mode), 64, mode, temperature / 5);
  }

  /**
   * `set_target_temperature` sends the prefix, the address, the room byte
   * and the new temperature with the current mode.
   */
  lemma TemperaturePayloadLayout(d: MaxDevice, temperature: int, address: seq<byte>)
    requires d.Thermostat? && d.rfAddress == Some(ParseRfAddress(address)) && |address| == 3
    requires d.roomId.Some? && 0 <= d.roomId.value < 100 && d.mode.Some?
    requires 16 <= CommandValue(temperature, d.mode.value) < 256
    ensures TemperaturePayload(d, temperature)
         == Ok(CommandPrefix + address + [RoomByte(d.roomId.value), CommandValue(temperature, d.mode.value) as byte])
  {
    CommandBytes(address, d.roomId.value, CommandValue(temperature, d.mode.value));
  }

  /**
   * `set_mode` sends the prefix, the address, the room byte and the stored
   * target with the new mode.
   */
  lemma ModePayloadLayout(d: MaxDevice, mode: int, address: seq<byte>)
    requires d.Thermostat? && d.rfAddress == Some(ParseRfAddress(address)) && |address| == 3
    requires d.roomId.Some? && 0 <= d.roomId.value < 100 && d.targetTemperature.Some?
    requires 16 <= CommandValue(d.targetTemperature.value, mode) < 256
    ensures ModePayload(d, mode)
         == Ok(CommandPrefix + address + [RoomByte(d.roomId.value), CommandValue(d.targetTemperature.value, mode) as byte])
  {
    CommandBytes(address, d.roomId.value, CommandValue(d.targetTemperature.value, mode));
  }

  /**
   * In automatic mode a temperature below 8 degrees is below 16 half
   * degrees: the command cannot be built and `fromhex` raises.
   */
  lemma TemperaturePayloadLowAutomatic(d: MaxDevice, temperature: int)
    requires d.Thermostat? && d.rfAddress.Some? && |d.rfAddress.value| % 2 == 0
    requires d.roomId.Some? && 0 <= d.roomId.value < 100 && d.mode == Some(ModeAutomatic)
    requires 0 <= temperature < 80
    ensures TemperaturePayload(d, temperature) == Err(ValueError)
  {
    CommandRejected(d.rfAddress.value, d.roomId.value, CommandValue(temperature, ModeAutomatic));
  }

  /** The stored target is already on the half-degree grid, so storing it again changes nothing. */
  lemma StoredTargetIdempotent(temperature: int)
    ensures StoredTarget(StoredTarget(temperature)) == StoredTarget(temperature)
  {
  }

  /** A target on the half-degree grid (a multiple of five tenths) is stored exactly. */
  lemma StoredTargetExact(w: int)
    requires w % 5 == 0
    ensures StoredTarget(w) == w
  {
    if w >= 0 {
      assert TruncDiv(w, 5) == w / 5;
    } else {
      assert TruncDiv(w, 5) == -((-w) / 5);
    }
  }

  /** A later `set_mode` sends the same temperature code that `set_target_temperature` sent. */
  lemma StoredTargetCommand(temperature: int, mode: int)
    ensures CommandValue(StoredTarget(temperature), mode) == CommandValue(temperature, mode)
  {
  }

  // ---------------------------------------------------------------- reply

  /** Python `str(n)` has no comma. */
  lemma DecimalStringNoComma(n: int)
    ensures ',' !in DecimalString(n)
  {
    if n < 0 {
      assert DecimalString(n) == "-" + DecimalDigits(-n);
      assert forall k :: 1 <= k < |DecimalString(n)| ==> DecimalString(n)[k] == DecimalDigits(-n)[k - 1];
    }
  }

  /**
   * A reply `XX` + `duty,result,free` with duty and free in hex and the
   * result in decimal (trailing whitespace allowed) reads back those three
   * numbers.
   */
  lemma ParseReplyRoundTrip(tag: string, duty: nat, result: int, free: nat, tail: string)
    requires |tag| == 2
    requires forall k :: 0 <= k < |tail| ==> IsSpace(tail[k])
    ensures ParseReply(tag + Join([HexLower(duty), DecimalString(result), HexLower(free) + tail], ','))
         == Ok(Reply(duty, result, free))
  {
    var fields := [HexLower(duty), DecimalString(result), HexLower(free) + tail];
    DecimalStringNoComma(result);
    assert forall k :: 0 <= k < |fields| ==> ',' !in fields[k];
    JoinSplit(fields, ',');
    DropTag(tag, Join(fields, ','));
    ParseIntHex(duty, "");
    assert HexLower(duty) + "" == HexLower(duty);
    ParseIntDecimal(result, "");
    assert DecimalString(result) + "" == DecimalString(result);
    ParseIntHex(free, tail);
  }
}
