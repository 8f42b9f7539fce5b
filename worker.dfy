/**
 * `MaxWorker` (MaxWorker.py): the topology of device records it keeps, the
 * records it queues for the broker, the desired temperatures and command
 * queue it works from, its timers, and the hub connection it opens and
 * closes. The broker's queues are sequences: records are appended to
 * `messages`, commands are taken from the front of `commands`. The clock is
 * the `now` argument of each operation; a hub connection is a `Hub` whose
 * replies are scripted.
 */
module Worker {
  import opened Wrappers
  import opened PyText
  import opened Device
  import opened Codec
  import opened CodecFacts
  import opened Cube
  import opened Topology
  import opened TopologyFacts
  import opened WorkerSpec

  class MaxWorker {
    const config: Config
    const decode: Decoders
    var topology: Table
    var desired: map<string, int>
    var messages: seq<Message>
    var commands: seq<Task>
    /** The topology as `dump_topology` wrote it, one entry per dump. */
    var dumps: seq<Table>
    var connection: Hub?
    var topologyLastRefresh: int
    var mqttLastRefresh: int
    var cubeDutyCycle: int
    var cubeDutyCycleReset: int

    /**
     * `__init__`: the topology `load_topology` read (empty when the file
     * could not be read), no desired temperatures, no connection, and all
     * timers at zero.
     */
    constructor(config: Config, decode: Decoders, loaded: Option<Table>, commands: seq<Task>)
      ensures this.config == config && this.decode == decode && this.commands == commands
      ensures topology == (if loaded.Some? then loaded.value else map[])
      ensures desired == map[] && messages == [] && dumps == [] && connection == null
      ensures topologyLastRefresh == 0 && mqttLastRefresh == 0 && cubeDutyCycle == 0 && cubeDutyCycleReset == 0
    {
      this.config := config;
      this.decode := decode;
      this.commands := commands;
      topology := if loaded.Some? then loaded.value else map[];
      desired := map[];
      messages := [];
      dumps := [];
      connection := null;
      topologyLastRefresh := 0;
      mqttLastRefresh := 0;
      cubeDutyCycle := 0;
      cubeDutyCycleReset := 0;
    }

    /** `update_timer_elapsed`: strictly later than the last publish plus its period. */
    predicate UpdateTimerElapsed(now: int)
      reads this`mqttLastRefresh
    {
      now > mqttLastRefresh + config.mqttUpdatePeriod
    }

    /** The connection the worker uses after `connect`: its open one, or the new one. */
    function Link(hub: Hub): Hub
      reads this`connection
    {
      if connection == null then hub else connection
    }

    /** `connect`: open a connection only when none is open. */
    method Connect(hub: Hub)
      modifies this`connection
      ensures connection == old(Link(hub))
    {
      if connection == null {
        connection := hub;
      }
    }

    /** `close`: drop the connection, if any. */
    method Close()
      modifies this`connection
      ensures connection == null
    {
      connection := null;
    }

    /** `update_device_metric`: the diff of one attribute into the device's record. */
    method UpdateDeviceMetric(d: MaxDevice, param: Attr, now: int)
      requires d.serial.Some?
      modifies this`topology, this`messages
      ensures var m := Metric(old(topology), d.serial.value, d, param, now);
        topology == m.0 && messages == old(messages) + m.1
    {
      var id := d.serial.value;
      if id !in topology {
        return;
      }
      var v := Attribute(d, param);
      if v.Err? {
        return;
      }
      if Get(topology[id], param) != v.value {
        topology := topology[id := topology[id][param := v.value]];
        messages := messages + [PrepareOutput(id, param, Get(topology[id], param), now)];
      }
    }

    /**
     * The six status records at the end of `update_device`: the actual
     * temperature read with `.get`, the five others with `[]`, so the first
     * one missing raises KeyError after the records before it are queued.
     */
    method PublishStatus(id: string, now: int) returns (error: Option<Error>)
      requires id in topology
      modifies this`messages
      ensures var p := Publish(topology[id], id, old(messages), now);
        messages == p.published && error == p.error
    {
      var rec := topology[id];
      messages := messages + [PrepareOutput(id, ActualTemperature, Get(rec, ActualTemperature), now)];
      if TargetTemperature !in rec {
        return Some(KeyError);
      }
      messages := messages + [PrepareOutput(id, TargetTemperature, rec[TargetTemperature], now)];
      if LinkOk !in rec {
        return Some(KeyError);
      }
      messages := messages + [PrepareOutput(id, LinkOk, rec[LinkOk], now)];
      if BatteryOk !in rec {
        return Some(KeyError);
      }
      messages := messages + [PrepareOutput(id, BatteryOk, rec[BatteryOk], now)];
      if ValvePosition !in rec {
        return Some(KeyError);
      }
      messages := messages + [PrepareOutput(id, ValvePosition, rec[ValvePosition], now)];
      if Mode !in rec {
        return Some(KeyError);
      }
      messages := messages + [PrepareOutput(id, Mode, rec[Mode], now)];
      return None;
    }

    /** The first writes of `update_device`: the record, created empty for a new serial, gets the identity fields. */
    method WriteIdentity(d: MaxDevice)
      requires d.serial.Some?
      modifies this`topology
      ensures var id := d.serial.value;
        topology == old(topology)[id := WithIdentity(if id in old(topology) then old(topology)[id] else map[], d)]
    {
      var id := d.serial.value;
      ghost var t0 := topology;
      ghost var rec: Record := if id in topology then topology[id] else map[];
      if id !in topology {
        topology := topology[id := map[]];
      }
      assert topology == t0[id := rec];
      topology := topology[id := topology[id][RfAddress := TextValue(d.rfAddress)]];
      assert topology == t0[id := rec[RfAddress := TextValue(d.rfAddress)]] by {
        Overwrite(t0, id, rec, rec[RfAddress := TextValue(d.rfAddress)]);
      }
      topology := topology[id := topology[id][Name := TextValue(d.name)]];
      topology := topology[id := topology[id][RoomId := NumberValue(d.roomId)]];
      topology := topology[id := topology[id][RoomName := TextValue(d.roomName)]];
      assert topology == t0[id := WithIdentity(rec, d)] by {
        var r1 := rec[RfAddress := TextValue(d.rfAddress)];
        var r2 := r1[Name := TextValue(d.name)];
        var r3 := r2[RoomId := NumberValue(d.roomId)];
        Overwrite(t0, id, r1, r2);
        Overwrite(t0, id, r2, r3);
        Overwrite(t0, id, r3, WithIdentity(rec, d));
      }
    }

    /** The writes of `update_device` once the type is named: type name, serial, link and battery state. */
    method WriteCommon(d: MaxDevice, typeName: Option<string>, now: int, ghost rec: Record)
      requires d.serial.Some? && d.serial.value in topology && topology[d.serial.value] == WithIdentity(rec, d)
      modifies this`topology, this`messages
      ensures var c := CommonWrites(rec, d.serial.value, d, typeName, now);
        topology == old(topology)[d.serial.value := c.0] && messages == old(messages) + c.1
    {
      var id := d.serial.value;
      ghost var t0 := topology;
      ghost var m0 := messages;
      ghost var r1 := WithIdentity(rec, d)[DeviceType := TextValue(typeName)][Serial := Text(id)];
      ghost var r2 := MetricOn(r1, id, d, LinkOk, now);
      ghost var r3 := MetricOn(r2.0, id, d, BatteryOk, now);
      assert CommonWrites(rec, id, d, typeName, now) == (r3.0, r2.1 + r3.1);
      topology := topology[id := topology[id][DeviceType := TextValue(typeName)]];
      topology := topology[id := topology[id][Serial := Text(id)]];
      assert topology == t0[id := r1] by {
        Overwrite(t0, id, t0[id][DeviceType := TextValue(typeName)], r1);
      }
      UpdateDeviceMetric(d, LinkOk, now);
      assert topology == t0[id := r2.0] && messages == m0 + r2.1 by {
        MetricAt(t0, id, r1, d, LinkOk, now);
      }
      UpdateDeviceMetric(d, BatteryOk, now);
      assert topology == t0[id := r3.0] && messages == m0 + (r2.1 + r3.1) by {
        MetricAt(t0, id, r2.0, d, BatteryOk, now);
        ConcatAssoc(m0, r2.1, r3.1);
      }
    }

    /** The thermostat writes of `update_device`: the mode name, then the diffs of its temperatures and valve. */
    method WriteThermostat(d: MaxDevice, modeName: Option<string>, now: int)
      requires d.Thermostat? && d.serial.Some? && d.serial.value in topology
      modifies this`topology, this`messages
      ensures var w := ThermostatWrites(old(topology)[d.serial.value], d.serial.value, d, modeName, now);
        topology == old(topology)[d.serial.value := w.0] && messages == old(messages) + w.1
    {
      var id := d.serial.value;
      ghost var t0 := topology;
      ghost var m0 := messages;
      ghost var r4 := t0[id][Mode := TextValue(modeName)];
      ghost var r5 := if Truthy(d.actualTemperature) then MetricOn(r4, id, d, ActualTemperature, now) else (r4, []);
      ghost var r6 := MetricOn(r5.0, id, d, TargetTemperature, now);
      ghost var r7 := MetricOn(r6.0, id, d, ValvePosition, now);
      assert ThermostatWrites(t0[id], id, d, modeName, now) == (r7.0, r5.1 + r6.1 + r7.1);
      topology := topology[id := topology[id][Mode := TextValue(modeName)]];
      if Truthy(d.actualTemperature) {
        UpdateDeviceMetric(d, ActualTemperature, now);
        assert topology == t0[id := r5.0] by {
          MetricAt(t0, id, r4, d, ActualTemperature, now);
        }
      }
      assert topology == t0[id := r5.0] && messages == m0 + r5.1;
      UpdateDeviceMetric(d, TargetTemperature, now);
      assert topology == t0[id := r6.0] && messages == m0 + r5.1 + r6.1 by {
        MetricAt(t0, id, r5.0, d, TargetTemperature, now);
      }
      UpdateDeviceMetric(d, ValvePosition, now);
      assert topology == t0[id := r7.0] && messages == m0 + (r5.1 + r6.1 + r7.1) by {
        MetricAt(t0, id, r6.0, d, ValvePosition, now);
        ConcatAssoc(m0, r5.1 + r6.1, r7.1);
        ConcatAssoc(m0, r5.1, r6.1);
      }
    }

    /**
     * The thermostat part of `update_device` and its status records: a
     * thermostat type without the thermostat fields raises AttributeError, a
     * mode name that raises stops it.
     */
    method UpdateThermostat(d: MaxDevice, now: int) returns (error: Option<Error>)
      requires d.serial.Some? && d.serial.value in topology
      modifies this`topology, this`messages
      ensures var r := ThermostatMetrics(old(topology)[d.serial.value], d.serial.value, d, old(messages), now);
        topology == old(topology)[d.serial.value := r.record] && messages == r.published && error == r.error
    {
      var id := d.serial.value;
      ghost var t0 := topology;
      ghost var m0 := messages;
      ghost var whole := ThermostatMetrics(t0[id], id, d, m0, now);
      if IsThermostatType(d.devType) {
        if d.Plain? {
          assert whole == Refresh(t0[id], m0, Some(AttributeError));
          assert t0[id := t0[id]] == t0;
          return Some(AttributeError);
        }
        var modeName := DeviceModeName(d);
        if modeName.Err? {
          assert whole == Refresh(t0[id], m0, Some(modeName.error));
          assert t0[id := t0[id]] == t0;
          return Some(modeName.error);
        }
        ghost var w := ThermostatWrites(t0[id], id, d, modeName.value, now);
        assert whole == Publish(w.0, id, m0 + w.1, now);
        assert whole.record == w.0 by { PublishShape(w.0, id, m0 + w.1, now); }
        error := WriteAndPublish(d, modeName.value, now);
      } else {
        assert whole == Publish(t0[id], id, m0, now);
        assert whole.record == t0[id] by { PublishShape(t0[id], id, m0, now); }
        error := PublishStatus(id, now);
        assert t0[id := t0[id]] == t0;
      }
    }

    /** The thermostat writes of `update_device` for a named mode, then its status records. */
    method WriteAndPublish(d: MaxDevice, modeName: Option<string>, now: int) returns (error: Option<Error>)
      requires d.Thermostat? && d.serial.Some? && d.serial.value in topology
      modifies this`topology, this`messages
      ensures var w := ThermostatWrites(old(topology)[d.serial.value], d.serial.value, d, modeName, now);
        var p := Publish(w.0, d.serial.value, old(messages) + w.1, now);
        topology == old(topology)[d.serial.value := w.0] && messages == p.published && error == p.error
    {
      WriteThermostat(d, modeName, now);
      error := PublishStatus(d.serial.value, now);
    }

    /**
     * `update_device`: the device's record (created empty for a new serial)
     * gets its identity, type and thermostat attributes, then the six status
     * records are queued; the serial is returned, or the exception raised.
     */
    method UpdateDevice(d: MaxDevice, now: int) returns (r: Result<string>)
      requires d.serial.Some?
      modifies this`topology, this`messages
      ensures var s := RefreshDevice(old(topology), d, now);
        && topology == s.table && messages == old(messages) + s.published
        && (s.error.None? ==> r == Ok(d.serial.value))
        && (s.error.Some? ==> r == Err(s.error.value))
    {
      var id := d.serial.value;
      ghost var t0 := topology;
      ghost var m0 := messages;
      ghost var rec := if id in topology then topology[id] else map[];
      ghost var whole := RefreshRecord(rec, id, d, now);
      assert RefreshDevice(t0, d, now) == Step(t0[id := whole.record], whole.published, whole.error);
      WriteIdentity(d);
      var typeName := DeviceTypeName(d);
      if typeName.Err? {
        assert whole == Refresh(WithIdentity(rec, d), [], Some(typeName.error));
        return Err(typeName.error);
      }
      ghost var c := CommonWrites(rec, id, d, typeName.value, now);
      assert whole == ThermostatMetrics(c.0, id, d, c.1, now);
      WriteCommon(d, typeName.value, now, rec);
      assert topology == t0[id := c.0] && messages == m0 + c.1 by {
        Overwrite(t0, id, WithIdentity(rec, d), c.0);
      }
      var error := UpdateThermostat(d, now);
      assert topology == t0[id := whole.record] && messages == m0 + whole.published && error == whole.error by {
        ThermostatMetricsAppends(c.0, id, d, m0, c.1, now);
        Overwrite(t0, id, c.0, whole.record);
      }
      r := if error.None? then Ok(id) else Err(error.value);
    }

    // ----------------------------------------------------------- commands

    /** `update_cube_stats`: queue the cube's free memory slots and duty cycle. */
    method UpdateCubeStats(cube: MaxCube, now: int)
      modifies this`messages
      ensures messages == old(messages) + CubeStats(cube.freeMemSlots, cube.dutyCycle, now)
    {
      messages := messages + [PrepareOutput("cube", FreeMemSlots, NumberValue(cube.freeMemSlots), now),
                              PrepareOutput("cube", DutyCycle, NumberValue(cube.dutyCycle), now)];
    }

    /** What a command handler can change: the desired temperatures, the queued records, the cube's devices and its connection. */
    function SessionWith(cube: MaxCube): Session
      reads this`desired, this`messages, cube`devices, cube.connection
    {
      Session(desired, messages, cube.devices, cube.connection.State())
    }

    /**
     * The try block of `set_temperature`: log the device's room and name,
     * look its RF address up in the cube, send the command, and on success
     * queue the cube's counters and the requested payload.
     */
    method SendTemperature(cube: MaxCube, id: string, rec: Record, rf: Value, want: int, target: Value, now: int)
      requires cube.Valid()
      modifies this`messages, cube`devices, cube`dutyCycle, cube`commandResult, cube`commandSuccess, cube`freeMemSlots, cube.connection
      ensures cube.Valid()
      ensures var e := TemperatureEffect(rec, old(cube.devices), old(cube.connection.State()), id, rf, want, target, now);
        messages == old(messages) + e.records && cube.devices == e.devices && cube.connection.State() == e.channel
    {
      ghost var ds, ch, m0 := cube.devices, cube.connection.State(), messages;
      ghost var e := TemperatureEffect(rec, ds, ch, id, rf, want, target, now);
      if RoomName !in rec || Name !in rec || !rf.Text? {
        return;
      }
      var i := cube.DeviceByRf(rf.text);
      if i.None? {
        return;
      }
      assert CommandTarget(rec, ds, rf) == i;
      var out := cube.SetTargetTemperature(i.value, want);
      ghost var o := CommandOutcome(TemperaturePayload(ds[i.value], want), ch.script);
      assert out == o && e.devices == cube.devices && e.channel == cube.connection.State();
      if out.Ok? && cube.commandSuccess == Some(true) {
        UpdateCubeStats(cube, now);
        messages := messages + [PrepareOutput(id, TargetTemperature, target, now)];
        assert messages == m0 + e.records by {
          assert Accepted(o);
          ConcatAssoc(m0, CubeStats(cube.freeMemSlots, cube.dutyCycle, now), [PrepareOutput(id, TargetTemperature, target, now)]);
        }
      } else {
        assert e.records == [] by { assert !Accepted(o); }
      }
    }

    /**
     * `set_temperature`: the device's record and the requested temperature
     * are read outside the try block, so a missing record or a payload that
     * is no number raises; the desired temperature is recorded before the
     * comparison with the stored target, and a command goes out only when
     * the two differ.
     */
    method SetTemperature(cube: MaxCube, id: string, target: Value, now: int) returns (raised: Option<Error>)
      requires cube.Valid()
      modifies this`desired, this`messages, cube`devices, cube`dutyCycle, cube`commandResult, cube`commandSuccess, cube`freeMemSlots, cube.connection
      ensures cube.Valid()
      ensures var r := TemperatureTask(topology, old(SessionWith(cube)), id, target, now);
        SessionWith(cube) == r.0 && raised == r.1
    {
      if id !in topology {
        return Some(KeyError);
      }
      var rec := topology[id];
      var want := ToNumber(target);
      if want.Err? {
        return Some(want.error);
      }
      desired := desired[id := want.value];
      var stored := Lookup(rec, TargetTemperature);
      if stored.Err? {
        return Some(stored.error);
      }
      var current := ToNumber(stored.value);
      if current.Err? {
        return Some(current.error);
      }
      if current.value != want.value {
        var rf := Lookup(rec, RfAddress);
        if rf.Err? {
          return Some(rf.error);
        }
        SendTemperature(cube, id, rec, rf.value, want.value, target, now);
      }
      raised := None;
    }

    /**
     * The try block of `set_mode`: log the device's room and name, look its
     * RF address up in the cube, map the mode name to its number, send the
     * command, and on success queue the cube's counters and the mode name.
     */
    method SendMode(cube: MaxCube, id: string, rec: Record, rf: Value, target: Value, now: int)
      requires cube.Valid()
      modifies this`messages, cube`devices, cube`dutyCycle, cube`commandResult, cube`commandSuccess, cube`freeMemSlots, cube.connection
      ensures cube.Valid()
      ensures var e := ModeEffect(rec, old(cube.devices), old(cube.connection.State()), id, rf, target, now);
        messages == old(messages) + e.records && cube.devices == e.devices && cube.connection.State() == e.channel
    {
      ghost var ds, ch, m0 := cube.devices, cube.connection.State(), messages;
      ghost var e := ModeEffect(rec, ds, ch, id, rf, target, now);
      if RoomName !in rec || Name !in rec || !rf.Text? {
        return;
      }
      var i := cube.DeviceByRf(rf.text);
      var mode := ModeNumber(target);
      if mode.Err? || i.None? {
        return;
      }
      assert CommandTarget(rec, ds, rf) == i;
      var out := cube.SetMode(i.value, mode.value);
      ghost var o := CommandOutcome(ModePayload(ds[i.value], mode.value), ch.script);
      assert out == o && e.devices == cube.devices && e.channel == cube.connection.State();
      if out.Ok? && cube.commandSuccess == Some(true) {
        UpdateCubeStats(cube, now);
        messages := messages + [PrepareOutput(id, Mode, target, now)];
        assert messages == m0 + e.records by {
          assert Accepted(o);
          ConcatAssoc(m0, CubeStats(cube.freeMemSlots, cube.dutyCycle, now), [PrepareOutput(id, Mode, target, now)]);
        }
      } else {
        assert e.records == [] by { assert !Accepted(o); }
      }
    }

    /**
     * `set_mode`: the device's record and its stored mode are read outside
     * the try block, so either missing raises KeyError; a command goes out
     * only when the stored mode differs from the requested one.
     */
    method SetMode(cube: MaxCube, id: string, target: Value, now: int) returns (raised: Option<Error>)
      requires cube.Valid()
      modifies this`messages, cube`devices, cube`dutyCycle, cube`commandResult, cube`commandSuccess, cube`freeMemSlots, cube.connection
      ensures cube.Valid()
      ensures var r := ModeTask(topology, old(SessionWith(cube)), id, target, now);
        SessionWith(cube) == r.0 && raised == r.1
    {
      if id !in topology {
        return Some(KeyError);
      }
      var rec := topology[id];
      var stored := Lookup(rec, Mode);
      if stored.Err? {
        return Some(stored.error);
      }
      if stored.value != target {
        var rf := Lookup(rec, RfAddress);
        if rf.Err? {
          return Some(rf.error);
        }
        SendMode(cube, id, rec, rf.value, target, now);
      }
      raised := None;
    }

    /**
     * The duty-cycle reset at the top of each pass of `run`: once the reset
     * interval has strictly passed, the worker's duty-cycle counter drops
     * to zero, the reset time moves to now, and the zero is queued.
     */
    method ResetDutyCycle(now: int)
      modifies this`cubeDutyCycle, this`cubeDutyCycleReset, this`messages
      ensures old(now > cubeDutyCycleReset + config.dutyCycleResetInterval) ==>
        && cubeDutyCycle == 0 && cubeDutyCycleReset == now
        && messages == old(messages) + [PrepareOutput("cube", DutyCycle, Number(0), now)]
      ensures old(now <= cubeDutyCycleReset + config.dutyCycleResetInterval) ==>
        cubeDutyCycle == old(cubeDutyCycle) && cubeDutyCycleReset == old(cubeDutyCycleReset) && messages == old(messages)
      ensures old(messages) <= messages
    {
      if now > cubeDutyCycleReset + config.dutyCycleResetInterval {
        cubeDutyCycle := 0;
        cubeDutyCycleReset := now;
        messages := messages + [PrepareOutput("cube", DutyCycle, Number(cubeDutyCycle), now)];
      }
    }

    /**
     * The sanity check of `refresh_topology` for the cube's device at `i`,
     * just refreshed under serial `id`: when it is due, the desired
     * temperature is handed to the cube, which sends it to the hub only when
     * its payload encodes; when the hub accepts it, the target the topology
     * holds and the cube's counters are queued and the duty cycle is
     * recorded. Every exception inside is caught.
     */
    method CorrectDrift(cube: MaxCube, i: nat, id: string, now: int) returns (r: Option<Result<Reply>>)
      requires cube.Valid() && i < |cube.devices|
      modifies this`messages, this`cubeDutyCycle, this`cubeDutyCycleReset
      modifies cube`devices, cube`dutyCycle, cube`commandResult, cube`commandSuccess, cube`freeMemSlots, cube.connection
      ensures cube.Valid() && |cube.devices| == old(|cube.devices|)
      ensures cube.devices == old(cube.devices)[i := cube.devices[i]] && cube.devices[i + 1..] == old(cube.devices[i + 1..])
      ensures r.None? <==> !CorrectionDue(old(cube.devices[i]), id, config.sanityCheck, desired)
      ensures r.None? ==> cube.devices == old(cube.devices)
      ensures r.Some? ==> r.value == CommandOutcome(TemperaturePayload(old(cube.devices[i]), desired[id]), old(cube.connection.script))
      ensures Swept(cube.connection, old(messages), Correction(topology, old(cube.connection.State()), old(cubeDutyCycle),
                                                             old(cubeDutyCycleReset), old(cube.devices[i]), id, desired,
                                                             config.sanityCheck, now))
    {
      if !CorrectionDue(cube.devices[i], id, config.sanityCheck, desired) {
        return None;
      }
      ghost var ds := cube.devices;
      var out := SendCorrection(cube, i, id, desired[id], now);
      ReplaceKeepsTail(ds, i, cube.devices[i]);
      r := Some(out);
    }

    /** The try block of the sanity check: send the desired temperature, and record an accepted reply. */
    method SendCorrection(cube: MaxCube, i: nat, id: string, temperature: int, now: int) returns (out: Result<Reply>)
      requires cube.Valid() && i < |cube.devices|
      modifies this`messages, this`cubeDutyCycle, this`cubeDutyCycleReset
      modifies cube`devices, cube`dutyCycle, cube`commandResult, cube`commandSuccess, cube`freeMemSlots, cube.connection
      ensures cube.Valid() && |cube.devices| == old(|cube.devices|)
      ensures cube.devices == old(cube.devices)[i := cube.devices[i]]
      ensures out == CommandOutcome(TemperaturePayload(old(cube.devices[i]), temperature), old(cube.connection.script))
      ensures cube.connection.State() == CommandChannel(TemperaturePayload(old(cube.devices[i]), temperature), old(cube.connection.State()))
      ensures var ms := CorrectionRecords(out, topology, id, now);
        && messages == old(messages) + ms
        && (ms != [] ==> cubeDutyCycle == out.value.dutyCycle && cubeDutyCycleReset == now)
        && (ms == [] ==> cubeDutyCycle == old(cubeDutyCycle) && cubeDutyCycleReset == old(cubeDutyCycleReset))
    {
      out := cube.SetTargetTemperature(i, temperature);
      RecordReply(cube, out, id, now);
    }

    /**
     * After the correction's command: when the cube reports success and the
     * topology holds a target for the device, queue the records and note
     * the duty cycle.
     */
    method RecordReply(cube: MaxCube, out: Result<Reply>, id: string, now: int)
      requires out.Ok? ==> cube.commandSuccess == Some(out.value.commandResult == 0)
      requires out.Ok? ==> cube.dutyCycle == Some(out.value.dutyCycle) && cube.freeMemSlots == Some(out.value.freeMemSlots)
      modifies this`messages, this`cubeDutyCycle, this`cubeDutyCycleReset
      ensures var ms := CorrectionRecords(out, topology, id, now);
        && messages == old(messages) + ms
        && (ms != [] ==> cubeDutyCycle == out.value.dutyCycle && cubeDutyCycleReset == now)
        && (ms == [] ==> cubeDutyCycle == old(cubeDutyCycle) && cubeDutyCycleReset == old(cubeDutyCycleReset))
    {
      if out.Ok? && cube.commandSuccess == Some(true) && id in topology && TargetTemperature in topology[id] {
        RecordCorrection(cube, id, now);
        assert Accepted(out);
      } else {
        assert CorrectionRecords(out, topology, id, now) == [];
      }
    }

    /** The accepted correction: the stored target and the cube's counters queued, the duty cycle recorded. */
    method RecordCorrection(cube: MaxCube, id: string, now: int)
      requires id in topology && TargetTemperature in topology[id] && cube.dutyCycle.Some?
      modifies this`messages, this`cubeDutyCycle, this`cubeDutyCycleReset
      ensures messages == old(messages) + [PrepareOutput(id, TargetTemperature, topology[id][TargetTemperature], now)]
                                        + CubeStats(cube.freeMemSlots, cube.dutyCycle, now)
      ensures cubeDutyCycle == cube.dutyCycle.value && cubeDutyCycleReset == now
    {
      messages := messages + [PrepareOutput(id, TargetTemperature, topology[id][TargetTemperature], now)];
      UpdateCubeStats(cube, now);
      cubeDutyCycle := cube.dutyCycle.value;
      cubeDutyCycleReset := now;
    }

    /**
     * One task of the inner loop of `run`: a `command` for
     * `target_temperature` or `mode` goes to its handler; anything else,
     * including a `command` for another parameter, does nothing.
     */
    method Dispatch(cube: MaxCube, task: Task, now: int) returns (raised: Option<Error>)
      requires cube.Valid()
      modifies this`desired, this`messages
      modifies cube`devices, cube`dutyCycle, cube`commandResult, cube`commandSuccess, cube`freeMemSlots, cube.connection
      ensures cube.Valid()
      ensures var r := RunTask(topology, old(SessionWith(cube)), task, now);
        SessionWith(cube) == r.0 && raised == r.1
    {
      raised := None;
      if task.methodName == "command" {
        if task.param == AttrName(TargetTemperature) {
          raised := SetTemperature(cube, task.deviceId, task.payload, now);
        } else if task.param == AttrName(Mode) {
          raised := SetMode(cube, task.deviceId, task.payload, now);
        }
      }
    }

    /**
     * The inner loop of `run`: take tasks from the front of the queue, each
     * removed before it runs, hand each to `Dispatch`, and stop at the first
     * exception a handler raises, leaving the rest of the queue for the
     * next pass.
     */
    method ProcessCommands(cube: MaxCube, now: int) returns (raised: Option<Error>)
      requires cube.Valid()
      modifies this`desired, this`messages, this`commands
      modifies cube`devices, cube`dutyCycle, cube`commandResult, cube`commandSuccess, cube`freeMemSlots, cube.connection
      ensures cube.Valid()
      ensures var r := RunTasks(topology, old(SessionWith(cube)), old(commands), now);
        SessionWith(cube) == r.0 && commands == r.1 && raised == r.2
    {
      ghost var whole := RunTasks(topology, SessionWith(cube), commands, now);
      raised := None;
      while commands != []
        invariant cube.Valid() && raised.None?
        invariant RunTasks(topology, SessionWith(cube), commands, now) == whole
        decreases |commands|
      {
        ghost var before, queue := SessionWith(cube), commands;
        raised := TakeTask(cube, now);
        assert RunTasks(topology, before, queue, now) ==
          if raised.Some? then (SessionWith(cube), commands, raised) else RunTasks(topology, SessionWith(cube), commands, now);
        if raised.Some? {
          return;
        }
      }
    }

    /** One turn of the inner loop of `run`: the front of the queue removed, then dispatched. */
    method TakeTask(cube: MaxCube, now: int) returns (raised: Option<Error>)
      requires cube.Valid() && commands != []
      modifies this`desired, this`messages, this`commands
      modifies cube`devices, cube`dutyCycle, cube`commandResult, cube`commandSuccess, cube`freeMemSlots, cube.connection
      ensures cube.Valid() && commands == old(commands[1..])
      ensures var r := RunTask(topology, old(SessionWith(cube)), old(commands[0]), now);
        SessionWith(cube) == r.0 && raised == r.1
    {
      var task := commands[0];
      commands := commands[1..];
      raised := Dispatch(cube, task, now);
    }

    // --------------------------------------------------- refresh_topology

    /** The worker's state after a sweep of the device loop that started with the records `m0` queued. */
    predicate Swept(link: Hub, m0: seq<Message>, s: Sweep)
      reads this`topology, this`messages, this`cubeDutyCycle, this`cubeDutyCycleReset, link
    {
      && topology == s.table && messages == m0 + s.published && link.State() == s.channel
      && cubeDutyCycle == s.duty && cubeDutyCycleReset == s.dutyReset
    }

    /** One pass of the device loop: `update_device`, then the sanity check when the refresh did not raise. */
    method VisitDevice(cube: MaxCube, i: nat, now: int) returns (r: Result<string>)
      requires cube.Valid() && i < |cube.devices|
      modifies this`topology, this`messages, this`cubeDutyCycle, this`cubeDutyCycleReset
      modifies cube`devices, cube`dutyCycle, cube`commandResult, cube`commandSuccess, cube`freeMemSlots, cube.connection
      ensures cube.Valid() && |cube.devices| == old(|cube.devices|) && cube.devices[i + 1..] == old(cube.devices[i + 1..])
      ensures var s := RefreshDevice(old(topology), old(cube.devices[i]), now);
        && (r.Err? <==> s.error.Some?)
        && (s.error.Some? ==>
              Swept(cube.connection, old(messages), Sweep(s.table, s.published, s.error, old(cube.connection.State()),
                                                          old(cubeDutyCycle), old(cubeDutyCycleReset))))
        && (s.error.None? ==>
              Swept(cube.connection, old(messages) + s.published,
                    Correction(s.table, old(cube.connection.State()), old(cubeDutyCycle), old(cubeDutyCycleReset),
                               old(cube.devices[i]), old(cube.devices[i]).serial.value, desired, config.sanityCheck, now)))
    {
      var d := cube.devices[i];
      r := UpdateDevice(d, now);
      if r.Err? {
        return;
      }
      var fix := CorrectDrift(cube, i, r.value, now);
    }

    /**
     * One pass of the device loop, stated against the fold: the loop's
     * invariant at device `i` before, and at the next device after (at the
     * end of the list once the refresh raises, `stop`).
     */
    method VisitStep(cube: MaxCube, i: nat, now: int, ghost t0: Table, ghost found: seq<MaxDevice>, ghost m0: seq<Message>,
                     ghost ch0: Channel, ghost duty0: int, ghost reset0: int)
      returns (stop: bool)
      requires cube.Valid() && ValidDevices(found) && i < |found| == |cube.devices| && cube.devices[i..] == found[i..]
      requires var p := RefreshChecked(t0, found[..i], desired, config.sanityCheck, ch0, duty0, reset0, now);
        p.error.None? && Swept(cube.connection, m0, p)
      modifies this`topology, this`messages, this`cubeDutyCycle, this`cubeDutyCycleReset
      modifies cube`devices, cube`dutyCycle, cube`commandResult, cube`commandSuccess, cube`freeMemSlots, cube.connection
      ensures cube.Valid() && |cube.devices| == |found| && cube.devices[i + 1..] == found[i + 1..]
      ensures var s := RefreshChecked(t0, found[..if stop then |found| else i + 1], desired, config.sanityCheck, ch0, duty0, reset0, now);
        (stop <==> s.error.Some?) && Swept(cube.connection, m0, s)
    {
      ghost var p := RefreshChecked(t0, found[..i], desired, config.sanityCheck, ch0, duty0, reset0, now);
      assert cube.devices[i] == found[i] && cube.devices[i + 1..] == found[i + 1..] by {
        assert cube.devices[i..][0] == found[i..][0] && cube.devices[i..][1..] == found[i..][1..];
      }
      var r := VisitDevice(cube, i, now);
      ghost var c := CheckDevice(p.table, p.channel, p.duty, p.dutyReset, found[i], desired, config.sanityCheck, now);
      ghost var s := RefreshDevice(p.table, found[i], now);
      RefreshCheckedNext(t0, found, i, desired, config.sanityCheck, ch0, duty0, reset0, now);
      ConcatAssoc(m0, p.published, c.published);
      if s.error.None? {
        ghost var k := Correction(s.table, p.channel, p.duty, p.dutyReset, found[i], found[i].serial.value, desired, config.sanityCheck, now);
        ConcatAssoc(m0 + p.published, s.published, k.published);
        ConcatAssoc(p.published, s.published, k.published);
      }
      stop := r.Err?;
    }

    /**
     * The device loop of `refresh_topology`: each device of the cube is
     * refreshed in order and then checked against its desired temperature;
     * the first exception `update_device` raises ends the loop.
     */
    method RefreshDevices(cube: MaxCube, now: int)
      requires cube.Valid()
      modifies this`topology, this`messages, this`cubeDutyCycle, this`cubeDutyCycleReset
      modifies cube`devices, cube`dutyCycle, cube`commandResult, cube`commandSuccess, cube`freeMemSlots, cube.connection
      ensures cube.Valid()
      ensures Swept(cube.connection, old(messages), RefreshChecked(old(topology), old(cube.devices), desired, config.sanityCheck,
                                                                   old(cube.connection.State()), old(cubeDutyCycle), old(cubeDutyCycleReset), now))
    {
      ghost var found, t0, m0, ch0 := cube.devices, topology, messages, cube.connection.State();
      ghost var duty0, reset0 := cubeDutyCycle, cubeDutyCycleReset;
      assert found[..0] == [];
      var i := 0;
      while i < |cube.devices|
        invariant 0 <= i <= |found| == |cube.devices|
        invariant cube.Valid()
        invariant cube.devices[i..] == found[i..]
        invariant var p := RefreshChecked(t0, found[..i], desired, config.sanityCheck, ch0, duty0, reset0, now);
          p.error.None? && Swept(cube.connection, m0, p)
        decreases |found| - i
      {
        var stop := VisitStep(cube, i, now, t0, found, m0, ch0, duty0, reset0);
        if stop {
          assert found[..|found|] == found;
          return;
        }
        i := i + 1;
      }
      assert found[..i] == found;
    }

    /**
     * `refresh_topology`: connect, ask the hub for its state, run the device
     * loop on the devices it reports (nothing happens when the hub's answer
     * does not parse), then, once the publish period has passed, note the
     * time and dump the topology.
     */
    method RefreshTopology(hub: Hub, now: int)
      modifies this`topology, this`messages, this`cubeDutyCycle, this`cubeDutyCycleReset, this`mqttLastRefresh, this`dumps
      modifies this`connection, hub, connection
      ensures connection == old(Link(hub)) && desired == old(desired) && commands == old(commands)
      ensures Swept(connection, old(messages), RefreshPass(old(topology), desired, config.sanityCheck, old(Link(hub).State()),
                                                           old(cubeDutyCycle), old(cubeDutyCycleReset), decode, now))
      ensures old(UpdateTimerElapsed(now)) ==> mqttLastRefresh == now && dumps == old(dumps) + [topology]
      ensures !old(UpdateTimerElapsed(now)) ==> mqttLastRefresh == old(mqttLastRefresh) && dumps == old(dumps)
    {
      ghost var ch := Link(hub).State();
      Connect(hub);
      assert connection.State() == ch;
      RefreshConnected(now);
    }

    /** `refresh_topology` once the connection is open. */
    method RefreshConnected(now: int)
      requires connection != null
      modifies this`topology, this`messages, this`cubeDutyCycle, this`cubeDutyCycleReset, this`mqttLastRefresh, this`dumps, connection
      ensures Swept(connection, old(messages), RefreshPass(old(topology), desired, config.sanityCheck, old(connection.State()),
                                                           old(cubeDutyCycle), old(cubeDutyCycleReset), decode, now))
      ensures old(UpdateTimerElapsed(now)) ==> mqttLastRefresh == now && dumps == old(dumps) + [topology]
      ensures !old(UpdateTimerElapsed(now)) ==> mqttLastRefresh == old(mqttLastRefresh) && dumps == old(dumps)
    {
      RefreshFrom(connection, now);
      DumpWhenDue(now);
    }

    /** The end of `refresh_topology`: once the publish period has passed, note the time and dump the topology. */
    method DumpWhenDue(now: int)
      modifies this`mqttLastRefresh, this`dumps
      ensures old(UpdateTimerElapsed(now)) ==> mqttLastRefresh == now && dumps == old(dumps) + [topology]
      ensures !old(UpdateTimerElapsed(now)) ==> mqttLastRefresh == old(mqttLastRefresh) && dumps == old(dumps)
    {
      if UpdateTimerElapsed(now) {
        mqttLastRefresh := now;
        dumps := dumps + [topology];
      }
    }

    /** The try block of `refresh_topology`: a cube over the open connection, then the device loop. */
    method RefreshFrom(link: Hub, now: int)
      modifies this`topology, this`messages, this`cubeDutyCycle, this`cubeDutyCycleReset, link
      ensures Swept(link, old(messages), RefreshPass(old(topology), desired, config.sanityCheck, old(link.State()),
                                                     old(cubeDutyCycle), old(cubeDutyCycleReset), decode, now))
    {
      var cube := new MaxCube(link, decode);
      var ok := cube.Update();
      if ok {
        RefreshDevices(cube, now);
      }
    }

    /** `run` up to its loop: a first refresh, and the refresh time noted. */
    method Start(hub: Hub, now: int)
      modifies this`topology, this`messages, this`cubeDutyCycle, this`cubeDutyCycleReset, this`mqttLastRefresh, this`dumps
      modifies this`topologyLastRefresh, this`connection, hub, connection
      ensures connection == old(Link(hub)) && topologyLastRefresh == now
      ensures desired == old(desired) && commands == old(commands)
      ensures Swept(connection, old(messages), RefreshPass(old(topology), desired, config.sanityCheck, old(Link(hub).State()),
                                                           old(cubeDutyCycle), old(cubeDutyCycleReset), decode, now))
      ensures old(UpdateTimerElapsed(now)) ==> mqttLastRefresh == now && dumps == old(dumps) + [topology]
      ensures !old(UpdateTimerElapsed(now)) ==> mqttLastRefresh == old(mqttLastRefresh) && dumps == old(dumps)
    {
      RefreshTopology(hub, now);
      topologyLastRefresh := now;
    }

    /**
     * The command part of a pass of `run`: a cube over the open connection,
     * then the queue drained; any exception ends the drain.
     */
    method DrainCommands(link: Hub, now: int)
      modifies this`desired, this`messages, this`commands, link
      ensures var r := DrainOver(topology, old(desired), old(messages), old(commands), old(link.State()), decode, now);
        desired == r.0.desired && messages == r.0.messages && commands == r.1 && link.State() == r.0.channel
    {
      var cube := new MaxCube(link, decode);
      var ok := cube.Update();
      if ok {
        assert cube.connection == link && cube.Valid();
        var _ := ProcessCommands(cube, now);
      }
    }

    /**
     * One pass of the loop of `run`, with the commands that arrived since
     * the last pass: the duty-cycle reset, the command queue drained over a
     * fresh cube (left as it is when the hub's state does not parse), a
     * refresh once the publish period has passed, with the desired
     * temperatures the commands left, and the connection closed.
     */
    method RunIteration(hub: Hub, arrived: seq<Task>, now: int)
      modifies this, hub, connection
      ensures connection == null
      ensures var z := DutyReset(now, old(cubeDutyCycle), old(cubeDutyCycleReset), config.dutyCycleResetInterval);
        var d := Drain(old(topology), old(desired), old(messages) + z.2, old(commands) + arrived, old(Link(hub).State()), decode, now);
        var s := RefreshPass(old(topology), d.0.desired, config.sanityCheck, d.0.channel, z.0, z.1, decode, now);
        && desired == d.0.desired && commands == d.1
        && (old(UpdateTimerElapsed(now)) ==>
              && Swept(old(Link(hub)), d.0.messages, s)
              && topologyLastRefresh == now && mqttLastRefresh == now && dumps == old(dumps) + [topology])
        && (!old(UpdateTimerElapsed(now)) ==>
              && Swept(old(Link(hub)), d.0.messages, Sweep(old(topology), [], None, d.0.channel, z.0, z.1))
              && topologyLastRefresh == old(topologyLastRefresh) && mqttLastRefresh == old(mqttLastRefresh) && dumps == old(dumps))
    {
      ghost var link := Link(hub);
      HandleCommands(hub, arrived, now);
      assert Link(hub) == link;
      RefreshWhenDue(hub, now);
      Close();
    }

    /** The second half of a pass of `run`: a refresh once the publish period has passed, and its time noted. */
    method RefreshWhenDue(hub: Hub, now: int)
      modifies this`topology, this`messages, this`cubeDutyCycle, this`cubeDutyCycleReset, this`mqttLastRefresh, this`dumps
      modifies this`topologyLastRefresh, this`connection, hub, connection
      ensures desired == old(desired) && commands == old(commands)
      ensures old(UpdateTimerElapsed(now)) ==>
        && Swept(old(Link(hub)), old(messages), RefreshPass(old(topology), desired, config.sanityCheck, old(Link(hub).State()),
                                                            old(cubeDutyCycle), old(cubeDutyCycleReset), decode, now))
        && topologyLastRefresh == now && mqttLastRefresh == now && dumps == old(dumps) + [topology]
      ensures !old(UpdateTimerElapsed(now)) ==>
        && Swept(old(Link(hub)), old(messages), Sweep(old(topology), [], None, old(Link(hub).State()), old(cubeDutyCycle), old(cubeDutyCycleReset)))
        && topologyLastRefresh == old(topologyLastRefresh) && mqttLastRefresh == old(mqttLastRefresh) && dumps == old(dumps)
    {
      if UpdateTimerElapsed(now) {
        RefreshTopology(hub, now);
        topologyLastRefresh := now;
      }
    }

    /** The first half of a pass of `run`: the duty-cycle reset, then the queue with the new commands drained. */
    method HandleCommands(hub: Hub, arrived: seq<Task>, now: int)
      modifies this`cubeDutyCycle, this`cubeDutyCycleReset, this`messages, this`commands, this`desired, this`connection
      modifies hub, connection
      ensures connection == old(if commands + arrived != [] then Link(hub) else connection)
      ensures var z := DutyReset(now, old(cubeDutyCycle), old(cubeDutyCycleReset), config.dutyCycleResetInterval);
        var d := Drain(topology, old(desired), old(messages) + z.2, old(commands) + arrived, old(Link(hub).State()), decode, now);
        && cubeDutyCycle == z.0 && cubeDutyCycleReset == z.1
        && desired == d.0.desired && messages == d.0.messages && commands == d.1 && old(Link(hub)).State() == d.0.channel
    {
      ghost var z := DutyReset(now, cubeDutyCycle, cubeDutyCycleReset, config.dutyCycleResetInterval);
      ResetDutyCycle(now);
      assert messages == old(messages) + z.2 && cubeDutyCycle == z.0 && cubeDutyCycleReset == z.1;
      commands := commands + arrived;
      TakeCommands(hub, now);
    }

    /** The drain of a pass of `run`, over a connection opened only when there is something to do. */
    method TakeCommands(hub: Hub, now: int)
      modifies this`messages, this`commands, this`desired, this`connection, hub, connection
      ensures connection == old(if commands != [] then Link(hub) else connection)
      ensures var d := Drain(topology, old(desired), old(messages), old(commands), old(Link(hub).State()), decode, now);
        desired == d.0.desired && messages == d.0.messages && commands == d.1 && old(Link(hub)).State() == d.0.channel
    {
      if commands != [] {
        Connect(hub);
        DrainCommands(connection, now);
      }
    }
  }
}
