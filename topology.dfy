/**
 * The worker's view of the devices (MaxWorker.py): the topology table of
 * attribute values per device serial, the publish records it queues for the
 * broker, and the per-device refresh of `update_device` as pure functions.
 * Temperatures are tenths of a degree; other numbers are as the hub sends them.
 */
module Topology {
  import opened Wrappers
  import opened Device
  import opened Codec

  /** A value stored in the topology or carried by a record: JSON's null, boolean, number or string. */
  datatype Value = Null | Flag(flag: bool) | Number(number: int) | Text(text: string)

  /**
   * The attribute names the worker stores and publishes: the device fields,
   * plus the two cube counters it reports under the id `cube`.
   */
  datatype Attr =
    | RfAddress | Name | RoomId | RoomName | DeviceType | Serial | LinkOk | BatteryOk
    | Mode | MinTemperature | MaxTemperature | ActualTemperature | TargetTemperature | ValvePosition
    | FreeMemSlots | DutyCycle

  /** The Python key of an attribute. */
  function AttrName(a: Attr): string
  {
    match a
    case RfAddress => "rf_address"
    case Name => "name"
    case RoomId => "room_id"
    case RoomName => "room_name"
    case DeviceType => "type"
    case Serial => "serial"
    case LinkOk => "link_ok"
    case BatteryOk => "battery_ok"
    case Mode => "mode"
    case MinTemperature => "min_temperature"
    case MaxTemperature => "max_temperature"
    case ActualTemperature => "actual_temperature"
    case TargetTemperature => "target_temperature"
    case ValvePosition => "valve_position"
    case FreeMemSlots => "free_mem_slots"
    case DutyCycle => "duty_cycle"
  }

  /** One device's attributes. */
  type Record = map<Attr, Value>

  /** The topology: one record per device serial. */
  type Table = map<string, Record>

  function TextValue(o: Option<string>): Value
  {
    if o.Some? then Text(o.value) else Null
  }

  function NumberValue(o: Option<int>): Value
  {
    if o.Some? then Number(o.value) else Null
  }

  function FlagValue(o: Option<bool>): Value
  {
    if o.Some? then Flag(o.value) else Null
  }

  /** `record.get(param, None)`. */
  function Get(rec: Record, param: Attr): (v: Value)
    ensures param in rec ==> v == rec[param]
    ensures param !in rec ==> v == Null
  {
    if param in rec then rec[param] else Null
  }

  /** Python truthiness of an optional number: None and 0 are false. */
  predicate Truthy(o: Option<int>)
  {
    o.Some? && o.value != 0
  }

  /**
   * A record for the broker, as `prepare_output` builds it: `methodName` is
   * its `method` key, and `param` its `param` key, `AttrName(param)`.
   */
  datatype Message = Message(methodName: string, deviceId: string, param: Attr, payload: Value, qos: int, timestamp: int)

  /** `prepare_output`: a publish request at QoS 1, stamped with the current time. */
  function PrepareOutput(deviceId: string, param: Attr, payload: Value, now: int): (m: Message)
    ensures m.methodName == "publish" && m.qos == 1 && m.timestamp == now
    ensures m.deviceId == deviceId && m.param == param && m.payload == payload
  {
    Message("publish", deviceId, param, payload, 1, now)
  }

  /** The attributes only a thermostat record has. */
  predicate ThermostatOnly(a: Attr)
  {
    a.Mode? || a.MinTemperature? || a.MaxTemperature? || a.ActualTemperature? || a.TargetTemperature? || a.ValvePosition?
  }

  /**
   * `device.__dict__[param]`: the common fields of every device, the
   * thermostat fields only on a thermostat, and KeyError for the cube
   * counters, which no device has.
   */
  function Attribute(d: MaxDevice, param: Attr): (r: Result<Value>)
    ensures r.Err? <==> (d.Plain? && ThermostatOnly(param)) || param.FreeMemSlots? || param.DutyCycle?
    ensures r.Err? ==> r.error == KeyError
  {
    match param
    case DeviceType => Ok(NumberValue(d.devType))
    case RfAddress => Ok(TextValue(d.rfAddress))
    case RoomId => Ok(NumberValue(d.roomId))
    case Name => Ok(TextValue(d.name))
    case BatteryOk => Ok(FlagValue(d.batteryOk))
    case LinkOk => Ok(FlagValue(d.linkOk))
    case RoomName => Ok(TextValue(d.roomName))
    case Serial => Ok(TextValue(d.serial))
    case FreeMemSlots => Err(KeyError)
    case DutyCycle => Err(KeyError)
    case Mode => if d.Plain? then Err(KeyError) else Ok(NumberValue(d.mode))
    case MinTemperature => if d.Plain? then Err(KeyError) else Ok(NumberValue(d.minTemperature))
    case MaxTemperature => if d.Plain? then Err(KeyError) else Ok(NumberValue(d.maxTemperature))
    case ActualTemperature => if d.Plain? then Err(KeyError) else Ok(NumberValue(d.actualTemperature))
    case TargetTemperature => if d.Plain? then Err(KeyError) else Ok(NumberValue(d.targetTemperature))
    case ValvePosition => if d.Plain? then Err(KeyError) else Ok(NumberValue(d.valvePosition))
  }

  // ------------------------------------------------------ update_device_metric

  /**
   * `update_device_metric` on the device's record: when the stored value
   * differs from the device's, store the device's and queue one record with
   * it. An attribute the device lacks raises inside the method's own try,
   * which changes nothing.
   */
  function MetricOn(rec: Record, id: string, d: MaxDevice, param: Attr, now: int): (r: (Record, seq<Message>))
  {
    match Attribute(d, param)
    case Err(_) => (rec, [])
    case Ok(v) =>
      if Get(rec, param) != v then (rec[param := v], [PrepareOutput(id, param, v, now)])
      else (rec, [])
  }

  /** `update_device_metric` on the topology: a device without a record raises, caught, and changes nothing. */
  function Metric(t: Table, id: string, d: MaxDevice, param: Attr, now: int): (r: (Table, seq<Message>))
  {
    if id !in t then (t, [])
    else
      var m := MetricOn(t[id], id, d, param, now);
      (t[id := m.0], m.1)
  }

  // ------------------------------------------------------------ update_device

  /** What one refresh leaves in the device's record, the records queued, and the exception that stopped it. */
  datatype Refresh = Refresh(record: Record, published: seq<Message>, error: Option<Error>)

  /** The four identity writes of `update_device` that cannot raise. */
  function WithIdentity(rec: Record, d: MaxDevice): Record
  {
    rec[RfAddress := TextValue(d.rfAddress)][Name := TextValue(d.name)]
       [RoomId := NumberValue(d.roomId)][RoomName := TextValue(d.roomName)]
  }

  /**
   * The end of `update_device`: six status records of the stored values,
   * `actual_temperature` read with `.get` and the other five with `[]`, so
   * the first of those five the record lacks raises KeyError after the
   * records before it are queued.
   */
  function Publish(rec: Record, id: string, published: seq<Message>, now: int): (r: Refresh)
  {
    var out0 := published + [PrepareOutput(id, ActualTemperature, Get(rec, ActualTemperature), now)];
    if TargetTemperature !in rec then Refresh(rec, out0, Some(KeyError))
    else
      var out1 := out0 + [PrepareOutput(id, TargetTemperature, rec[TargetTemperature], now)];
      if LinkOk !in rec then Refresh(rec, out1, Some(KeyError))
      else
        var out2 := out1 + [PrepareOutput(id, LinkOk, rec[LinkOk], now)];
        if BatteryOk !in rec then Refresh(rec, out2, Some(KeyError))
        else
          var out3 := out2 + [PrepareOutput(id, BatteryOk, rec[BatteryOk], now)];
          if ValvePosition !in rec then Refresh(rec, out3, Some(KeyError))
          else
            var out4 := out3 + [PrepareOutput(id, ValvePosition, rec[ValvePosition], now)];
            if Mode !in rec then Refresh(rec, out4, Some(KeyError))
            else Refresh(rec, out4 + [PrepareOutput(id, Mode, rec[Mode], now)], None)
  }

  /**
   * The writes of the thermostat part: the mode name stored directly, the
   * actual temperature diffed only when it is truthy, then the target and
   * the valve position diffed.
   */
  function ThermostatWrites(rec: Record, id: string, d: MaxDevice, modeName: Option<string>, now: int): (r: (Record, seq<Message>))
    requires d.Thermostat?
  {
    var r4 := rec[Mode := TextValue(modeName)];
    var r5 := if Truthy(d.actualTemperature) then MetricOn(r4, id, d, ActualTemperature, now) else (r4, []);
    var r6 := MetricOn(r5.0, id, d, TargetTemperature, now);
    var r7 := MetricOn(r6.0, id, d, ValvePosition, now);
    (r7.0, r5.1 + r6.1 + r7.1)
  }

  /**
   * The thermostat part of `update_device`, then its status records. A
   * thermostat type on a record without the thermostat fields raises
   * AttributeError; a mode name that raises stops the refresh.
   */
  function ThermostatMetrics(rec: Record, id: string, d: MaxDevice, published: seq<Message>, now: int): (r: Refresh)
  {
    if !IsThermostatType(d.devType) then Publish(rec, id, published, now)
    else if d.Plain? then Refresh(rec, published, Some(AttributeError))
    else
      match DeviceModeName(d)
      case Err(e) => Refresh(rec, published, Some(e))
      case Ok(modeName) =>
        var w := ThermostatWrites(rec, id, d, modeName, now);
        Publish(w.0, id, published + w.1, now)
  }

  /**
   * The writes every device gets once its type is named: the type name and
   * the serial stored directly, then link and battery state diffed.
   */
  function CommonWrites(rec: Record, id: string, d: MaxDevice, typeName: Option<string>, now: int): (r: (Record, seq<Message>))
  {
    var r1 := WithIdentity(rec, d)[DeviceType := TextValue(typeName)][Serial := Text(id)];
    var r2 := MetricOn(r1, id, d, LinkOk, now);
    var r3 := MetricOn(r2.0, id, d, BatteryOk, now);
    (r3.0, r2.1 + r3.1)
  }

  /**
   * `update_device` on the device's record (a new device starts from an
   * empty one): overwrite the identity fields, diff link and battery state,
   * then the thermostat part, then queue the six status records.
   */
  function RefreshRecord(rec: Record, id: string, d: MaxDevice, now: int): (r: Refresh)
  {
    match DeviceTypeName(d)
    case Err(e) => Refresh(WithIdentity(rec, d), [], Some(e))
    case Ok(typeName) =>
      var c := CommonWrites(rec, id, d, typeName, now);
      ThermostatMetrics(c.0, id, d, c.1, now)
  }

  /** What a refresh leaves in the topology. */
  datatype Step = Step(table: Table, published: seq<Message>, error: Option<Error>)

  /** `update_device` for a device with a serial: every write goes to that serial's record. */
  function RefreshDevice(t: Table, d: MaxDevice, now: int): (s: Step)
    requires d.serial.Some?
  {
    var id := d.serial.value;
    var r := RefreshRecord(if id in t then t[id] else map[], id, d, now);
    Step(t[id := r.record], r.published, r.error)
  }
}
