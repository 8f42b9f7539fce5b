/**
 * The device records shared by the codec and the worker (maxcube/device.py
 * and maxcube/thermostat.py): the numeric type and mode constants, the
 * plain device and thermostat records, and the guarded name lookups.
 *
 * Temperatures are integers in tenths of a degree Celsius: the hub's
 * half-degree values are stored multiplied by five.
 */
module Device {
  import opened Wrappers
  import opened PyText

  // Device types, as the hub numbers them.
  const CubeType: int := 0
  const ThermostatType: int := 1
  const ThermostatPlusType: int := 2
  const WallThermostatType: int := 3
  const WindowShutterType: int := 4
  const PushButtonType: int := 5

  // Thermostat modes, as the hub numbers them.
  const ModeAutomatic: int := 0
  const ModeManual: int := 1
  const ModeVacation: int := 2
  const ModeBoost: int := 3

  const DeviceTypeNames: seq<string> :=
    ["Cube", "Thermostat", "Thermostat Plus", "Wall Thermostat", "Shutter contact", "Eco button"]

  const DeviceModeNames: seq<string> := ["AUTO", "MANUAL", "VACATION", "BOOST"]

  /**
   * A device as the hub client holds it. `Plain` is the base record,
   * `Thermostat` the record with the thermostat-only fields; `None` stands for
   * an attribute not yet set. `serial` is assigned when a discovery message
   * names the device.
   */
  datatype MaxDevice =
    | Plain(
        devType: Option<int>, rfAddress: Option<string>, roomId: Option<int>, name: Option<string>,
        batteryOk: Option<bool>, linkOk: Option<bool>, roomName: Option<string>, serial: Option<string>)
    | Thermostat(
        devType: Option<int>, rfAddress: Option<string>, roomId: Option<int>, name: Option<string>,
        batteryOk: Option<bool>, linkOk: Option<bool>, roomName: Option<string>, serial: Option<string>,
        mode: Option<int>,
        minTemperature: Option<int>, maxTemperature: Option<int>,
        actualTemperature: Option<int>, targetTemperature: Option<int>,
        valvePosition: Option<int>)

  /** A freshly constructed base device: every common field is unset. */
  function NewDevice(): (d: MaxDevice)
    ensures d.Plain?
    ensures d.devType == None && d.rfAddress == None && d.roomId == None && d.name == None
    ensures d.batteryOk == None && d.linkOk == None && d.roomName == None && d.serial == None
  {
    Plain(None, None, None, None, None, None, None, None)
  }

  /** A freshly constructed thermostat: the common and the thermostat fields are unset. */
  function NewThermostat(): (d: MaxDevice)
    ensures d.Thermostat?
    ensures d.devType == None && d.rfAddress == None && d.roomId == None && d.name == None
    ensures d.batteryOk == None && d.linkOk == None && d.roomName == None && d.serial == None
    ensures d.mode == None && d.minTemperature == None && d.maxTemperature == None
    ensures d.actualTemperature == None && d.targetTemperature == None && d.valvePosition == None
  {
    Thermostat(None, None, None, None, None, None, None, None, None, None, None, None, None, None)
  }

  /**
   * `device_type_name`: the table entry for a type below the table size, and
   * None above it. Comparing an unset type raises.
   */
  function DeviceTypeName(d: MaxDevice): Result<Option<string>>
  {
    match d.devType
    case None => Err(TypeError)
    case Some(t) =>
      if t < |DeviceTypeNames| then
        var n :- PyIndex(DeviceTypeNames, t);
        Ok(Some(n))
      else Ok(None)
  }

  /**
   * `device_mode_name`, defined on thermostats: the guard tests the TYPE, so
   * for a type below 4 the mode indexes the table unchecked (an unset mode
   * raises, a negative one counts from the end), and for any other type the
   * answer is None whatever the mode.
   */
  function DeviceModeName(d: MaxDevice): Result<Option<string>>
    requires d.Thermostat?
  {
    match d.devType
    case None => Err(TypeError)
    case Some(t) =>
      if t < |DeviceModeNames| then
        match d.mode
        case None => Err(TypeError)
        case Some(m) =>
          var n :- PyIndex(DeviceModeNames, m);
          Ok(Some(n))
      else Ok(None)
  }

  // ------------------------------------------------------ name table facts

  /** A known type gets its table entry, so "Wall Thermostat" for 3 and "Eco button" for 5. */
  lemma DeviceTypeNameKnown(d: MaxDevice)
    requires d.devType.Some? && 0 <= d.devType.value < 6
    ensures DeviceTypeName(d) == Ok(Some(DeviceTypeNames[d.devType.value]))
    ensures d.devType.value == WallThermostatType ==> DeviceTypeName(d) == Ok(Some("Wall Thermostat"))
    ensures d.devType.value == PushButtonType ==> DeviceTypeName(d) == Ok(Some("Eco button"))
  {
  }

  /** A type beyond the table gives None, never an index error. */
  lemma DeviceTypeNameUnknown(d: MaxDevice)
    requires d.devType.Some? && d.devType.value >= 6
    ensures DeviceTypeName(d) == Ok(None)
  {
  }

  /** Every type the hub can send (one byte) is named without raising. */
  lemma DeviceTypeNameTotal(d: MaxDevice)
    requires d.devType.Some? && 0 <= d.devType.value < 256
    ensures DeviceTypeName(d).Ok?
    ensures DeviceTypeName(d).value.Some? <==> d.devType.value < 6
  {
  }

  /** For types below 4, modes 0..3 name AUTO, MANUAL, VACATION and BOOST. */
  lemma DeviceModeNameKnown(d: MaxDevice)
    requires d.Thermostat? && d.devType.Some? && d.devType.value < 4
    requires d.mode.Some? && 0 <= d.mode.value < 4
    ensures DeviceModeName(d) == Ok(Some(DeviceModeNames[d.mode.value]))
    ensures d.mode.value == ModeBoost ==> DeviceModeName(d) == Ok(Some("BOOST"))
  {
  }

  /** For a type of 4 or more the mode is not looked at: the answer is None. */
  lemma DeviceModeNameIgnoresMode(d: MaxDevice, m: Option<int>)
    requires d.Thermostat? && d.devType.Some? && d.devType.value >= 4
    ensures DeviceModeName(d) == Ok(None)
    ensures DeviceModeName(d.(mode := m)) == Ok(None)
  {
  }

  /** With a type below 4 the mode is an unchecked index: mode 4 raises, mode -1 wraps to BOOST. */
  lemma DeviceModeNameUnchecked(d: MaxDevice)
    requires d.Thermostat? && d.devType.Some? && d.devType.value < 4
    ensures d.mode == None ==> DeviceModeName(d) == Err(TypeError)
    ensures d.mode == Some(4) ==> DeviceModeName(d) == Err(IndexError)
    ensures d.mode == Some(-1) ==> DeviceModeName(d) == Ok(Some("BOOST"))
  {
  }
}
