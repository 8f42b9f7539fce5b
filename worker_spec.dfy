/**
 * The pure parts of the worker (MaxWorker.py) that its methods are proved
 * against: its configuration, the command records it drains, the payload
 * conversions of its command handlers, the device list a hub answer yields
 * and the refresh of a whole device list.
 */
module WorkerSpec {
  import opened Wrappers
  import opened Device
  import opened Codec
  import opened CodecFacts
  import opened Cube
  import opened PyText
  import opened Topology
  import opened TopologyFacts

  /** A command record from the broker: its `method`, `deviceId`, `param` and `payload` keys. */
  datatype Task = Task(methodName: string, deviceId: string, param: string, payload: Value)

  /**
   * The worker's settings. The topology refresh interval is read but never
   * consulted, as in the worker itself.
   */
  datatype Config = Config(
    cubeAddress: string,
    topologyRefreshPeriod: int,
    mqttUpdatePeriod: int,
    dutyCycleResetInterval: int,
    sanityCheck: bool)

  /**
   * `float(v)` of a command payload or a stored value, in tenths of a
   * degree: a number as it is, a boolean as 1.0 or 0.0, None a TypeError.
   */
  function ToNumber(v: Value): Result<int>
  {
    match v
    case Number(n) => Ok(n)
    case Flag(b) => Ok(if b then 10 else 0)
    case Null => Err(TypeError)
    case Text(_) => Err(Unsupported)
  }

  /** `record[p]`: the stored value, or KeyError. */
  function Lookup(rec: Record, p: Attr): (r: Result<Value>)
    ensures r.Ok? <==> p in rec
    ensures r.Ok? ==> r.value == rec[p]
    ensures r.Err? ==> r.error == KeyError
  {
    if p in rec then Ok(rec[p]) else Err(KeyError)
  }

  /**
   * The `modes` table of `set_mode`: the mode names mapped back to their
   * numbers, KeyError for anything else.
   */
  function ModeNumber(v: Value): (r: Result<int>)
    ensures r.Ok? ==> 0 <= r.value < |DeviceModeNames| && v == Text(DeviceModeNames[r.value])
    ensures r.Err? ==> r.error == KeyError
    ensures r.Err? ==> forall m :: 0 <= m < |DeviceModeNames| ==> v != Text(DeviceModeNames[m])
  {
    if v == Text("AUTO") then Ok(ModeAutomatic)
    else if v == Text("MANUAL") then Ok(ModeManual)
    else if v == Text("VACATION") then Ok(ModeVacation)
    else if v == Text("BOOST") then Ok(ModeBoost)
    else Err(KeyError)
  }

  /**
   * The mode name a refresh stores is what `set_mode` maps back to the
   * device's mode: the two tables are inverse on the four modes.
   */
  lemma ModeNumberRoundTrip(d: MaxDevice)
    requires d.Thermostat? && d.devType.Some? && d.devType.value < 4
    requires d.mode.Some? && 0 <= d.mode.value < 4
    ensures DeviceModeName(d).Ok? && DeviceModeName(d).value.Some?
    ensures ModeNumber(TextValue(DeviceModeName(d).value)) == Ok(d.mode.value)
  {
    DeviceModeNameKnown(d);
  }

  /**
   * `device_by_rf(rf_id)` with the topology's stored address: only a text
   * address can equal a device's, so anything else finds no device.
   */
  function RfIndex(ds: seq<MaxDevice>, rf: Value): (r: Option<nat>)
    ensures r.Some? ==> rf.Text? && r.value < |ds| && ds[r.value].rfAddress == Some(rf.text)
    ensures rf.Text? ==> r == IndexOfRf(ds, rf.text)
  {
    if rf.Text? then IndexOfRf(ds, rf.text) else None
  }

  /**
   * The duty-cycle reset at the top of a pass of `run`: once the interval
   * has strictly passed since the last reset, the counter drops to zero,
   * the reset time moves to now and the zero is queued; before that nothing
   * changes. The result is the counter, the reset time and the records.
   */
  function DutyReset(now: int, duty: int, reset: int, interval: int): (r: (int, int, seq<Message>))
    ensures now > reset + interval ==> r == (0, now, [PrepareOutput("cube", DutyCycle, Number(0), now)])
    ensures now <= reset + interval ==> r == (duty, reset, [])
  {
    if now > reset + interval then (0, now, [PrepareOutput("cube", DutyCycle, Number(0), now)]) else (duty, reset, [])
  }

  /**
   * The sanity check of `refresh_topology`: a thermostat type, the check
   * enabled, a desired temperature recorded for the serial and different
   * from the device's target.
   */
  predicate CorrectionDue(d: MaxDevice, id: string, check: bool, desired: map<string, int>)
  {
    && IsThermostatType(d.devType)
    && check
    && id in desired
    && (d.Thermostat? ==> d.targetTemperature != Some(desired[id]))
  }

  /**
   * What `set_temperature` decides from the topology before it talks to the
   * hub: the exception raised outside its try block, or no command because
   * the stored target already equals the requested one, or a command for
   * the stored RF address with the requested temperature.
   */
  function TemperatureCommand(t: Table, id: string, target: Value): (r: Result<Option<(Value, int)>>)
    ensures r.Ok? ==> id in t && ToNumber(target).Ok? && TargetTemperature in t[id] && ToNumber(t[id][TargetTemperature]).Ok?
    ensures r.Ok? && r.value.None? ==> ToNumber(t[id][TargetTemperature]) == ToNumber(target)
    ensures r.Ok? && r.value.Some? ==>
      && ToNumber(t[id][TargetTemperature]) != ToNumber(target)
      && RfAddress in t[id] && r.value.value == (t[id][RfAddress], ToNumber(target).value)
    ensures (id in t && ToNumber(target).Ok? && TargetTemperature in t[id] && ToNumber(t[id][TargetTemperature]).Ok?
             && (ToNumber(t[id][TargetTemperature]) != ToNumber(target) ==> RfAddress in t[id])) ==> r.Ok?
  {
    if id !in t then Err(KeyError)
    else
      var want :- ToNumber(target);
      var stored :- Lookup(t[id], TargetTemperature);
      var current :- ToNumber(stored);
      if current == want then Ok(None)
      else
        var rf :- Lookup(t[id], RfAddress);
        Ok(Some((rf, want)))
  }

  /**
   * What `set_mode` decides from the topology before its try block: the
   * exception raised, or no command because the stored mode already equals
   * the requested one, or a command for the stored RF address.
   */
  function ModeCommand(t: Table, id: string, target: Value): (r: Result<Option<Value>>)
    ensures r.Ok? ==> id in t && Mode in t[id]
    ensures r.Ok? && r.value.None? ==> t[id][Mode] == target
    ensures r.Ok? && r.value.Some? ==> t[id][Mode] != target && RfAddress in t[id] && r.value.value == t[id][RfAddress]
    ensures id in t && Mode in t[id] && (t[id][Mode] != target ==> RfAddress in t[id]) ==> r.Ok?
  {
    if id !in t then Err(KeyError)
    else
      var stored :- Lookup(t[id], Mode);
      if stored == target then Ok(None)
      else
        var rf :- Lookup(t[id], RfAddress);
        Ok(Some(rf))
  }

  /** `update_cube_stats`: the cube's free memory slots and duty cycle, under the id `cube`. */
  function CubeStats(freeMemSlots: Option<int>, dutyCycle: Option<int>, now: int): (ms: seq<Message>)
    ensures |ms| == 2 && ms[0].deviceId == "cube" && ms[1].deviceId == "cube"
    ensures ms[0].param == FreeMemSlots && ms[0].payload == NumberValue(freeMemSlots)
    ensures ms[1].param == DutyCycle && ms[1].payload == NumberValue(dutyCycle)
  {
    [PrepareOutput("cube", FreeMemSlots, NumberValue(freeMemSlots), now),
     PrepareOutput("cube", DutyCycle, NumberValue(dutyCycle), now)]
  }

  /**
   * Whether the hub accepted a command: it answered, the answer parsed, and
   * its result code is 0 (`command_success`).
   */
  predicate Accepted(out: Result<Reply>)
  {
    out.Ok? && out.value.commandResult == 0
  }

  /**
   * The records of a successful sanity correction: the target the topology
   * holds for the device, then the cube's counters from the reply. The
   * topology's target is read first, so a record without one raises before
   * anything is queued.
   */
  function CorrectionRecords(out: Result<Reply>, t: Table, id: string, now: int): (ms: seq<Message>)
    ensures ms != [] <==> Accepted(out) && id in t && TargetTemperature in t[id]
    ensures ms != [] ==> |ms| == 3 && ms[0] == PrepareOutput(id, TargetTemperature, t[id][TargetTemperature], now)
    ensures ms != [] ==> ms[1..] == CubeStats(Some(out.value.freeMemSlots), Some(out.value.dutyCycle), now)
  {
    if Accepted(out) && id in t && TargetTemperature in t[id] then
      [PrepareOutput(id, TargetTemperature, t[id][TargetTemperature], now)]
        + CubeStats(Some(out.value.freeMemSlots), Some(out.value.dutyCycle), now)
    else []
  }

  /**
   * The device the try block of `set_temperature` and `set_mode` commands:
   * the block first reads the record's `room_name` and `name` for its log
   * line (KeyError, caught), then looks the RF address up in the cube (a
   * miss hands None to the cube, which raises AttributeError, caught).
   */
  function CommandTarget(rec: Record, ds: seq<MaxDevice>, rf: Value): (r: Option<nat>)
    ensures r.Some? ==> r.value < |ds| && rf.Text? && ds[r.value].rfAddress == Some(rf.text)
    ensures r.Some? ==> RoomName in rec && Name in rec
    ensures RoomName in rec && Name in rec && rf.Text? ==> r == IndexOfRf(ds, rf.text)
  {
    if RoomName in rec && Name in rec then RfIndex(ds, rf) else None
  }

  /**
   * What the try block of a command handler does: the records it queues,
   * the cube's devices and the hub connection afterwards, and whether it
   * handed a command to the cube at all.
   */
  datatype Effect = Effect(records: seq<Message>, devices: seq<MaxDevice>, channel: Channel, asked: bool)

  /**
   * The try block of `set_temperature` for the stored RF address `rf`: the
   * cube's command, then, when the hub accepted it, the cube's counters and
   * the requested payload as given.
   */
  function TemperatureEffect(rec: Record, ds: seq<MaxDevice>, ch: Channel, id: string,
                             rf: Value, want: int, target: Value, now: int): (e: Effect)
    requires ValidDevices(ds)
    ensures ValidDevices(e.devices)
    ensures e.asked <==> CommandTarget(rec, ds, rf).Some?
    ensures !e.asked ==> e.records == [] && e.devices == ds && e.channel == ch
    ensures e.asked ==>
      var i := CommandTarget(rec, ds, rf).value;
      var out := CommandOutcome(TemperaturePayload(ds[i], want), ch.script);
      && e.channel == CommandChannel(TemperaturePayload(ds[i], want), ch)
      && (Accepted(out) ==> e.records == CubeStats(Some(out.value.freeMemSlots), Some(out.value.dutyCycle), now)
                                         + [PrepareOutput(id, TargetTemperature, target, now)])
      && (!Accepted(out) ==> e.records == [])
      && (out.Ok? ==> e.devices == ds[i := ds[i].(targetTemperature := Some(StoredTarget(want)))])
      && (out.Err? ==> e.devices == ds)
  {
    match CommandTarget(rec, ds, rf)
    case None => Effect([], ds, ch, false)
    case Some(i) =>
      var payload := TemperaturePayload(ds[i], want);
      var out := CommandOutcome(payload, ch.script);
      var records := if Accepted(out) then CubeStats(Some(out.value.freeMemSlots), Some(out.value.dutyCycle), now)
                                           + [PrepareOutput(id, TargetTemperature, target, now)]
                     else [];
      var d := ds[i].(targetTemperature := Some(StoredTarget(want)));
      ReplaceIdentity(ds, i, d);
      SameIdentitiesValid(ds, ds[i := d]);
      Effect(records, if out.Ok? then ds[i := d] else ds, CommandChannel(payload, ch), true)
  }

  /**
   * The try block of `set_mode`: the device is looked up before the mode
   * name, and a name outside `modes` raises KeyError, caught, before
   * anything is sent.
   */
  function ModeEffect(rec: Record, ds: seq<MaxDevice>, ch: Channel, id: string,
                      rf: Value, target: Value, now: int): (e: Effect)
    requires ValidDevices(ds)
    ensures ValidDevices(e.devices)
    ensures e.asked <==> CommandTarget(rec, ds, rf).Some? && ModeNumber(target).Ok?
    ensures !e.asked ==> e.records == [] && e.devices == ds && e.channel == ch
    ensures e.asked ==>
      var i := CommandTarget(rec, ds, rf).value;
      var mode := ModeNumber(target).value;
      var out := CommandOutcome(ModePayload(ds[i], mode), ch.script);
      && e.channel == CommandChannel(ModePayload(ds[i], mode), ch)
      && (Accepted(out) ==> e.records == CubeStats(Some(out.value.freeMemSlots), Some(out.value.dutyCycle), now)
                                         + [PrepareOutput(id, Mode, target, now)])
      && (!Accepted(out) ==> e.records == [])
      && (out.Ok? ==> e.devices == ds[i := ds[i].(mode := Some(mode))])
      && (out.Err? ==> e.devices == ds)
  {
    match CommandTarget(rec, ds, rf)
    case None => Effect([], ds, ch, false)
    case Some(i) =>
      match ModeNumber(target)
      case Err(_) => Effect([], ds, ch, false)
      case Ok(mode) =>
        var payload := ModePayload(ds[i], mode);
        var out := CommandOutcome(payload, ch.script);
        var records := if Accepted(out) then CubeStats(Some(out.value.freeMemSlots), Some(out.value.dutyCycle), now)
                                             + [PrepareOutput(id, Mode, target, now)]
                       else [];
        var d := ds[i].(mode := Some(mode));
        ReplaceIdentity(ds, i, d);
        SameIdentitiesValid(ds, ds[i := d]);
        Effect(records, if out.Ok? then ds[i := d] else ds, CommandChannel(payload, ch), true)
  }

  /** A command the drain hands to a handler: method `command` with param `target_temperature` or `mode`. */
  predicate ReachesHandler(task: Task)
  {
    task.methodName == "command" && (task.param == AttrName(TargetTemperature) || task.param == AttrName(Mode))
  }

  /** No task of the queue reaches a handler. */
  predicate NoneDispatched(queue: seq<Task>)
  {
    forall k :: 0 <= k < |queue| ==> !ReachesHandler(queue[k])
  }

  /**
   * What handling commands changes: the desired temperatures, the records
   * queued for the broker, the cube's devices and the hub connection.
   */
  datatype Session = Session(desired: map<string, int>, messages: seq<Message>, devices: seq<MaxDevice>, channel: Channel)

  /**
   * `set_temperature` against the topology `t`. The desired temperature is
   * recorded as soon as the record and the payload have been read, so it
   * stays recorded when the handler then raises or sends nothing; an
   * exception outside the try block changes nothing else, and the hub is
   * asked only when the stored target differs from the requested one.
   */
  function TemperatureTask(t: Table, s: Session, id: string, target: Value, now: int): (r: (Session, Option<Error>))
    requires ValidDevices(s.devices)
    ensures ValidDevices(r.0.devices) && s.messages <= r.0.messages
    ensures id in t && ToNumber(target).Ok? ==> r.0.desired == s.desired[id := ToNumber(target).value]
    ensures !(id in t && ToNumber(target).Ok?) ==> r.0.desired == s.desired && r.1.Some?
    ensures var plan := TemperatureCommand(t, id, target);
      && (r.1.Some? <==> plan.Err?)
      && (plan.Err? ==> r.1.value == plan.error)
      && (plan.Ok? && plan.value.Some? ==>
            var e := TemperatureEffect(t[id], s.devices, s.channel, id, plan.value.value.0, plan.value.value.1, target, now);
            r.0.messages == s.messages + e.records && r.0.devices == e.devices && r.0.channel == e.channel)
      && (!(plan.Ok? && plan.value.Some?) ==>
            r.0.messages == s.messages && r.0.devices == s.devices && r.0.channel == s.channel)
  {
    var desired := if id in t && ToNumber(target).Ok? then s.desired[id := ToNumber(target).value] else s.desired;
    match TemperatureCommand(t, id, target)
    case Err(error) => (s.(desired := desired), Some(error))
    case Ok(None) => (s.(desired := desired), None)
    case Ok(Some(command)) =>
      var e := TemperatureEffect(t[id], s.devices, s.channel, id, command.0, command.1, target, now);
      (Session(desired, s.messages + e.records, e.devices, e.channel), None)
  }

  /**
   * `set_mode` against the topology `t`: it records no desired state; an
   * exception outside the try block changes nothing, and the hub is asked
   * only when the stored mode differs from the requested one.
   */
  function ModeTask(t: Table, s: Session, id: string, target: Value, now: int): (r: (Session, Option<Error>))
    requires ValidDevices(s.devices)
    ensures ValidDevices(r.0.devices) && s.messages <= r.0.messages && r.0.desired == s.desired
    ensures var plan := ModeCommand(t, id, target);
      && (r.1.Some? <==> plan.Err?)
      && (plan.Err? ==> r.1.value == plan.error)
      && (plan.Ok? && plan.value.Some? ==>
            var e := ModeEffect(t[id], s.devices, s.channel, id, plan.value.value, target, now);
            r.0.messages == s.messages + e.records && r.0.devices == e.devices && r.0.channel == e.channel)
      && (!(plan.Ok? && plan.value.Some?) ==> r.0 == s)
  {
    match ModeCommand(t, id, target)
    case Err(error) => (s, Some(error))
    case Ok(None) => (s, None)
    case Ok(Some(rf)) =>
      var e := ModeEffect(t[id], s.devices, s.channel, id, rf, target, now);
      (Session(s.desired, s.messages + e.records, e.devices, e.channel), None)
  }

  /**
   * One task of the inner loop of `run`: a `command` for the target or the
   * mode goes to its handler; every other task, a `command` for another
   * parameter included, changes nothing. Records are only ever added.
   */
  function RunTask(t: Table, s: Session, task: Task, now: int): (r: (Session, Option<Error>))
    requires ValidDevices(s.devices)
    ensures ValidDevices(r.0.devices)
    ensures s.messages <= r.0.messages
    ensures !ReachesHandler(task) ==> r == (s, None)
  {
    if task.methodName == "command" && task.param == AttrName(TargetTemperature) then
      TemperatureTask(t, s, task.deviceId, task.payload, now)
    else if task.methodName == "command" && task.param == AttrName(Mode) then
      ModeTask(t, s, task.deviceId, task.payload, now)
    else (s, None)
  }

  /**
   * The inner loop of `run` over `queue`: tasks are taken from the front
   * and run in order, and the first exception a handler raises ends the
   * loop. The result is the state after the last command run, the commands still
   * queued (a suffix of the queue, empty unless a handler raised) and the
   * exception.
   */
  function RunTasks(t: Table, s: Session, queue: seq<Task>, now: int): (r: (Session, seq<Task>, Option<Error>))
    requires ValidDevices(s.devices)
    ensures ValidDevices(r.0.devices)
    decreases |queue|
  {
    if queue == [] then (s, [], None)
    else
      var step := RunTask(t, s, queue[0], now);
      if step.1.Some? then (step.0, queue[1..], step.1)
      else RunTasks(t, step.0, queue[1..], now)
  }

  /**
   * What the inner loop of `run` leaves queued: the end of the queue,
   * nothing unless a handler raised, and then the command just before it is
   * the one whose handler raised.
   */
  lemma RunTasksLeaves(t: Table, s: Session, queue: seq<Task>, now: int)
    requires ValidDevices(s.devices)
    ensures var r := RunTasks(t, s, queue, now);
      && |r.1| <= |queue| && r.1 == queue[|queue| - |r.1|..]
      && (r.2.None? ==> r.1 == [])
      && (r.2.Some? ==> |r.1| < |queue| && ReachesHandler(queue[|queue| - |r.1| - 1]))
  {
    RunTasksSuffix(t, s, queue, now);
    RunTasksRaiser(t, s, queue, now);
  }

  /** The commands the inner loop leaves are the end of the queue, and none unless a handler raised. */
  lemma {:induction false} RunTasksSuffix(t: Table, s: Session, queue: seq<Task>, now: int)
    requires ValidDevices(s.devices)
    ensures var r := RunTasks(t, s, queue, now);
      && |r.1| <= |queue| && r.1 == queue[|queue| - |r.1|..]
      && (r.2.None? ==> r.1 == [])
    decreases |queue|
  {
    if queue != [] {
      var step := RunTask(t, s, queue[0], now);
      if step.1.None? {
        var rest := RunTasks(t, step.0, queue[1..], now);
        RunTasksSuffix(t, step.0, queue[1..], now);
        assert queue[1..][|queue[1..]| - |rest.1|..] == queue[|queue| - |rest.1|..];
      }
    }
  }

  /** When the inner loop stops at an exception, the command just taken is one a handler ran. */
  lemma {:induction false} RunTasksRaiser(t: Table, s: Session, queue: seq<Task>, now: int)
    requires ValidDevices(s.devices)
    ensures var r := RunTasks(t, s, queue, now);
      r.2.Some? ==> |r.1| < |queue| && ReachesHandler(queue[|queue| - |r.1| - 1])
    decreases |queue|
  {
    if queue != [] {
      var step := RunTask(t, s, queue[0], now);
      if step.1.Some? {
        assert ReachesHandler(queue[0]);
      } else {
        var rest := RunTasks(t, step.0, queue[1..], now);
        RunTasksRaiser(t, step.0, queue[1..], now);
        if rest.2.Some? {
          assert queue[1..][|queue[1..]| - |rest.1| - 1] == queue[|queue| - |rest.1| - 1];
        }
      }
    }
  }

  /**
   * The inner loop of `run` only ever adds records, and a queue with no
   * command for a handler changes nothing.
   */
  lemma {:induction false} RunTasksRecords(t: Table, s: Session, queue: seq<Task>, now: int)
    requires ValidDevices(s.devices)
    ensures var r := RunTasks(t, s, queue, now);
      && s.messages <= r.0.messages
      && (NoneDispatched(queue) ==> r == (s, [], None))
    decreases |queue|
  {
    if queue != [] {
      var step := RunTask(t, s, queue[0], now);
      if step.1.None? {
        var rest := RunTasks(t, step.0, queue[1..], now);
        RunTasksRecords(t, step.0, queue[1..], now);
        PrefixTrans(s.messages, step.0.messages, rest.0.messages);
      }
    }
  }

  /**
   * Commands queued behind others wait their turn: when the first tasks
   * all run without raising, the drain of the longer queue is the drain of
   * the rest from the state they leave.
   */
  lemma {:induction false} RunTasksAppend(t: Table, s: Session, first: seq<Task>, rest: seq<Task>, now: int)
    requires ValidDevices(s.devices) && RunTasks(t, s, first, now).2.None?
    ensures RunTasks(t, s, first + rest, now) == RunTasks(t, RunTasks(t, s, first, now).0, rest, now)
    decreases |first|
  {
    if first != [] {
      assert (first + rest)[0] == first[0] && (first + rest)[1..] == first[1..] + rest;
      var step := RunTask(t, s, first[0], now);
      RunTasksAppend(t, step.0, first[1..], rest, now);
    } else {
      assert first + rest == rest;
    }
  }

  /**
   * The try block of the command part of `run` over a connection: a cube
   * reads the hub's state, which uses up one response; when that state does
   * not parse, the exception ends the block before any task is taken, and
   * otherwise the queue is run over the cube's devices.
   */
  function DrainOver(t: Table, desired: map<string, int>, messages: seq<Message>, queue: seq<Task>, ch: Channel,
                     decode: Decoders, now: int): (Session, seq<Task>)
  {
    match Discover(ch.script, decode)
    case Err(_) => (Session(desired, messages, [], Channel(RestOf(ch.script), ch.sent)), queue)
    case Ok(found) =>
      var d := RunTasks(t, Session(desired, messages, found, Channel(RestOf(ch.script), ch.sent)), queue, now);
      (d.0, d.1)
  }

  /**
   * The command part of a pass of `run`: nothing at all, not even a
   * connection, when the queue is empty; otherwise its try block.
   */
  function Drain(t: Table, desired: map<string, int>, messages: seq<Message>, queue: seq<Task>, ch: Channel,
                 decode: Decoders, now: int): (Session, seq<Task>)
  {
    if queue == [] then (Session(desired, messages, [], ch), [])
    else DrainOver(t, desired, messages, queue, ch, decode, now)
  }

  /**
   * What a pass's command part promises: records are only added and the
   * tasks left are the end of the queue. An empty queue opens no
   * connection; a hub whose state does not parse uses up one response and
   * leaves the whole queue and the records as they were; a queue with no
   * command for a handler is emptied without a record.
   */
  lemma DrainOutcome(t: Table, desired: map<string, int>, messages: seq<Message>, queue: seq<Task>, ch: Channel,
                     decode: Decoders, now: int)
    ensures var r := Drain(t, desired, messages, queue, ch, decode, now);
      && messages <= r.0.messages && |r.1| <= |queue| && r.1 == queue[|queue| - |r.1|..]
      && (queue == [] ==> r.0.desired == desired && r.0.messages == messages && r.1 == [] && r.0.channel == ch)
      && (queue != [] && Discover(ch.script, decode).Err? ==>
            r.0.desired == desired && r.0.messages == messages && r.1 == queue && r.0.channel == Channel(RestOf(ch.script), ch.sent))
      && (queue != [] && Discover(ch.script, decode).Ok? && NoneDispatched(queue) ==>
            r.0.desired == desired && r.0.messages == messages && r.1 == [] && r.0.channel == Channel(RestOf(ch.script), ch.sent))
  {
    if queue != [] {
      match Discover(ch.script, decode)
      case Err(_) =>
      case Ok(found) =>
        var s := Session(desired, messages, found, Channel(RestOf(ch.script), ch.sent));
        var d := RunTasks(t, s, queue, now);
        RunTasksLeaves(t, s, queue, now);
        RunTasksRecords(t, s, queue, now);
        assert Drain(t, desired, messages, queue, ch, decode, now) == (d.0, d.1);
    }
  }

  /**
   * The hub stores targets in half degrees, so after a correction the
   * device's target is the desired value truncated to half degrees, and the
   * check asks for another correction exactly when the desired value is not
   * a whole number of half degrees.
   */
  lemma CorrectionRepeats(d: MaxDevice, id: string, desired: map<string, int>)
    requires d.Thermostat? && IsThermostatType(d.devType) && id in desired
    ensures CorrectionDue(d.(targetTemperature := Some(StoredTarget(desired[id]))), id, true, desired)
        <==> desired[id] % 5 != 0
  {
    var w := desired[id];
    if w % 5 == 0 {
      StoredTargetExact(w);
    }
  }

  /**
   * The first record of an accepted correction is the target the refresh
   * has just stored, the device's target before the correction, which the
   * gate has found to differ from the desired one: the broker hears the
   * old target, not the new one.
   */
  lemma CorrectionPublishesStale(t: Table, d: MaxDevice, desired: map<string, int>, out: Result<Reply>, now: int, later: int)
    requires d.serial.Some? && d.Thermostat? && IsThermostatType(d.devType)
    requires RefreshDevice(t, d, now).error.None? && Accepted(out)
    ensures var ms := CorrectionRecords(out, RefreshDevice(t, d, now).table, d.serial.value, later);
      && |ms| == 3 && ms[0].param == TargetTemperature && ms[0].payload == NumberValue(d.targetTemperature)
      && (CorrectionDue(d, d.serial.value, true, desired) ==> ms[0].payload != Number(desired[d.serial.value]))
  {
    RefreshDeviceOutcome(t, d, now);
    RefreshDeviceWrites(t, d, now);
  }

  /**
   * The devices a hub answer yields when `MaxCube` reads it into a fresh
   * cube: the I/O error of a hub that answers nothing, or the error that
   * stopped the parse.
   */
  function Discover(script: seq<Option<string>>, decode: Decoders): (r: Result<seq<MaxDevice>>)
    ensures r.Ok? <==> NextResponse(script).Ok? && ApplyResponse(CubeState(None, None, []), NextResponse(script).value, decode).Ok?
    ensures r.Ok? ==> ValidDevices(r.value)
    ensures r.Ok? ==> r.value == ApplyResponse(CubeState(None, None, []), NextResponse(script).value, decode).value.devices
  {
    match NextResponse(script)
    case Err(e) => Err(e)
    case Ok(response) =>
      match ApplyResponse(CubeState(None, None, []), response, decode)
      case Err(e) => Err(e)
      case Ok(st) =>
        ApplyResponsePreserves(CubeState(None, None, []), response, decode);
        Ok(st.devices)
  }

  /** The serials of a device list. */
  function Serials(ds: seq<MaxDevice>): set<string>
    requires WellFormed(ds)
  {
    if ds == [] then {} else Serials(ds[..|ds| - 1]) + {ds[|ds| - 1].serial.value}
  }

  /**
   * The device loop of `refresh_topology` without corrections: every device
   * refreshed in order, the records queued in order, and the first
   * exception ends the loop, leaving the later devices untouched.
   */
  function RefreshAll(t: Table, ds: seq<MaxDevice>, now: int): (s: Step)
    requires WellFormed(ds)
    decreases |ds|
  {
    if ds == [] then Step(t, [], None)
    else
      var p := RefreshAll(t, ds[..|ds| - 1], now);
      if p.error.Some? then p
      else
        var s := RefreshDevice(p.table, ds[|ds| - 1], now);
        Step(s.table, p.published + s.published, s.error)
  }

  /** One more device: the refresh of a list extended at its end. */
  lemma RefreshAllSnoc(t: Table, ds: seq<MaxDevice>, i: nat, now: int)
    requires WellFormed(ds) && i < |ds|
    ensures var p := RefreshAll(t, ds[..i], now);
      RefreshAll(t, ds[..i + 1], now) ==
        if p.error.Some? then p
        else var s := RefreshDevice(p.table, ds[i], now); Step(s.table, p.published + s.published, s.error)
  {
    assert ds[..i + 1][..i] == ds[..i];
  }

  /** Once a device raises, the devices after it change nothing. */
  lemma {:induction false} RefreshAllStops(t: Table, ds: seq<MaxDevice>, k: nat, now: int)
    requires WellFormed(ds) && k <= |ds|
    requires RefreshAll(t, ds[..k], now).error.Some?
    ensures RefreshAll(t, ds, now) == RefreshAll(t, ds[..k], now)
    decreases |ds| - k
  {
    if k < |ds| {
      RefreshAllSnoc(t, ds, k, now);
      RefreshAllStops(t, ds, k + 1, now);
    } else {
      assert ds[..k] == ds;
    }
  }

  /**
   * A refresh of a device list keeps every serial of the topology, adds
   * only the devices' serials and leaves the record of every other serial
   * as it was.
   */
  lemma {:induction false} RefreshAllFrame(t: Table, ds: seq<MaxDevice>, now: int)
    requires WellFormed(ds)
    ensures var s := RefreshAll(t, ds, now);
      && t.Keys <= s.table.Keys <= t.Keys + Serials(ds)
      && forall k :: k in t && k !in Serials(ds) ==> s.table[k] == t[k]
    decreases |ds|
  {
    if ds != [] {
      var front := ds[..|ds| - 1];
      RefreshAllFrame(t, front, now);
      var p := RefreshAll(t, front, now);
      if p.error.None? {
        RefreshDeviceWrites(p.table, ds[|ds| - 1], now);
      }
    }
  }

  /** Without a raise, the topology holds a record for every device of the list. */
  lemma {:induction false} RefreshAllRecords(t: Table, ds: seq<MaxDevice>, now: int)
    requires WellFormed(ds) && RefreshAll(t, ds, now).error.None?
    ensures t.Keys + Serials(ds) == RefreshAll(t, ds, now).table.Keys
    decreases |ds|
  {
    if ds != [] {
      var front := ds[..|ds| - 1];
      RefreshAllRecords(t, front, now);
      RefreshDeviceWrites(RefreshAll(t, front, now).table, ds[|ds| - 1], now);
    }
  }

  /**
   * The sanity check of `refresh_topology` for the thermostat `d`, once its
   * refresh under serial `id` has left the topology `t`: nothing happens
   * unless a correction is due; then the desired temperature goes to the
   * hub over `ch`, and only a reply the cube accepts for a device whose
   * target the topology holds queues records and moves the duty cycle (to
   * the reply's, noted now).
   */
  function Correction(t: Table, ch: Channel, duty: int, reset: int, d: MaxDevice, id: string,
                      desired: map<string, int>, check: bool, now: int): (r: Sweep)
    requires d.Thermostat?
    ensures r.table == t && r.error.None?
    ensures !CorrectionDue(d, id, check, desired) ==> r == Sweep(t, [], None, ch, duty, reset)
    ensures CorrectionDue(d, id, check, desired) ==>
      var payload := TemperaturePayload(d, desired[id]);
      var out := CommandOutcome(payload, ch.script);
      && r.channel == CommandChannel(payload, ch)
      && r.published == CorrectionRecords(out, t, id, now)
      && (r.published != [] ==> Accepted(out) && r.duty == out.value.dutyCycle && r.dutyReset == now)
    ensures r.published == [] ==> r.duty == duty && r.dutyReset == reset
  {
    if !CorrectionDue(d, id, check, desired) then Sweep(t, [], None, ch, duty, reset)
    else
      var payload := TemperaturePayload(d, desired[id]);
      var out := CommandOutcome(payload, ch.script);
      var ms := CorrectionRecords(out, t, id, now);
      Sweep(t, ms, None, CommandChannel(payload, ch),
            if ms != [] then out.value.dutyCycle else duty, if ms != [] then now else reset)
  }

  /**
   * The device loop of `refresh_topology` with its sanity check, as far as
   * it has run: the topology, the records queued, the exception that ended
   * the loop, the hub connection, and the worker's duty-cycle counter and
   * the time of its last reset.
   */
  datatype Sweep = Sweep(table: Table, published: seq<Message>, error: Option<Error>, channel: Channel, duty: int, dutyReset: int)

  /**
   * One pass of the device loop for the thermostat `d`: `update_device`,
   * then, when it did not raise and the correction is due, the desired
   * temperature handed to the cube, which sends it to the hub only when its
   * payload encodes; an accepted reply queues the correction's records and
   * takes the duty-cycle counter from the reply. Every exception
   * of the correction is caught, and the correction never writes the
   * topology. The records are those of this device alone.
   */
  function CheckDevice(t: Table, ch: Channel, duty: int, reset: int, d: MaxDevice,
                       desired: map<string, int>, check: bool, now: int): (r: Sweep)
    requires d.serial.Some? && d.Thermostat?
    ensures var s := RefreshDevice(t, d, now);
      && r.table == s.table && r.error == s.error && s.published <= r.published
      && (s.error.Some? || !CorrectionDue(d, d.serial.value, check, desired) ==>
            r.published == s.published && r.channel == ch && r.duty == duty && r.dutyReset == reset)
  {
    var s := RefreshDevice(t, d, now);
    if s.error.Some? then Sweep(s.table, s.published, s.error, ch, duty, reset)
    else
      var c := Correction(s.table, ch, duty, reset, d, d.serial.value, desired, check, now);
      Sweep(s.table, s.published + c.published, None, c.channel, c.duty, c.dutyReset)
  }

  /**
   * The device loop of `refresh_topology` with its sanity check: every
   * device checked in order, the records queued in order, and the first
   * exception `update_device` raises ends the loop.
   */
  function RefreshChecked(t: Table, ds: seq<MaxDevice>, desired: map<string, int>, check: bool,
                          ch: Channel, duty: int, reset: int, now: int): (s: Sweep)
    requires AllThermostats(ds) && WellFormed(ds)
    decreases |ds|
  {
    if ds == [] then Sweep(t, [], None, ch, duty, reset)
    else
      var p := RefreshChecked(t, ds[..|ds| - 1], desired, check, ch, duty, reset, now);
      if p.error.Some? then p
      else
        var c := CheckDevice(p.table, p.channel, p.duty, p.dutyReset, ds[|ds| - 1], desired, check, now);
        Sweep(c.table, p.published + c.published, c.error, c.channel, c.duty, c.dutyReset)
  }

  /** One more device: the checked refresh of a list extended at its end. */
  lemma RefreshCheckedSnoc(t: Table, ds: seq<MaxDevice>, i: nat, desired: map<string, int>, check: bool,
                           ch: Channel, duty: int, reset: int, now: int)
    requires AllThermostats(ds) && WellFormed(ds) && i < |ds|
    ensures var p := RefreshChecked(t, ds[..i], desired, check, ch, duty, reset, now);
      RefreshChecked(t, ds[..i + 1], desired, check, ch, duty, reset, now) ==
        if p.error.Some? then p
        else
          var c := CheckDevice(p.table, p.channel, p.duty, p.dutyReset, ds[i], desired, check, now);
          Sweep(c.table, p.published + c.published, c.error, c.channel, c.duty, c.dutyReset)
  {
    assert ds[..i + 1][..i] == ds[..i];
  }

  /** Once a device raises, the devices after it change nothing. */
  lemma {:induction false} RefreshCheckedStops(t: Table, ds: seq<MaxDevice>, k: nat, desired: map<string, int>, check: bool,
                                               ch: Channel, duty: int, reset: int, now: int)
    requires AllThermostats(ds) && WellFormed(ds) && k <= |ds|
    requires RefreshChecked(t, ds[..k], desired, check, ch, duty, reset, now).error.Some?
    ensures RefreshChecked(t, ds, desired, check, ch, duty, reset, now) == RefreshChecked(t, ds[..k], desired, check, ch, duty, reset, now)
    decreases |ds| - k
  {
    if k < |ds| {
      RefreshCheckedSnoc(t, ds, k, desired, check, ch, duty, reset, now);
      RefreshCheckedStops(t, ds, k + 1, desired, check, ch, duty, reset, now);
    } else {
      assert ds[..k] == ds;
    }
  }

  /**
   * The checked refresh one device further: up to the device after `i`, or
   * of the whole list once device `i` raises.
   */
  lemma RefreshCheckedNext(t: Table, ds: seq<MaxDevice>, i: nat, desired: map<string, int>, check: bool,
                           ch: Channel, duty: int, reset: int, now: int)
    requires AllThermostats(ds) && WellFormed(ds) && i < |ds|
    requires RefreshChecked(t, ds[..i], desired, check, ch, duty, reset, now).error.None?
    ensures var p := RefreshChecked(t, ds[..i], desired, check, ch, duty, reset, now);
      var c := CheckDevice(p.table, p.channel, p.duty, p.dutyReset, ds[i], desired, check, now);
      RefreshChecked(t, ds[..if c.error.Some? then |ds| else i + 1], desired, check, ch, duty, reset, now)
        == Sweep(c.table, p.published + c.published, c.error, c.channel, c.duty, c.dutyReset)
  {
    RefreshCheckedSnoc(t, ds, i, desired, check, ch, duty, reset, now);
    var p := RefreshChecked(t, ds[..i], desired, check, ch, duty, reset, now);
    var c := CheckDevice(p.table, p.channel, p.duty, p.dutyReset, ds[i], desired, check, now);
    if c.error.Some? {
      assert ds[..|ds|] == ds;
      RefreshCheckedStops(t, ds, i + 1, desired, check, ch, duty, reset, now);
    }
  }

  /**
   * The sanity check never touches the topology: the checked loop leaves
   * the topology the plain loop leaves and stops at the same exception.
   */
  lemma {:induction false} RefreshCheckedTopology(t: Table, ds: seq<MaxDevice>, desired: map<string, int>, check: bool,
                                                  ch: Channel, duty: int, reset: int, now: int)
    requires AllThermostats(ds) && WellFormed(ds)
    ensures var s := RefreshChecked(t, ds, desired, check, ch, duty, reset, now);
      s.table == RefreshAll(t, ds, now).table && s.error == RefreshAll(t, ds, now).error
    decreases |ds|
  {
    if ds != [] {
      RefreshCheckedTopology(t, ds[..|ds| - 1], desired, check, ch, duty, reset, now);
    }
  }

  /**
   * Without the sanity check, or with no desired temperature recorded, the
   * checked loop is the plain one: the same records, no command sent and
   * the duty-cycle counter untouched.
   */
  lemma {:induction false} RefreshCheckedPlain(t: Table, ds: seq<MaxDevice>, desired: map<string, int>, check: bool,
                                               ch: Channel, duty: int, reset: int, now: int)
    requires AllThermostats(ds) && WellFormed(ds) && (!check || desired == map[])
    ensures var s := RefreshChecked(t, ds, desired, check, ch, duty, reset, now);
      && s == Sweep(RefreshAll(t, ds, now).table, RefreshAll(t, ds, now).published, RefreshAll(t, ds, now).error, ch, duty, reset)
    decreases |ds|
  {
    if ds != [] {
      RefreshCheckedPlain(t, ds[..|ds| - 1], desired, check, ch, duty, reset, now);
    }
  }

  /**
   * The try block of `refresh_topology` over a connection: a cube reads the
   * hub's state, which uses up one response; when that state does not
   * parse, the exception is caught and nothing else happens, and otherwise
   * the device loop runs over the devices the hub reported.
   */
  function RefreshPass(t: Table, desired: map<string, int>, check: bool, ch: Channel, duty: int, reset: int,
                       decode: Decoders, now: int): Sweep
  {
    match Discover(ch.script, decode)
    case Err(e) => Sweep(t, [], Some(e), Channel(RestOf(ch.script), ch.sent), duty, reset)
    case Ok(found) => RefreshChecked(t, found, desired, check, Channel(RestOf(ch.script), ch.sent), duty, reset, now)
  }

  /**
   * What a refresh pass does to the topology, with or without corrections:
   * nothing when the hub's state does not parse, otherwise the plain
   * device loop over the devices it reported. Without the sanity check the
   * records are those of the plain loop, nothing is sent and the duty-cycle
   * counter stays as it was.
   */
  lemma RefreshPassTopology(t: Table, desired: map<string, int>, check: bool, ch: Channel, duty: int, reset: int,
                            decode: Decoders, now: int)
    ensures var s := RefreshPass(t, desired, check, ch, duty, reset, decode, now);
      var found := Discover(ch.script, decode);
      && (found.Err? ==>
            s.table == t && s.published == [] && s.channel == Channel(RestOf(ch.script), ch.sent) && s.duty == duty && s.dutyReset == reset)
      && (found.Ok? ==> s.table == RefreshAll(t, found.value, now).table)
      && (found.Ok? && !check ==> s.published == RefreshAll(t, found.value, now).published)
      && (!check ==> s.channel == Channel(RestOf(ch.script), ch.sent) && s.duty == duty && s.dutyReset == reset)
  {
    var found := Discover(ch.script, decode);
    if found.Ok? {
      RefreshCheckedTopology(t, found.value, desired, check, Channel(RestOf(ch.script), ch.sent), duty, reset, now);
      if !check {
        RefreshCheckedPlain(t, found.value, desired, check, Channel(RestOf(ch.script), ch.sent), duty, reset, now);
      }
    }
  }
}
