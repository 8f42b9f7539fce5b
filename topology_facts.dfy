/**
 * What the worker's refresh of one device promises (MaxWorker.py,
 * `update_device` and `update_device_metric`): the diff queues a record
 * exactly when it changes the table, a refresh leaves the device's values
 * in its record and always ends with the six status records, and a second
 * refresh of an unchanged device changes nothing and only republishes.
 */
module TopologyFacts {
  import opened Wrappers
  import opened Device
  import opened Codec
  import opened Topology

  /** The six status records of a stored device record, in publish order. */
  function StatusMessages(rec: Record, id: string, now: int): (ms: seq<Message>)
    ensures |ms| == 6
  {
    [ PrepareOutput(id, ActualTemperature, Get(rec, ActualTemperature), now),
      PrepareOutput(id, TargetTemperature, Get(rec, TargetTemperature), now),
      PrepareOutput(id, LinkOk, Get(rec, LinkOk), now),
      PrepareOutput(id, BatteryOk, Get(rec, BatteryOk), now),
      PrepareOutput(id, ValvePosition, Get(rec, ValvePosition), now),
      PrepareOutput(id, Mode, Get(rec, Mode), now) ]
  }

  /** Every attribute `update_device` reads with `[]` is stored. */
  predicate Publishable(rec: Record)
  {
    TargetTemperature in rec && LinkOk in rec && BatteryOk in rec && ValvePosition in rec && Mode in rec
  }

  /** Two records agree on an attribute: both lack it, or both hold the same value. */
  predicate Agree(a: Record, b: Record, p: Attr)
  {
    (p in a <==> p in b) && Get(a, p) == Get(b, p)
  }

  /** A record holds `v` under `p`. */
  predicate Holds(rec: Record, p: Attr, v: Value)
  {
    p in rec && rec[p] == v
  }

  /** The identity fields `update_device` stores for a device, whatever else happens. */
  predicate IdentityStored(rec: Record, d: MaxDevice)
  {
    && Holds(rec, RfAddress, TextValue(d.rfAddress)) && Holds(rec, Name, TextValue(d.name))
    && Holds(rec, RoomId, NumberValue(d.roomId)) && Holds(rec, RoomName, TextValue(d.roomName))
  }

  /** What `update_device` stores once the device's type is named. */
  predicate NamedStored(rec: Record, d: MaxDevice, typeName: Option<string>, id: string)
  {
    && Holds(rec, DeviceType, TextValue(typeName)) && Holds(rec, Serial, Text(id))
    && Get(rec, LinkOk) == FlagValue(d.linkOk) && Get(rec, BatteryOk) == FlagValue(d.batteryOk)
  }

  /**
   * What the thermostat part stores: the mode name, the device's target and
   * valve position, and its actual temperature when that is truthy.
   */
  predicate ThermostatStored(rec: Record, d: MaxDevice, modeName: Option<string>)
    requires d.Thermostat?
  {
    && Holds(rec, Mode, TextValue(modeName))
    && Get(rec, TargetTemperature) == NumberValue(d.targetTemperature)
    && Get(rec, ValvePosition) == NumberValue(d.valvePosition)
    && (Truthy(d.actualTemperature) ==> Get(rec, ActualTemperature) == NumberValue(d.actualTemperature))
  }

  /** Records that agree outside the thermostat attributes store the same identity. */
  lemma StoredTransfer(a: Record, b: Record, d: MaxDevice, typeName: Option<string>, id: string)
    requires forall p :: !ThermostatOnly(p) ==> Agree(a, b, p)
    requires IdentityStored(b, d) && NamedStored(b, d, typeName, id)
    ensures IdentityStored(a, d) && NamedStored(a, d, typeName, id)
  {
    assert Agree(a, b, RfAddress) && Agree(a, b, Name) && Agree(a, b, RoomId) && Agree(a, b, RoomName);
    assert Agree(a, b, DeviceType) && Agree(a, b, Serial) && Agree(a, b, LinkOk) && Agree(a, b, BatteryOk);
  }

  // ------------------------------------------------------------------ diff

  /**
   * `update_device_metric` on a record queues a record exactly when it
   * changes the stored record: one record carrying the device's value, which
   * the record then holds; no other attribute changes.
   */
  lemma MetricOnEffect(rec: Record, id: string, d: MaxDevice, param: Attr, now: int)
    ensures var r := MetricOn(rec, id, d, param, now);
      && |r.1| <= 1
      && (r.1 == [] <==> r.0 == rec)
      && (r.1 != [] ==> Attribute(d, param).Ok? && Get(rec, param) != Attribute(d, param).value
                        && r.1 == [PrepareOutput(id, param, Attribute(d, param).value, now)])
      && (Attribute(d, param).Ok? ==> Get(r.0, param) == Attribute(d, param).value)
      && (r.0 == rec || (Attribute(d, param).Ok? && r.0 == rec[param := Attribute(d, param).value]))
  {
    MetricOnShape(rec, id, d, param, now);
    var r := MetricOn(rec, id, d, param, now);
    if r.1 != [] {
      assert Get(r.0, param) != Get(rec, param);
    }
  }

  /** A diff whose stored value already equals the device's changes nothing and queues nothing. */
  lemma MetricOnSilent(rec: Record, id: string, d: MaxDevice, param: Attr, now: int)
    requires Attribute(d, param).Ok? && Get(rec, param) == Attribute(d, param).value
    ensures MetricOn(rec, id, d, param, now) == (rec, [])
  {
  }

  /**
   * The diff either leaves the record or stores the device's value under its
   * attribute: the last two facts of `MetricOnEffect`, on their own, so that
   * the proofs about whole write blocks, which chain several diffs, stay
   * cheap.
   */
  lemma MetricOnShape(rec: Record, id: string, d: MaxDevice, param: Attr, now: int)
    ensures var r := MetricOn(rec, id, d, param, now);
      && (Attribute(d, param).Ok? ==> Get(r.0, param) == Attribute(d, param).value)
      && (r.0 == rec || (Attribute(d, param).Ok? && r.0 == rec[param := Attribute(d, param).value]))
  {
  }

  /**
   * `update_device_metric` on the topology: it queues a record exactly when
   * it changes the topology, and then only the device's record changes, to
   * hold the device's value.
   */
  lemma MetricEffect(t: Table, id: string, d: MaxDevice, param: Attr, now: int)
    ensures var r := Metric(t, id, d, param, now);
      && |r.1| <= 1
      && (r.1 == [] <==> r.0 == t)
      && (r.1 != [] ==> id in t && Attribute(d, param).Ok? && Get(t[id], param) != Attribute(d, param).value
                        && r.1 == [PrepareOutput(id, param, Attribute(d, param).value, now)]
                        && r.0 == t[id := t[id][param := Attribute(d, param).value]])
  {
    if id in t {
      MetricOnEffect(t[id], id, d, param, now);
      var m := MetricOn(t[id], id, d, param, now);
      if m.1 != [] {
        assert t[id := m.0][id] != t[id];
      }
    }
  }

  /** The diff is idempotent: run again on its own result it queues nothing and changes nothing. */
  lemma MetricIdempotent(t: Table, id: string, d: MaxDevice, param: Attr, now: int, later: int)
    ensures Metric(Metric(t, id, d, param, now).0, id, d, param, later) == (Metric(t, id, d, param, now).0, [])
  {
    if id in t {
      var t1 := Metric(t, id, d, param, now).0;
      MetricOnEffect(t[id], id, d, param, now);
      MetricOnEffect(t1[id], id, d, param, later);
      assert MetricOn(t1[id], id, d, param, later) == (t1[id], []);
      assert t1[id := t1[id]] == t1;
    }
  }

  // ------------------------------------------------------ the status records

  /**
   * The end of `update_device`: when the five attributes read with `[]` are
   * stored it queues the six status records; otherwise it raises KeyError.
   */
  lemma PublishShape(rec: Record, id: string, published: seq<Message>, now: int)
    ensures var r := Publish(rec, id, published, now);
      && r.record == rec
      && (r.error.None? <==> Publishable(rec))
      && (r.error.Some? ==> r.error == Some(KeyError))
      && (r.error.None? ==> r.published == published + StatusMessages(rec, id, now))
  {
    if Publishable(rec) {
      var r := Publish(rec, id, published, now);
      assert r.published == published + StatusMessages(rec, id, now);
    }
  }

  /** The status records are appended to whatever was queued before them. */
  lemma PublishAppends(rec: Record, id: string, published: seq<Message>, now: int)
    ensures var r := Publish(rec, id, [], now);
      Publish(rec, id, published, now) == Refresh(rec, published + r.published, r.error)
  {
    var m0 := [PrepareOutput(id, ActualTemperature, Get(rec, ActualTemperature), now)];
    assert published + m0 == published + ([] + m0);
    if TargetTemperature in rec {
      var m1 := [PrepareOutput(id, TargetTemperature, rec[TargetTemperature], now)];
      assert published + m0 + m1 == published + ([] + m0 + m1);
      if LinkOk in rec {
        var m2 := [PrepareOutput(id, LinkOk, rec[LinkOk], now)];
        assert published + m0 + m1 + m2 == published + ([] + m0 + m1 + m2);
        if BatteryOk in rec {
          var m3 := [PrepareOutput(id, BatteryOk, rec[BatteryOk], now)];
          assert published + m0 + m1 + m2 + m3 == published + ([] + m0 + m1 + m2 + m3);
          if ValvePosition in rec {
            var m4 := [PrepareOutput(id, ValvePosition, rec[ValvePosition], now)];
            assert published + m0 + m1 + m2 + m3 + m4 == published + ([] + m0 + m1 + m2 + m3 + m4);
            if Mode in rec {
              var m5 := [PrepareOutput(id, Mode, rec[Mode], now)];
              assert published + m0 + m1 + m2 + m3 + m4 + m5 == published + ([] + m0 + m1 + m2 + m3 + m4 + m5);
            }
          }
        }
      }
    }
  }


  // ------------------------------------------------------- the thermostat part

  /** The thermostat writes leave every other attribute as it was. */
  lemma ThermostatWritesFrame(rec: Record, id: string, d: MaxDevice, modeName: Option<string>, now: int)
    requires d.Thermostat?
    ensures var w := ThermostatWrites(rec, id, d, modeName, now);
      forall p :: !ThermostatOnly(p) ==> Agree(w.0, rec, p)
  {
    var r4 := rec[Mode := TextValue(modeName)];
    MetricOnShape(r4, id, d, ActualTemperature, now);
    var r5 := if Truthy(d.actualTemperature) then MetricOn(r4, id, d, ActualTemperature, now) else (r4, []);
    MetricOnShape(r5.0, id, d, TargetTemperature, now);
    var r6 := MetricOn(r5.0, id, d, TargetTemperature, now);
    MetricOnShape(r6.0, id, d, ValvePosition, now);
  }

  /** A falsy actual temperature (None or 0) is not written: the stored one stays. */
  lemma ThermostatWritesActualKept(rec: Record, id: string, d: MaxDevice, modeName: Option<string>, now: int)
    requires d.Thermostat? && !Truthy(d.actualTemperature)
    ensures Get(ThermostatWrites(rec, id, d, modeName, now).0, ActualTemperature) == Get(rec, ActualTemperature)
  {
    var r4 := rec[Mode := TextValue(modeName)];
    MetricOnShape(r4, id, d, TargetTemperature, now);
    var r6 := MetricOn(r4, id, d, TargetTemperature, now);
    MetricOnShape(r6.0, id, d, ValvePosition, now);
  }

  /**
   * The thermostat writes store the mode name, and the device's target and
   * valve position; the actual temperature is the device's when it is
   * truthy and otherwise stays as it was.
   */
  lemma ThermostatWritesValues(rec: Record, id: string, d: MaxDevice, modeName: Option<string>, now: int)
    requires d.Thermostat?
    ensures var w := ThermostatWrites(rec, id, d, modeName, now);
      ThermostatStored(w.0, d, modeName)
  {
    var r4 := rec[Mode := TextValue(modeName)];
    MetricOnShape(r4, id, d, ActualTemperature, now);
    var r5 := if Truthy(d.actualTemperature) then MetricOn(r4, id, d, ActualTemperature, now) else (r4, []);
    MetricOnShape(r5.0, id, d, TargetTemperature, now);
    var r6 := MetricOn(r5.0, id, d, TargetTemperature, now);
    MetricOnShape(r6.0, id, d, ValvePosition, now);
  }

  /** Once the type is named, a refresh stores the identity fields, the type name, the serial and the link and battery state. */
  lemma CommonWritesStored(rec: Record, id: string, d: MaxDevice, typeName: Option<string>, now: int)
    ensures var c := CommonWrites(rec, id, d, typeName, now);
      IdentityStored(c.0, d) && NamedStored(c.0, d, typeName, id)
  {
    var r1 := WithIdentity(rec, d)[DeviceType := TextValue(typeName)][Serial := Text(id)];
    MetricOnShape(r1, id, d, LinkOk, now);
    var r2 := MetricOn(r1, id, d, LinkOk, now);
    MetricOnShape(r2.0, id, d, BatteryOk, now);
  }

  /** The writes before the thermostat part leave the thermostat attributes as they were. */
  lemma CommonWritesFrame(rec: Record, id: string, d: MaxDevice, typeName: Option<string>, now: int)
    ensures var c := CommonWrites(rec, id, d, typeName, now);
      forall p :: ThermostatOnly(p) ==> Agree(c.0, rec, p)
  {
    var r1 := WithIdentity(rec, d)[DeviceType := TextValue(typeName)][Serial := Text(id)];
    MetricOnShape(r1, id, d, LinkOk, now);
    var r2 := MetricOn(r1, id, d, LinkOk, now);
    MetricOnShape(r2.0, id, d, BatteryOk, now);
  }

  // ------------------------------------------------------------ one refresh

  /** The record a refresh ends with: the common writes, then the thermostat writes if they ran. */
  lemma RefreshRecordShape(rec: Record, id: string, d: MaxDevice, now: int)
    requires DeviceTypeName(d).Ok?
    ensures var c := CommonWrites(rec, id, d, DeviceTypeName(d).value, now);
      var r := RefreshRecord(rec, id, d, now);
      && (IsThermostatType(d.devType) && d.Thermostat? && DeviceModeName(d).Ok? ==>
            r.record == ThermostatWrites(c.0, id, d, DeviceModeName(d).value, now).0)
      && (!(IsThermostatType(d.devType) && d.Thermostat? && DeviceModeName(d).Ok?) ==> r.record == c.0)
  {
    var c := CommonWrites(rec, id, d, DeviceTypeName(d).value, now);
    if !IsThermostatType(d.devType) {
      PublishShape(c.0, id, c.1, now);
    } else if d.Thermostat? && DeviceModeName(d).Ok? {
      var w := ThermostatWrites(c.0, id, d, DeviceModeName(d).value, now);
      PublishShape(w.0, id, c.1 + w.1, now);
    }
  }

  /**
   * After `update_device` the device's record holds the identity fields the
   * device carries, and, once the type is named, its type name, its serial
   * and its link and battery state.
   */
  lemma RefreshRecordIdentity(rec: Record, id: string, d: MaxDevice, now: int)
    ensures var r := RefreshRecord(rec, id, d, now);
      && IdentityStored(r.record, d)
      && (DeviceTypeName(d).Ok? ==> NamedStored(r.record, d, DeviceTypeName(d).value, id))
  {
    if DeviceTypeName(d).Ok? {
      var typeName := DeviceTypeName(d).value;
      var c := CommonWrites(rec, id, d, typeName, now);
      CommonWritesStored(rec, id, d, typeName, now);
      RefreshRecordShape(rec, id, d, now);
      if IsThermostatType(d.devType) && d.Thermostat? && DeviceModeName(d).Ok? {
        ThermostatWritesFrame(c.0, id, d, DeviceModeName(d).value, now);
        StoredTransfer(ThermostatWrites(c.0, id, d, DeviceModeName(d).value, now).0, c.0, d, typeName, id);
      }
    }
  }

  /**
   * A thermostat's refresh stores the mode name and the device's target and
   * valve position; a falsy actual temperature (None or 0) leaves the stored
   * one as it was before the refresh.
   */
  lemma RefreshRecordThermostat(rec: Record, id: string, d: MaxDevice, now: int)
    requires d.Thermostat? && IsThermostatType(d.devType) && DeviceTypeName(d).Ok? && DeviceModeName(d).Ok?
    ensures var r := RefreshRecord(rec, id, d, now);
      && ThermostatStored(r.record, d, DeviceModeName(d).value)
      && (!Truthy(d.actualTemperature) ==> Get(r.record, ActualTemperature) == Get(rec, ActualTemperature))
  {
    var c := CommonWrites(rec, id, d, DeviceTypeName(d).value, now);
    CommonWritesFrame(rec, id, d, DeviceTypeName(d).value, now);
    assert Agree(c.0, rec, ActualTemperature);
    RefreshRecordShape(rec, id, d, now);
    ThermostatWritesValues(c.0, id, d, DeviceModeName(d).value, now);
    if !Truthy(d.actualTemperature) {
      ThermostatWritesActualKept(c.0, id, d, DeviceModeName(d).value, now);
    }
  }

  /**
   * A refresh completes exactly when neither name raises and every
   * attribute read with `[]` is stored, and it then ends with the six status
   * records of the stored values; otherwise it raises that name's exception
   * or KeyError.
   */
  lemma RefreshRecordOutcome(rec: Record, id: string, d: MaxDevice, now: int)
    ensures var r := RefreshRecord(rec, id, d, now);
      && (r.error.None? <==>
            && DeviceTypeName(d).Ok?
            && (IsThermostatType(d.devType) ==> d.Thermostat? && DeviceModeName(d).Ok?)
            && Publishable(r.record))
      && (r.error.None? ==> |r.published| >= 6 && r.published[|r.published| - 6..] == StatusMessages(r.record, id, now))
      && (r.error.Some? && DeviceTypeName(d).Ok? && (IsThermostatType(d.devType) ==> d.Thermostat? && DeviceModeName(d).Ok?)
          ==> r.error == Some(KeyError))
  {
    if DeviceTypeName(d).Ok? {
      var c := CommonWrites(rec, id, d, DeviceTypeName(d).value, now);
      if !IsThermostatType(d.devType) {
        PublishShape(c.0, id, c.1, now);
      } else if d.Thermostat? && DeviceModeName(d).Ok? {
        var w := ThermostatWrites(c.0, id, d, DeviceModeName(d).value, now);
        PublishShape(w.0, id, c.1 + w.1, now);
      }
    }
  }

  // ------------------------------------------------------- a second refresh

  /** With the identity, type, serial, link and battery state already stored, the common writes change nothing. */
  lemma CommonWritesSilent(rec: Record, id: string, d: MaxDevice, typeName: Option<string>, now: int)
    requires IdentityStored(rec, d) && NamedStored(rec, d, typeName, id)
    ensures CommonWrites(rec, id, d, typeName, now) == (rec, [])
  {
    var r1 := WithIdentity(rec, d)[DeviceType := TextValue(typeName)][Serial := Text(id)];
    assert r1 == rec;
    assert Attribute(d, LinkOk) == Ok(FlagValue(d.linkOk));
    assert Attribute(d, BatteryOk) == Ok(FlagValue(d.batteryOk));
    MetricOnSilent(rec, id, d, LinkOk, now);
    MetricOnSilent(rec, id, d, BatteryOk, now);
    var r2 := MetricOn(r1, id, d, LinkOk, now);
    assert r2 == (rec, []);
    var r3 := MetricOn(r2.0, id, d, BatteryOk, now);
    assert r3 == (rec, []);
    assert r2.1 + r3.1 == [];
  }

  /** With the thermostat values already stored, the thermostat writes change nothing. */
  lemma ThermostatWritesSilent(rec: Record, id: string, d: MaxDevice, modeName: Option<string>, now: int)
    requires d.Thermostat? && ThermostatStored(rec, d, modeName)
    ensures ThermostatWrites(rec, id, d, modeName, now) == (rec, [])
  {
    var r4 := rec[Mode := TextValue(modeName)];
    assert r4 == rec;
    if Truthy(d.actualTemperature) {
      MetricOnSilent(rec, id, d, ActualTemperature, now);
    }
    var r5 := if Truthy(d.actualTemperature) then MetricOn(r4, id, d, ActualTemperature, now) else (r4, []);
    assert r5 == (rec, []);
    MetricOnSilent(rec, id, d, TargetTemperature, now);
    var r6 := MetricOn(r5.0, id, d, TargetTemperature, now);
    assert r6 == (rec, []);
    MetricOnSilent(rec, id, d, ValvePosition, now);
    var r7 := MetricOn(r6.0, id, d, ValvePosition, now);
    assert r7 == (rec, []);
    assert r5.1 + r6.1 + r7.1 == [];
  }

  /**
   * A refresh of a record that already stores everything the device
   * carries changes nothing and queues only the six status records.
   */
  lemma RefreshRecordSilent(rec: Record, id: string, d: MaxDevice, now: int)
    requires DeviceTypeName(d).Ok? && IdentityStored(rec, d) && NamedStored(rec, d, DeviceTypeName(d).value, id)
    requires IsThermostatType(d.devType) ==>
               d.Thermostat? && DeviceModeName(d).Ok? && ThermostatStored(rec, d, DeviceModeName(d).value)
    requires Publishable(rec)
    ensures RefreshRecord(rec, id, d, now) == Refresh(rec, StatusMessages(rec, id, now), None)
  {
    CommonWritesSilent(rec, id, d, DeviceTypeName(d).value, now);
    if IsThermostatType(d.devType) {
      ThermostatWritesSilent(rec, id, d, DeviceModeName(d).value, now);
    }
    PublishShape(rec, id, [], now);
  }

  /**
   * Only the diff is idempotent: refreshing a device again with the same
   * values, on the record its first refresh left, changes nothing and
   * queues exactly the six status records again.
   */
  lemma RefreshRecordStable(rec: Record, id: string, d: MaxDevice, now: int, later: int)
    requires RefreshRecord(rec, id, d, now).error.None?
    ensures var first := RefreshRecord(rec, id, d, now).record;
      RefreshRecord(first, id, d, later) == Refresh(first, StatusMessages(first, id, later), None)
  {
    var first := RefreshRecord(rec, id, d, now).record;
    RefreshRecordIdentity(rec, id, d, now);
    RefreshRecordOutcome(rec, id, d, now);
    if IsThermostatType(d.devType) {
      RefreshRecordThermostat(rec, id, d, now);
    }
    RefreshRecordSilent(first, id, d, later);
  }

  /** A valve position the device does not have is never stored by the thermostat writes. */
  lemma ThermostatWritesNoValve(rec: Record, id: string, d: MaxDevice, modeName: Option<string>, now: int)
    requires d.Thermostat? && d.valvePosition == None && ValvePosition !in rec
    ensures ValvePosition !in ThermostatWrites(rec, id, d, modeName, now).0
  {
    var r4 := rec[Mode := TextValue(modeName)];
    MetricOnShape(r4, id, d, ActualTemperature, now);
    var r5 := if Truthy(d.actualTemperature) then MetricOn(r4, id, d, ActualTemperature, now) else (r4, []);
    MetricOnShape(r5.0, id, d, TargetTemperature, now);
  }

  // ------------------------------------------------------------ the topology

  /** The record a device's refresh starts from: its own, or an empty one for a new serial. */
  function Before(t: Table, id: string): Record
  {
    if id in t then t[id] else map[]
  }

  /**
   * `update_device` writes only the device's own record, creating it for a
   * new serial; that record then stores the device's identity and, once the
   * names are known, its type, serial, link, battery and thermostat values,
   * with a falsy actual temperature leaving the old one in place.
   */
  lemma RefreshDeviceWrites(t: Table, d: MaxDevice, now: int)
    requires d.serial.Some?
    ensures var s := RefreshDevice(t, d, now); var id := d.serial.value;
      && s.table.Keys == t.Keys + {id}
      && (forall k :: k in t && k != id ==> s.table[k] == t[k])
      && IdentityStored(s.table[id], d)
      && (DeviceTypeName(d).Ok? ==> NamedStored(s.table[id], d, DeviceTypeName(d).value, id))
      && (d.Thermostat? && IsThermostatType(d.devType) && DeviceTypeName(d).Ok? && DeviceModeName(d).Ok? ==>
            && ThermostatStored(s.table[id], d, DeviceModeName(d).value)
            && (!Truthy(d.actualTemperature) ==> Get(s.table[id], ActualTemperature) == Get(Before(t, id), ActualTemperature)))
  {
    var id := d.serial.value;
    var r := RefreshRecord(Before(t, id), id, d, now);
    assert RefreshDevice(t, d, now).table == t[id := r.record];
    RefreshRecordIdentity(Before(t, id), id, d, now);
    if d.Thermostat? && IsThermostatType(d.devType) && DeviceTypeName(d).Ok? && DeviceModeName(d).Ok? {
      RefreshRecordThermostat(Before(t, id), id, d, now);
    }
  }

  /**
   * `update_device` returns normally exactly when neither name raises and
   * the record stores every attribute read with `[]`; it then has queued
   * the six status records last. Otherwise it raises, KeyError when both
   * names were known.
   */
  lemma RefreshDeviceOutcome(t: Table, d: MaxDevice, now: int)
    requires d.serial.Some?
    ensures var s := RefreshDevice(t, d, now); var id := d.serial.value;
      && (s.error.None? <==>
            && DeviceTypeName(d).Ok?
            && (IsThermostatType(d.devType) ==> d.Thermostat? && DeviceModeName(d).Ok?)
            && Publishable(s.table[id]))
      && (s.error.None? ==> |s.published| >= 6 && s.published[|s.published| - 6..] == StatusMessages(s.table[id], id, now))
      && (s.error.Some? && DeviceTypeName(d).Ok? && (IsThermostatType(d.devType) ==> d.Thermostat? && DeviceModeName(d).Ok?)
          ==> s.error == Some(KeyError))
  {
    RefreshRecordOutcome(Before(t, d.serial.value), d.serial.value, d, now);
  }

  /**
   * Refreshing an unchanged device a second time leaves the topology as the
   * first refresh left it and queues only the six status records.
   */
  lemma RefreshDeviceStable(t: Table, d: MaxDevice, now: int, later: int)
    requires d.serial.Some? && RefreshDevice(t, d, now).error.None?
    ensures var first := RefreshDevice(t, d, now).table;
      RefreshDevice(first, d, later) == Step(first, StatusMessages(first[d.serial.value], d.serial.value, later), None)
  {
    var id := d.serial.value;
    var r := RefreshRecord(Before(t, id), id, d, now);
    var first := RefreshDevice(t, d, now).table;
    assert first == t[id := r.record];
    var again := RefreshRecord(r.record, id, d, later);
    assert again == Refresh(r.record, StatusMessages(r.record, id, later), None) by {
      RefreshRecordStable(Before(t, id), id, d, now, later);
    }
    assert RefreshDevice(first, d, later) == Step(first[id := again.record], again.published, again.error);
    assert first[id := r.record] == first by { Overwrite(t, id, r.record, r.record); }
  }

  /**
   * A wall thermostat has no valve position, so on its first refresh (a
   * serial the topology does not hold yet) the valve is never stored and
   * reading it with `[]` raises KeyError.
   */
  lemma RefreshDeviceNewWallThermostat(t: Table, d: MaxDevice, now: int)
    requires d.Thermostat? && d.devType == Some(WallThermostatType) && d.valvePosition == None
    requires d.mode.Some? && 0 <= d.mode.value < 4
    requires d.serial.Some? && d.serial.value !in t
    ensures RefreshDevice(t, d, now).error == Some(KeyError)
    ensures ValvePosition !in RefreshDevice(t, d, now).table[d.serial.value]
  {
    var id := d.serial.value;
    DeviceTypeNameKnown(d);
    DeviceModeNameKnown(d);
    var typeName := DeviceTypeName(d).value;
    var c := CommonWrites(map[], id, d, typeName, now);
    CommonWritesFrame(map[], id, d, typeName, now);
    assert Agree(c.0, map[], ValvePosition);
    ThermostatWritesNoValve(c.0, id, d, DeviceModeName(d).value, now);
    RefreshRecordShape(map[], id, d, now);
    RefreshRecordOutcome(map[], id, d, now);
  }

  /** `update_device_metric` on a table whose device record is `x` works on `x` alone. */
  lemma MetricAt(t: Table, id: string, x: Record, d: MaxDevice, param: Attr, now: int)
    ensures var m := MetricOn(x, id, d, param, now);
      Metric(t[id := x], id, d, param, now) == (t[id := m.0], m.1)
  {
    var m := MetricOn(x, id, d, param, now);
    assert t[id := x][id := m.0] == t[id := m.0];
  }

  /** Records queued before the thermostat part stay in front of everything it queues. */
  lemma ThermostatMetricsAppends(rec: Record, id: string, d: MaxDevice, pre: seq<Message>, published: seq<Message>, now: int)
    ensures var r := ThermostatMetrics(rec, id, d, published, now);
      ThermostatMetrics(rec, id, d, pre + published, now) == Refresh(r.record, pre + r.published, r.error)
  {
    if !IsThermostatType(d.devType) {
      PublishAppends(rec, id, pre + published, now);
      PublishAppends(rec, id, published, now);
      ConcatAssoc(pre, published, Publish(rec, id, [], now).published);
    } else if d.Thermostat? && DeviceModeName(d).Ok? {
      var w := ThermostatWrites(rec, id, d, DeviceModeName(d).value, now);
      PublishAppends(w.0, id, pre + published + w.1, now);
      PublishAppends(w.0, id, published + w.1, now);
      ConcatAssoc(pre, published, w.1);
      ConcatAssoc(pre, published + w.1, Publish(w.0, id, [], now).published);
    }
  }

  lemma ConcatAssoc<T>(a: seq<T>, b: seq<T>, c: seq<T>)
    ensures a + b + c == a + (b + c)
  {
  }

  /** Being a prefix is transitive. */
  lemma PrefixTrans<T>(a: seq<T>, b: seq<T>, c: seq<T>)
    requires a <= b && b <= c
    ensures a <= c
  {
  }

  /** A second write to the same key replaces the first. */
  lemma Overwrite<K, V>(m: map<K, V>, k: K, a: V, b: V)
    ensures m[k := a][k := b] == m[k := b]
  {
  }
}
