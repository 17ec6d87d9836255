/** A handshake as bytes, written out by hand from Messaging.proto. */
module HandshakeBytes {
  import opened Wire
  import opened Schema
  import opened Codec
  import opened HandshakeBuilder
  import opened HandshakeFidelity
  import opened Layout

  /** The value of an event is written even when it is zero. */
  function EventValueBytes(events: map<Bytes, Int32>): (Bytes, nat) -> Bytes {
    (name, i) => if name in events then Enum(0x10, events[name]) else []
  }

  function SensorValueBytes(sensors: map<Bytes, seq<Int32>>): (Bytes, nat) -> Bytes {
    (name, i) => if name in sensors then Delimited(0x12, Enums(0x0A, sensors[name])) else []
  }

  /** A robot, with its events and sensors in the orders in which the maps are iterated. */
  function RobotBytes(o: RobotV, path: seq<nat>, ord: Order): Bytes {
    Each(0x0A, o.controls) + Enums(0x12, o.jointSensors)
    + Entries(0x1A, ord(path + [3], EventEntries(o.events)), EventValueBytes(o.events))
    + Entries(0x22, ord(path + [4], SensorEntries(o.sensors)), SensorValueBytes(o.sensors))
    + Enums(0x32, o.objectSensors) + Each(0x3A, o.joints) + Enums(0x42, o.controlTypes)
  }

  function RobotValueBytes(objects: map<Bytes, RobotV>, ord: Order): (Bytes, nat) -> Bytes {
    (name, i) => if name in objects then Delimited(0x12, RobotBytes(objects[name], [4, i], ord)) else []
  }

  /** The whole message: type 1, version 1, the control type, the robots, and the time step if it is set. */
  function MessageBytes(m: MessageV, ord: Order): Bytes {
    [0x08, 1, 0x10, 1] + EnumUnlessZero(0x18, m.controlType)
    + Entries(0x22, ord([4], RobotEntries(m.objects)), RobotValueBytes(m.objects, ord))
    + if m.timeStep.Some? then Delimited(0x2A, DoubleUnlessZero(0x09, m.timeStep.value)) else []
  }

  // ---------------------------------------------------------------- that is what the serializer writes

  lemma EventsWritten(events: map<Bytes, Int32>, path: seq<nat>, ord: Order)
    ensures ValuesAre(IntValue, EventEntries(events), path, ord, EventValueBytes(events))
  {
    hide PutRecord, Enum;
    forall name, i: nat | name in events
      ensures PutRecords(ValRecords(IntField, 2, VInt(events[name]), path + [i], ord)) == Enum(0x10, events[name])
    {
      var r := Record(2, Varint(SignExtend(events[name])));
      assert ValRecords(IntField, 2, VInt(events[name]), path + [i], ord) == [r];
      OneRecord(r);
      VarintRecord(2, events[name]);
    }
  }

  lemma SensorsWritten(sensors: map<Bytes, seq<Int32>>, path: seq<nat>, ord: Order)
    ensures ValuesAre(MessageValue(HandshakeSensors), SensorEntries(sensors), path, ord, SensorValueBytes(sensors))
  {
    hide SerializeAt, PutRecord, Delimited, Enums, Store, FieldOf;
    SensorsField();
    forall name, i: nat | name in sensors
      ensures var v := VMsg(SensorsMsg(sensors[name]));
              PutRecords(ValRecords(MessageField(HandshakeSensors), 2, v, path + [i], ord))
              == Delimited(0x12, Enums(0x0A, sensors[name]))
    {
      OneList(HandshakeSensors, sensors[name], path + [i], ord);
      LenRecord(2, Enums(0x0A, sensors[name]));
      OneRecord(Record(2, Len(Enums(0x0A, sensors[name]))));
    }
  }

  lemma SensorsField()
    ensures FieldOf(HandshakeSensors, 1) == Some(PackedInts)
  {
  }

  lemma RobotHolds(o: RobotV)
    ensures var m := RobotMsg(o);
            && Holds(m, 1, VStrings(o.controls)) && Holds(m, 2, VInts(o.jointSensors))
            && Holds(m, 3, VMap(EventEntries(o.events))) && Holds(m, 4, VMap(SensorEntries(o.sensors)))
            && Holds(m, 6, VInts(o.objectSensors)) && Holds(m, 7, VStrings(o.joints))
            && Holds(m, 8, VInts(o.controlTypes))
            && m.unknown == [] && m.fields.Keys <= {1, 2, 3, 4, 6, 7, 8}
  {
    hide EventEntries, SensorEntries, Store, Holds, IsDefault;
    var m := EMPTY;
    Stored(m, 1, VStrings(o.controls));
    m := Store(m, 1, VStrings(o.controls));
    Stored(m, 8, VInts(o.controlTypes));
    m := Store(m, 8, VInts(o.controlTypes));
    Stored(m, 7, VStrings(o.joints));
    m := Store(m, 7, VStrings(o.joints));
    Stored(m, 2, VInts(o.jointSensors));
    m := Store(m, 2, VInts(o.jointSensors));
    Stored(m, 6, VInts(o.objectSensors));
    m := Store(m, 6, VInts(o.objectSensors));
    Stored(m, 3, VMap(EventEntries(o.events)));
    m := Store(m, 3, VMap(EventEntries(o.events)));
    Stored(m, 4, VMap(SensorEntries(o.sensors)));
  }

  lemma RobotFields()
    ensures FieldOf(HandshakeObject, 1) == Some(Strings) && FieldOf(HandshakeObject, 7) == Some(Strings)
    ensures forall n | n in {2, 6, 8} :: FieldOf(HandshakeObject, n) == Some(PackedInts)
    ensures FieldOf(HandshakeObject, 3) == Some(MapField(IntValue))
    ensures FieldOf(HandshakeObject, 4) == Some(MapField(MessageValue(HandshakeSensors)))
  {
  }

  lemma LowerHalfWritten(o: RobotV, path: seq<nat>, ord: Order)
    ensures var m := RobotMsg(o);
            BytesFrom(HandshakeObject, 1, m, path, ord)
            == Each(0x0A, o.controls) + Enums(0x12, o.jointSensors)
               + Entries(0x1A, ord(path + [3], EventEntries(o.events)), EventValueBytes(o.events))
               + BytesFrom(HandshakeObject, 4, m, path, ord)
  {
    hide RobotMsg, EventEntries, SensorEntries, FieldBytes, BytesFrom, IsDefault, Holds, Each, Enums, ValuesAre,
         EventValueBytes, Entries, FieldOf;
    var m := RobotMsg(o);
    RobotHolds(o);
    RobotFields();
    NextField(HandshakeObject, 1, m, path, ord);
    StringListBytes(HandshakeObject, 1, m, o.controls, path, ord);
    NextField(HandshakeObject, 2, m, path, ord);
    PackedIntsBytes(HandshakeObject, 2, m, o.jointSensors, path, ord);
    NextField(HandshakeObject, 3, m, path, ord);
    EventsWritten(o.events, path + [3], ord);
    MapBytes(HandshakeObject, 3, m, IntValue, EventEntries(o.events), path, ord, EventValueBytes(o.events));
  }

  lemma RobotWritten(o: RobotV, path: seq<nat>, ord: Order)
    ensures SerializeAt(HandshakeObject, RobotMsg(o), path, ord) == RobotBytes(o, path, ord)
  {
    hide RobotMsg, EventEntries, SensorEntries, FieldBytes, BytesFrom, IsDefault, Holds, Each, Enums, ValuesAre,
         EventValueBytes, SensorValueBytes, Entries, FieldOf, SerializeAt;
    var m := RobotMsg(o);
    RobotHolds(o);
    RobotFields();
    Whole(HandshakeObject, m, path, ord);
    LowerHalfWritten(o, path, ord);
    NextField(HandshakeObject, 4, m, path, ord);
    SensorsWritten(o.sensors, path + [4], ord);
    MapBytes(HandshakeObject, 4, m, MessageValue(HandshakeSensors), SensorEntries(o.sensors), path, ord,
             SensorValueBytes(o.sensors));
    SkipField(HandshakeObject, 5, m, path, ord);
    NextField(HandshakeObject, 6, m, path, ord);
    PackedIntsBytes(HandshakeObject, 6, m, o.objectSensors, path, ord);
    NextField(HandshakeObject, 7, m, path, ord);
    StringListBytes(HandshakeObject, 7, m, o.joints, path, ord);
    NextField(HandshakeObject, 8, m, path, ord);
    PackedIntsBytes(HandshakeObject, 8, m, o.controlTypes, path, ord);
    NothingAbove(HandshakeObject, 9, m, path, ord);
  }

  lemma RobotEntriesWritten(objects: map<Bytes, RobotV>, ord: Order)
    ensures ValuesAre(MessageValue(HandshakeObject), RobotEntries(objects), [4], ord, RobotValueBytes(objects, ord))
  {
    hide SerializeAt, RobotMsg, PutRecord, Delimited, RobotBytes;
    forall name, i: nat | name in objects
      ensures PutRecords(ValRecords(MessageField(HandshakeObject), 2, VMsg(RobotMsg(objects[name])), [4] + [i], ord))
           == Delimited(0x12, RobotBytes(objects[name], [4, i], ord))
    {
      assert [4] + [i] == [4, i];
      RobotWritten(objects[name], [4, i], ord);
      LenRecord(2, RobotBytes(objects[name], [4, i], ord));
      OneRecord(Record(2, Len(RobotBytes(objects[name], [4, i], ord))));
    }
  }

  lemma MessageHolds(m: MessageV)
    ensures var x := MessageMsg(m);
            && Holds(x, 1, VInt(1)) && Holds(x, 2, VInt(1)) && Holds(x, 3, VInt(m.controlType))
            && Holds(x, 4, VMap(RobotEntries(m.objects)))
            && (if m.timeStep.Some? then Holds(x, 5, VMsg(Store(EMPTY, 1, VDouble(m.timeStep.value))))
                else 5 !in x.fields)
            && x.unknown == [] && x.fields.Keys <= {1, 2, 3, 4, 5}
  {
    hide RobotEntries;
  }

  lemma MessageFields()
    ensures forall n | n in {1, 2, 3} :: FieldOf(Handshake, n) == Some(IntField)
    ensures FieldOf(Handshake, 4) == Some(MapField(MessageValue(HandshakeObject)))
    ensures FieldOf(Handshake, 5) == Some(MessageField(SimulationSettings))
    ensures FieldOf(SimulationSettings, 1) == Some(DoubleField)
  {
  }

  /** A handshake goes out as the bytes that Messaging.proto prescribes. */
  lemma HandshakeWritten(m: MessageV, ord: Order)
    ensures Serialize(Handshake, MessageMsg(m), ord) == MessageBytes(m, ord)
  {
    hide MessageMsg, RobotEntries, FieldBytes, BytesFrom, IsDefault, Holds, ValuesAre, RobotValueBytes, Entries,
         FieldOf, SerializeAt, Store, Delimited, DoubleUnlessZero, EnumUnlessZero;
    var x := MessageMsg(m);
    MessageHolds(m);
    MessageFields();
    Whole(Handshake, x, [], ord);
    NextField(Handshake, 1, x, [], ord);
    IntBytes(Handshake, 1, x, 1, [], ord);
    NextField(Handshake, 2, x, [], ord);
    IntBytes(Handshake, 2, x, 1, [], ord);
    SmallEnum(8, 1);
    SmallEnum(16, 1);
    NextField(Handshake, 3, x, [], ord);
    IntBytes(Handshake, 3, x, m.controlType, [], ord);
    NextField(Handshake, 4, x, [], ord);
    assert [] + [4] == [4] && [] + [5] == [5];
    RobotEntriesWritten(m.objects, ord);
    MapBytes(Handshake, 4, x, MessageValue(HandshakeObject), RobotEntries(m.objects), [], ord,
             RobotValueBytes(m.objects, ord));
    if m.timeStep.Some? {
      NextField(Handshake, 5, x, [], ord);
      OneDouble(SimulationSettings, m.timeStep.value, [5], ord);
      Layout.MessageBytes(Handshake, MessageField(SimulationSettings), 5, x,
                          Store(EMPTY, 1, VDouble(m.timeStep.value)), [], ord);
    } else {
      SkipField(Handshake, 5, x, [], ord);
    }
    NothingAbove(Handshake, 6, x, [], ord);
  }

  /** The handshake built from no calls. */
  lemma NewHandshakeWritten(ord: Order)
    ensures Run([]).Some? && Serialize(Handshake, MessageMsg(Run([]).value.m), ord) == [8, 1, 16, 1]
  {
    hide Serialize, MessageMsg;
    var keys := ord([4], RobotEntries(map[]));
    assert IsListing(keys, RobotEntries(map[]).Keys);
    FirstListed(keys, {});
    HandshakeWritten(NEW_MESSAGE, ord);
  }
}
