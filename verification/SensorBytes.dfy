/** A sensor message as bytes, written out by hand from Messaging.proto. */
module SensorBytes {
  import opened Wire
  import opened Schema
  import opened Codec
  import opened SensorMessages
  import opened Layout

  function VectorBytes(arr: seq<Double>): Bytes {
    Doubles(0x0A, arr)
  }

  /** A member of the oneof is written even when it is zero. */
  function ReadingBytes(r: Reading): Bytes
    requires WellTyped(r)
  {
    match r
    case NoReading => []
    case Scalar(Angle, d) => [0x09] + d
    case Scalar(AngularVelocity1d, d) => [0x11] + d
    case Scalar(Torque1d, d) => [0x19] + d
    case Scalar(Force1d, d) => [0x71] + d
    case Flag(b) => [0x30, if b then 1 else 0]
    case Vector(Position, arr) => Delimited(0x22, VectorBytes(arr))
    case Vector(Rpy, arr) => Delimited(0x2A, VectorBytes(arr))
    case Vector(Acceleration3d, arr) => Delimited(0x3A, VectorBytes(arr))
    case Vector(Force3d, arr) => Delimited(0x42, VectorBytes(arr))
    case Vector(Torque3d, arr) => Delimited(0x4A, VectorBytes(arr))
    case Vector(AngularAcceleration3d, arr) => Delimited(0x52, VectorBytes(arr))
    case Vector(Velocity3d, arr) => Delimited(0x62, VectorBytes(arr))
    case Vector(AngularVelocity3d, arr) => Delimited(0x6A, VectorBytes(arr))
  }

  function AllReadingBytes(rs: seq<Reading>): (bs: seq<Bytes>)
    requires forall r | r in rs :: WellTyped(r)
    ensures |bs| == |rs| && forall i | 0 <= i < |rs| :: bs[i] == ReadingBytes(rs[i])
  {
    seq(|rs|, i requires 0 <= i < |rs| => ReadingBytes(rs[i]))
  }

  function ListBytes(tag: Byte, rs: seq<Reading>): Bytes
    requires forall r | r in rs :: WellTyped(r)
  {
    Each(tag, AllReadingBytes(rs))
  }

  predicate IsTyped(o: ObjectV) {
    (forall r | r in o.objectSensors :: WellTyped(r))
    && forall name | name in o.sensors :: forall r | r in o.sensors[name] :: WellTyped(r)
  }

  function SensorValueBytes(sensors: map<Bytes, seq<Reading>>): (Bytes, nat) -> Bytes
    requires forall name | name in sensors :: forall r | r in sensors[name] :: WellTyped(r)
  {
    (name, i) => if name in sensors then Delimited(0x12, ListBytes(0x0A, sensors[name])) else []
  }

  /** An object, with its sensors in the order in which the map is iterated. */
  function ObjectBytes(o: ObjectV, path: seq<nat>, ord: Order): Bytes
    requires IsTyped(o)
  {
    Doubles(0x0A, o.angles) + Doubles(0x12, o.velocities) + Doubles(0x1A, o.torques)
    + ListBytes(0x22, o.objectSensors)
    + Entries(0x32, ord(path + [6], SensorEntries(o.sensors)), SensorValueBytes(o.sensors))
  }

  function ObjectValueBytes(objects: map<Bytes, ObjectV>, ord: Order): (Bytes, nat) -> Bytes
    requires forall name | name in objects :: IsTyped(objects[name])
  {
    (name, i) => if name in objects then Delimited(0x12, ObjectBytes(objects[name], [3, i], ord)) else []
  }

  /** The whole message: type 3, the objects, and the time if there is one. */
  function MessageBytes(m: MessageV, ord: Order): Bytes
    requires forall name | name in m.objects :: IsTyped(m.objects[name])
  {
    [0x08, 3]
    + Entries(0x1A, ord([3], ObjectEntries(m.objects)), ObjectValueBytes(m.objects, ord))
    + if m.time.Some? then Delimited(0x22, DoubleUnlessZero(0x09, m.time.value)) else []
  }

  // ---------------------------------------------------------------- that is what the serializer writes

  lemma VectorField()
    ensures FieldOf(Vec3, 1) == Some(PackedDoubles)
  {
  }

  lemma VectorWritten(arr: seq<Double>, path: seq<nat>, ord: Order)
    ensures SerializeAt(Vec3, VectorMsg(arr), path, ord) == VectorBytes(arr)
  {
    hide SerializeAt, Doubles, FieldOf;
    VectorField();
    OnePacked(Vec3, arr, path, ord);
  }

  lemma MemberWritten(c: Case, v: Val, path: seq<nat>, ord: Order)
    ensures var m := Put(EMPTY, Number(c), v);
            SerializeAt(Sensor, m, path, ord) == FieldBytes(Sensor, Number(c), m, path, ord)
  {
    var m := Put(EMPTY, Number(c), v);
    assert m.fields.Keys == {Number(c)};
    OnlyField(Sensor, 1, Number(c), m, path, ord);
  }

  /** One reading: its tag and its value. */
  lemma ReadingWritten(r: Reading, path: seq<nat>, ord: Order)
    requires WellTyped(r)
    ensures SerializeAt(Sensor, ReadingMsg(r), path, ord) == ReadingBytes(r)
  {
    hide SerializeAt, FieldBytes, PutRecord, Delimited, VectorMsg, FieldOf;
    match r
    case NoReading => EmptyBytes(Sensor, path, ord);
    case Scalar(c, d) =>
      MemberWritten(c, VDouble(d), path, ord);
      DoubleMember(c, d, path, ord);
    case Flag(b) =>
      MemberWritten(Activated, VBool(b), path, ord);
      BoolMember(b, path, ord);
    case Vector(c, arr) =>
      MemberWritten(c, VMsg(VectorMsg(arr)), path, ord);
      VectorMember(c, arr, path, ord);
  }

  lemma DoubleMember(c: Case, d: Double, path: seq<nat>, ord: Order)
    requires IsDouble(c)
    ensures FieldBytes(Sensor, Number(c), Put(EMPTY, Number(c), VDouble(d)), path, ord)
         == ReadingBytes(Scalar(c, d))
  {
    var r := Record(Number(c), Fixed64(d));
    assert FieldRecords(Sensor, Number(c), Put(EMPTY, Number(c), VDouble(d)), path, ord) == [r];
    SmallTag(Number(c), 1);
    OneRecord(r);
  }

  lemma BoolMember(b: bool, path: seq<nat>, ord: Order)
    ensures FieldBytes(Sensor, 6, Put(EMPTY, 6, VBool(b)), path, ord) == ReadingBytes(Flag(b))
  {
    var r := Record(6, Varint(BoolVarint(b)));
    assert FieldRecords(Sensor, 6, Put(EMPTY, 6, VBool(b)), path, ord) == [r];
    SmallTag(6, 0);
    OneRecord(r);
  }

  lemma VectorMember(c: Case, arr: seq<Double>, path: seq<nat>, ord: Order)
    requires IsVector(c)
    ensures FieldBytes(Sensor, Number(c), Put(EMPTY, Number(c), VMsg(VectorMsg(arr))), path, ord)
         == ReadingBytes(Vector(c, arr))
  {
    hide SerializeAt, FieldBytes, PutRecord, Delimited, VectorMsg, VectorBytes;
    VectorWritten(arr, path + [Number(c)], ord);
    Layout.MessageBytes(Sensor, OneofMessage(Vec3), Number(c), Put(EMPTY, Number(c), VMsg(VectorMsg(arr))),
                        VectorMsg(arr), path, ord);
  }

  lemma ReadingsWritten(rs: seq<Reading>, ord: Order)
    requires forall r | r in rs :: WellTyped(r)
    ensures AreWrittenAs(Sensor, ReadingMsgs(rs), ord, AllReadingBytes(rs))
  {
    hide SerializeAt, ReadingMsg, ReadingBytes;
    forall i, p | 0 <= i < |rs| ensures SerializeAt(Sensor, ReadingMsgs(rs)[i], p, ord) == AllReadingBytes(rs)[i] {
      ReadingWritten(rs[i], p, ord);
    }
  }

  lemma SensorsWritten(rs: seq<Reading>, path: seq<nat>, ord: Order)
    requires forall r | r in rs :: WellTyped(r)
    ensures SerializeAt(Sensors, SensorsMsg(rs), path, ord) == ListBytes(0x0A, rs)
  {
    hide ReadingMsgs, AllReadingBytes, SerializeAt;
    ReadingsWritten(rs, ord);
    OneMessageList(Sensors, Sensor, ReadingMsgs(rs), path, ord, AllReadingBytes(rs));
  }

  lemma SensorEntriesWritten(sensors: map<Bytes, seq<Reading>>, path: seq<nat>, ord: Order)
    requires forall name | name in sensors :: forall r | r in sensors[name] :: WellTyped(r)
    ensures ValuesAre(MessageValue(Sensors), SensorEntries(sensors), path, ord, SensorValueBytes(sensors))
  {
    hide SerializeAt, SensorsMsg, PutRecord, Delimited, ListBytes;
    forall name, i: nat | name in sensors
      ensures PutRecords(ValRecords(MessageField(Sensors), 2, VMsg(SensorsMsg(sensors[name])), path + [i], ord))
           == Delimited(0x12, ListBytes(0x0A, sensors[name]))
    {
      SensorsWritten(sensors[name], path + [i], ord);
      LenRecord(2, ListBytes(0x0A, sensors[name]));
      OneRecord(Record(2, Len(ListBytes(0x0A, sensors[name]))));
    }
  }

  lemma ObjectHolds(o: ObjectV)
    ensures var m := ObjectMsg(o);
            && Holds(m, 1, VDoubles(o.angles)) && Holds(m, 2, VDoubles(o.velocities))
            && Holds(m, 3, VDoubles(o.torques)) && Holds(m, 4, VMsgs(ReadingMsgs(o.objectSensors)))
            && Holds(m, 6, VMap(SensorEntries(o.sensors)))
            && m.unknown == [] && m.fields.Keys <= {1, 2, 3, 4, 6}
  {
    hide ReadingMsgs, SensorEntries, Store, Holds, IsDefault;
    var m := EMPTY;
    Stored(m, 1, VDoubles(o.angles));
    m := Store(m, 1, VDoubles(o.angles));
    Stored(m, 2, VDoubles(o.velocities));
    m := Store(m, 2, VDoubles(o.velocities));
    Stored(m, 3, VDoubles(o.torques));
    m := Store(m, 3, VDoubles(o.torques));
    Stored(m, 4, VMsgs(ReadingMsgs(o.objectSensors)));
    m := Store(m, 4, VMsgs(ReadingMsgs(o.objectSensors)));
    Stored(m, 6, VMap(SensorEntries(o.sensors)));
  }

  lemma ObjectFields()
    ensures forall n | n in {1, 2, 3} :: FieldOf(SensorObject, n) == Some(PackedDoubles)
    ensures FieldOf(SensorObject, 4) == Some(Messages(Sensor))
    ensures FieldOf(SensorObject, 6) == Some(MapField(MessageValue(Sensors)))
  {
  }

  lemma ListsWritten(o: ObjectV, path: seq<nat>, ord: Order)
    ensures var m := ObjectMsg(o);
            BytesFrom(SensorObject, 1, m, path, ord)
            == Doubles(0x0A, o.angles) + Doubles(0x12, o.velocities) + Doubles(0x1A, o.torques)
               + BytesFrom(SensorObject, 4, m, path, ord)
  {
    hide ObjectMsg, ReadingMsgs, SensorEntries, FieldBytes, BytesFrom, IsDefault, Holds, Doubles, FieldOf;
    var m := ObjectMsg(o);
    ObjectHolds(o);
    ObjectFields();
    NextField(SensorObject, 1, m, path, ord);
    PackedBytes(SensorObject, 1, m, o.angles, path, ord);
    NextField(SensorObject, 2, m, path, ord);
    PackedBytes(SensorObject, 2, m, o.velocities, path, ord);
    NextField(SensorObject, 3, m, path, ord);
    PackedBytes(SensorObject, 3, m, o.torques, path, ord);
  }

  lemma ObjectWritten(o: ObjectV, path: seq<nat>, ord: Order)
    requires IsTyped(o)
    ensures SerializeAt(SensorObject, ObjectMsg(o), path, ord) == ObjectBytes(o, path, ord)
  {
    hide ObjectMsg, ReadingMsgs, SensorEntries, AllReadingBytes, FieldBytes, BytesFrom, IsDefault, Holds, Doubles,
         ValuesAre, SensorValueBytes, Entries, Each, FieldOf, SerializeAt;
    var m := ObjectMsg(o);
    ObjectHolds(o);
    ObjectFields();
    Whole(SensorObject, m, path, ord);
    ListsWritten(o, path, ord);
    NextField(SensorObject, 4, m, path, ord);
    ReadingsWritten(o.objectSensors, ord);
    MessageListBytes(SensorObject, 4, m, Sensor, ReadingMsgs(o.objectSensors), path, ord,
                     AllReadingBytes(o.objectSensors));
    SkipField(SensorObject, 5, m, path, ord);
    NextField(SensorObject, 6, m, path, ord);
    SensorEntriesWritten(o.sensors, path + [6], ord);
    MapBytes(SensorObject, 6, m, MessageValue(Sensors), SensorEntries(o.sensors), path, ord,
             SensorValueBytes(o.sensors));
    NothingAbove(SensorObject, 7, m, path, ord);
  }

  lemma ObjectEntriesWritten(objects: map<Bytes, ObjectV>, ord: Order)
    requires forall name | name in objects :: IsTyped(objects[name])
    ensures ValuesAre(MessageValue(SensorObject), ObjectEntries(objects), [3], ord, ObjectValueBytes(objects, ord))
  {
    hide SerializeAt, ObjectMsg, PutRecord, Delimited, ObjectBytes;
    forall name, i: nat | name in objects
      ensures PutRecords(ValRecords(MessageField(SensorObject), 2, VMsg(ObjectMsg(objects[name])), [3] + [i], ord))
           == Delimited(0x12, ObjectBytes(objects[name], [3, i], ord))
    {
      assert [3] + [i] == [3, i];
      ObjectWritten(objects[name], [3, i], ord);
      LenRecord(2, ObjectBytes(objects[name], [3, i], ord));
      OneRecord(Record(2, Len(ObjectBytes(objects[name], [3, i], ord))));
    }
  }

  lemma MessageHolds(m: MessageV)
    ensures var x := MessageMsg(m);
            && Holds(x, 1, VInt(3)) && Holds(x, 3, VMap(ObjectEntries(m.objects)))
            && (if m.time.Some? then Holds(x, 4, VMsg(Store(EMPTY, 1, VDouble(m.time.value)))) else 4 !in x.fields)
            && x.unknown == [] && x.fields.Keys <= {1, 3, 4}
  {
    hide ObjectEntries;
  }

  lemma MessageFields()
    ensures FieldOf(SensorMsg, 1) == Some(IntField)
    ensures FieldOf(SensorMsg, 3) == Some(MapField(MessageValue(SensorObject)))
    ensures FieldOf(SensorMsg, 4) == Some(MessageField(SimulationVariables))
    ensures FieldOf(SimulationVariables, 1) == Some(DoubleField)
  {
  }

  /** A sensor message goes out as the bytes that Messaging.proto prescribes. */
  lemma SensorMessageWritten(m: MessageV, ord: Order)
    requires forall name | name in m.objects :: IsTyped(m.objects[name])
    ensures Serialize(SensorMsg, MessageMsg(m), ord) == MessageBytes(m, ord)
  {
    hide MessageMsg, ObjectEntries, FieldBytes, BytesFrom, IsDefault, Holds, ValuesAre, ObjectValueBytes, Entries,
         FieldOf, SerializeAt, Store, Delimited, DoubleUnlessZero, EnumUnlessZero;
    var x := MessageMsg(m);
    MessageHolds(m);
    MessageFields();
    Whole(SensorMsg, x, [], ord);
    NextField(SensorMsg, 1, x, [], ord);
    IntBytes(SensorMsg, 1, x, 3, [], ord);
    SmallEnum(8, 3);
    SkipField(SensorMsg, 2, x, [], ord);
    NextField(SensorMsg, 3, x, [], ord);
    assert [] + [3] == [3] && [] + [4] == [4];
    ObjectEntriesWritten(m.objects, ord);
    MapBytes(SensorMsg, 3, x, MessageValue(SensorObject), ObjectEntries(m.objects), [], ord,
             ObjectValueBytes(m.objects, ord));
    if m.time.Some? {
      NextField(SensorMsg, 4, x, [], ord);
      OneDouble(SimulationVariables, m.time.value, [4], ord);
      Layout.MessageBytes(SensorMsg, MessageField(SimulationVariables), 4, x,
                          Store(EMPTY, 1, VDouble(m.time.value)), [], ord);
    } else {
      SkipField(SensorMsg, 4, x, [], ord);
    }
    NothingAbove(SensorMsg, 5, x, [], ord);
  }
}
