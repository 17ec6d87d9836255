/** click::SensorMessage: the sensor message as its builder and readers see it, its place in the
    codec, and the decoding of the oneof list into tagged values. */
module SensorMessages {
  import opened Wire
  import opened Utf8
  import opened Schema
  import opened Codec
  import opened ParseLaws

  /** The members of the oneof in SensorMessage.Sensor. */
  datatype Case =
    | Angle | AngularVelocity1d | Torque1d | Position | Rpy | Activated | Acceleration3d
    | Force3d | Torque3d | AngularAcceleration3d | Velocity3d | AngularVelocity3d | Force1d

  function Number(c: Case): FieldNum {
    match c
    case Angle => 1
    case AngularVelocity1d => 2
    case Torque1d => 3
    case Position => 4
    case Rpy => 5
    case Activated => 6
    case Acceleration3d => 7
    case Force3d => 8
    case Torque3d => 9
    case AngularAcceleration3d => 10
    case Velocity3d => 12
    case AngularVelocity3d => 13
    case Force1d => 14
  }

  predicate IsDouble(c: Case) {
    c.Angle? || c.AngularVelocity1d? || c.Torque1d? || c.Force1d?
  }

  predicate IsVector(c: Case) {
    !IsDouble(c) && !c.Activated?
  }

  /** One Sensor: which member is set, and its value. */
  datatype Reading =
    | NoReading
    | Scalar(c: Case, d: Double)
    | Flag(b: bool)
    | Vector(c: Case, arr: seq<Double>)

  /** click::Vec3: three doubles. */
  type Triple = v: seq<Double> | |v| == 3 witness [ZERO, ZERO, ZERO]

  predicate WellTyped(r: Reading) {
    (r.Scalar? ==> IsDouble(r.c)) && (r.Vector? ==> IsVector(r.c))
  }

  datatype ObjectV = ObjectV(angles: seq<Double>, velocities: seq<Double>, torques: seq<Double>,
                             objectSensors: seq<Reading>, sensors: map<Bytes, seq<Reading>>)

  datatype MessageV = MessageV(objects: map<Bytes, ObjectV>, time: Option<Double>)

  const NEW_OBJECT := ObjectV([], [], [], [], map[])
  const NEW_MESSAGE := MessageV(map[], None)

  // ---------------------------------------------------------------- as message objects

  function VectorMsg(arr: seq<Double>): Msg {
    Store(EMPTY, 1, VDoubles(arr))
  }

  function ReadingMsg(r: Reading): Msg {
    match r
    case NoReading => EMPTY
    case Scalar(c, d) => Put(EMPTY, Number(c), VDouble(d))
    case Flag(b) => Put(EMPTY, Number(Activated), VBool(b))
    case Vector(c, arr) => Put(EMPTY, Number(c), VMsg(VectorMsg(arr)))
  }

  function ReadingMsgs(rs: seq<Reading>): (ms: seq<Msg>)
    ensures |ms| == |rs| && forall i | 0 <= i < |rs| :: ms[i] == ReadingMsg(rs[i])
  {
    seq(|rs|, i requires 0 <= i < |rs| => ReadingMsg(rs[i]))
  }

  function SensorsMsg(rs: seq<Reading>): Msg {
    Store(EMPTY, 1, VMsgs(ReadingMsgs(rs)))
  }

  function SensorEntries(sensors: map<Bytes, seq<Reading>>): map<Bytes, Val> {
    map name | name in sensors :: VMsg(SensorsMsg(sensors[name]))
  }

  function ObjectMsg(o: ObjectV): Msg {
    var m := Store(EMPTY, 1, VDoubles(o.angles));
    var m := Store(m, 2, VDoubles(o.velocities));
    var m := Store(m, 3, VDoubles(o.torques));
    var m := Store(m, 4, VMsgs(ReadingMsgs(o.objectSensors)));
    Store(m, 6, VMap(SensorEntries(o.sensors)))
  }

  function ObjectEntries(objects: map<Bytes, ObjectV>): map<Bytes, Val> {
    map name | name in objects :: VMsg(ObjectMsg(objects[name]))
  }

  /** The message object that a builder's contents amount to. */
  function MessageMsg(m: MessageV): Msg {
    var x := Put(EMPTY, 1, VInt(3));
    var x := Store(x, 3, VMap(ObjectEntries(m.objects)));
    if m.time.Some? then Put(x, 4, VMsg(Store(EMPTY, 1, VDouble(m.time.value)))) else x
  }

  ghost predicate ObjectIsFine(o: ObjectV) {
    && (forall r | r in o.objectSensors :: WellTyped(r))
    && forall name | name in o.sensors :: ValidUtf8(name) && forall r | r in o.sensors[name] :: WellTyped(r)
  }

  /** Names are valid UTF-8 and every reading has the type of its case. */
  ghost predicate IsFine(m: MessageV) {
    forall name | name in m.objects :: ValidUtf8(name) && ObjectIsFine(m.objects[name])
  }

  lemma VectorOk(arr: seq<Double>, depth: nat)
    ensures Ok(Vec3, depth, VectorMsg(arr))
  {
    EmptyOk(Vec3, depth);
    StoreOk(Vec3, depth, EMPTY, 1, VDoubles(arr));
  }

  lemma ReadingOk(r: Reading, depth: nat)
    requires WellTyped(r) && depth >= 1
    ensures Ok(Sensor, depth, ReadingMsg(r))
  {
    hide Ok;
    EmptyOk(Sensor, depth);
    match r
    case NoReading =>
    case Scalar(c, d) => OneMemberOk(c, VDouble(d), depth);
    case Flag(b) => OneMemberOk(Activated, VBool(b), depth);
    case Vector(c, arr) =>
      VectorOk(arr, depth - 1);
      OneMemberOk(c, VMsg(VectorMsg(arr)), depth);
  }

  lemma OneMemberOk(c: Case, v: Val, depth: nat)
    requires ValOk(FieldOf(Sensor, Number(c)).value, depth, v)
    ensures Ok(Sensor, depth, Put(EMPTY, Number(c), v))
  {
    hide ValOk, OneofFields;
  }

  lemma SensorsOk(rs: seq<Reading>, depth: nat)
    requires depth >= 2 && forall r | r in rs :: WellTyped(r)
    ensures Ok(Sensors, depth, SensorsMsg(rs))
  {
    hide Ok, ReadingMsg;
    EmptyOk(Sensors, depth);
    ReadingsOk(rs, depth);
    StoreOk(Sensors, depth, EMPTY, 1, VMsgs(ReadingMsgs(rs)));
  }

  lemma ReadingsOk(rs: seq<Reading>, depth: nat)
    requires depth >= 2 && forall r | r in rs :: WellTyped(r)
    ensures forall x | x in ReadingMsgs(rs) :: NestedOk(Sensor, depth, x)
  {
    hide Ok, ReadingMsg;
    forall x | x in ReadingMsgs(rs) ensures NestedOk(Sensor, depth, x) {
      var i :| 0 <= i < |rs| && x == ReadingMsg(rs[i]);
      ReadingOk(rs[i], depth - 1);
    }
  }

  lemma SensorEntriesOk(sensors: map<Bytes, seq<Reading>>, depth: nat)
    requires depth >= 5
    requires forall name | name in sensors :: ValidUtf8(name) && forall r | r in sensors[name] :: WellTyped(r)
    ensures IsDefault(VMap(SensorEntries(sensors)))
         || ValOk(MapField(MessageValue(Sensors)), depth, VMap(SensorEntries(sensors)))
  {
    hide Ok, ValidUtf8, SensorsMsg;
    forall name | name in sensors ensures EntryOk(MessageValue(Sensors), depth - 1, VMsg(SensorsMsg(sensors[name]))) {
      SensorsOk(sensors[name], depth - 2);
    }
  }

  lemma ObjectOk(o: ObjectV, depth: nat)
    requires depth >= 5 && ObjectIsFine(o)
    ensures Ok(SensorObject, depth, ObjectMsg(o))
  {
    hide Ok, ValOk, ReadingMsgs, SensorEntries, Store, IsDefault;
    EmptyOk(SensorObject, depth);
    DoublesOk(depth, o.angles);
    DoublesOk(depth, o.velocities);
    DoublesOk(depth, o.torques);
    var m := EMPTY;
    StoreOk(SensorObject, depth, m, 1, VDoubles(o.angles));
    m := Store(m, 1, VDoubles(o.angles));
    StoreOk(SensorObject, depth, m, 2, VDoubles(o.velocities));
    m := Store(m, 2, VDoubles(o.velocities));
    StoreOk(SensorObject, depth, m, 3, VDoubles(o.torques));
    m := Store(m, 3, VDoubles(o.torques));
    ReadingsOk(o.objectSensors, depth);
    MsgsValOk(Sensor, depth, ReadingMsgs(o.objectSensors));
    StoreOk(SensorObject, depth, m, 4, VMsgs(ReadingMsgs(o.objectSensors)));
    m := Store(m, 4, VMsgs(ReadingMsgs(o.objectSensors)));
    SensorEntriesOk(o.sensors, depth);
    StoreOk(SensorObject, depth, m, 6, VMap(SensorEntries(o.sensors)));
  }

  lemma MsgsValOk(c: Cls, depth: nat, ms: seq<Msg>)
    requires forall x | x in ms :: NestedOk(c, depth, x)
    ensures IsDefault(VMsgs(ms)) || ValOk(Messages(c), depth, VMsgs(ms))
  {
  }

  lemma ObjectEntriesOk(objects: map<Bytes, ObjectV>, depth: nat)
    requires depth >= 7 && forall name | name in objects :: ValidUtf8(name) && ObjectIsFine(objects[name])
    ensures IsDefault(VMap(ObjectEntries(objects)))
         || ValOk(MapField(MessageValue(SensorObject)), depth, VMap(ObjectEntries(objects)))
  {
    hide Ok, ValidUtf8, ObjectMsg, ObjectIsFine;
    forall name | name in objects
      ensures EntryOk(MessageValue(SensorObject), depth - 1, VMsg(ObjectMsg(objects[name])))
    {
      ObjectOk(objects[name], depth - 2);
    }
  }

  /** Whatever a builder holds is a well-formed sensor message. */
  lemma MessageOk(m: MessageV)
    requires IsFine(m)
    ensures Ok(SensorMsg, MAX_DEPTH, MessageMsg(m))
  {
    hide Ok, ObjectEntries, Store, Put, ObjectIsFine;
    var d := MAX_DEPTH;
    EmptyOk(SensorMsg, d);
    PutOk(SensorMsg, d, EMPTY, 1, VInt(3));
    ObjectEntriesOk(m.objects, d);
    StoreOk(SensorMsg, d, Put(EMPTY, 1, VInt(3)), 3, VMap(ObjectEntries(m.objects)));
    if m.time.Some? {
      var t := Store(EMPTY, 1, VDouble(m.time.value));
      EmptyOk(SimulationVariables, d - 1);
      StoreOk(SimulationVariables, d - 1, EMPTY, 1, VDouble(m.time.value));
      PutOk(SensorMsg, d, Store(Put(EMPTY, 1, VInt(3)), 3, VMap(ObjectEntries(m.objects))), 4, VMsg(t));
    }
  }

  // ---------------------------------------------------------------- readers

  /** click::ValueType, without the two values that no sensor carries. */
  datatype ValueType =
    | AngleType | AngularVelocity1DType | Torque1DType | PositionType | RPYType | ActivatedType
    | Acceleration3DType | Force1DType | Force3DType | Torque3DType | AngularAcceleration3DType
    | Velocity3DType | AngularVelocity3DType

  datatype SensorValue = DoubleValue(d: Double) | FlagValue(b: bool) | Vec3Value(x: Double, y: Double, z: Double)

  /** click::Sensor. */
  datatype Tagged = Tagged(t: ValueType, v: SensorValue)

  /** Outcome of a reader: a value; `at` out of range; a runtime_error; or a copy of three doubles
      from an array that has fewer, which C++ leaves undefined. */
  datatype Answer<+T> = Got(value: T) | OutOfRange | NotOfType | ShortVector

  predicate Has(m: Msg, c: Case) {
    Number(c) in m.fields
  }

  function DoubleIn(m: Msg, c: Case): Double {
    DoubleOf(m, Number(c))
  }

  function VectorIn(m: Msg, c: Case): seq<Double> {
    DoublesOf(MsgOf(m, Number(c)), 1)
  }

  function TagVector(t: ValueType, m: Msg, c: Case): Answer<Tagged> {
    var arr := VectorIn(m, c);
    if |arr| < 3 then ShortVector else Got(Tagged(t, Vec3Value(arr[0], arr[1], arr[2])))
  }

  /** One step of the decoding loop: the chain of `has_` tests, in its order. */
  function DecodeOne(m: Msg): Answer<Tagged> {
    if Has(m, Acceleration3d) then TagVector(Acceleration3DType, m, Acceleration3d)
    else if Has(m, Activated) then Got(Tagged(ActivatedType, FlagValue(BoolOf(m, Number(Activated)))))
    else if Has(m, Angle) then Got(Tagged(AngleType, DoubleValue(DoubleIn(m, Angle))))
    else if Has(m, AngularVelocity1d) then
      Got(Tagged(AngularVelocity1DType, DoubleValue(DoubleIn(m, AngularVelocity1d))))
    else if Has(m, AngularAcceleration3d) then TagVector(AngularAcceleration3DType, m, AngularAcceleration3d)
    else if Has(m, Torque3d) then TagVector(Torque3DType, m, Torque3d)
    else if Has(m, Force3d) then TagVector(Force3DType, m, Force3d)
    else if Has(m, Position) then TagVector(PositionType, m, Position)
    else if Has(m, Rpy) then TagVector(RPYType, m, Rpy)
    else if Has(m, Torque1d) then Got(Tagged(Torque1DType, DoubleValue(DoubleIn(m, Torque1d))))
    else if Has(m, Force1d) then Got(Tagged(Force1DType, DoubleValue(DoubleIn(m, Force1d))))
    else if Has(m, Velocity3d) then TagVector(Velocity3DType, m, Velocity3d)
    else if Has(m, AngularVelocity3d) then TagVector(AngularVelocity3DType, m, AngularVelocity3d)
    else NotOfType
  }

  /** The first failure ends the loop. */
  function DecodeAll(ms: seq<Msg>): Answer<seq<Tagged>> {
    if ms == [] then Got([])
    else
      match DecodeOne(ms[0])
      case Got(t) =>
        (match DecodeAll(ms[1..])
         case Got(ts) => Got([t] + ts)
         case OutOfRange => OutOfRange
         case NotOfType => NotOfType
         case ShortVector => ShortVector)
      case OutOfRange => OutOfRange
      case NotOfType => NotOfType
      case ShortVector => ShortVector
  }

  /** objects().at(object).sensors().at(name).sensor() */
  function SensorList(m: Msg, objectName: Bytes, sensorName: Bytes): Option<seq<Msg>> {
    match MsgAt(EntriesOf(m, 3), objectName)
    case None => None
    case Some(o) =>
      match MsgAt(EntriesOf(o, 6), sensorName)
      case None => None
      case Some(s) => Some(MsgsOf(s, 1))
  }

  /** SensorMessage::sensor. */
  function SensorReadings(m: Msg, objectName: Bytes, sensorName: Bytes): Answer<seq<Tagged>> {
    match SensorList(m, objectName, sensorName)
    case None => OutOfRange
    case Some(ms) => DecodeAll(ms)
  }

  lemma {:induction false} DecodedPrefix(ms: seq<Msg>, i: nat, ts: seq<Tagged>)
    requires i <= |ms| && |ts| == i && forall j | 0 <= j < i :: DecodeOne(ms[j]) == Got(ts[j])
    ensures match DecodeAll(ms[i..])
            case Got(rest) => DecodeAll(ms) == Got(ts + rest)
            case OutOfRange => DecodeAll(ms) == OutOfRange
            case NotOfType => DecodeAll(ms) == NotOfType
            case ShortVector => DecodeAll(ms) == ShortVector
  {
    hide DecodeOne;
    if i == 0 {
      assert ms[0..] == ms && ts == [];
      assert forall rest: seq<Tagged> :: ts + rest == rest;
    } else {
      DecodedPrefix(ms[1..], i - 1, ts[1..]);
      assert ms[1..][i - 1..] == ms[i..];
      assert forall rest: seq<Tagged> :: [ts[0]] + (ts[1..] + rest) == ts + rest;
    }
  }

  /** The decoding loop, writing through the iterator `target` into the result vector. */
  method DecodeSensor(m: Msg, objectName: Bytes, sensorName: Bytes) returns (r: Answer<seq<Tagged>>)
    ensures r == SensorReadings(m, objectName, sensorName)
  {
    hide DecodeOne;
    var list := SensorList(m, objectName, sensorName);
    if list.None? { return OutOfRange; }
    var ms := list.value;
    var res := new Tagged[|ms|](_ => Tagged(AngleType, DoubleValue(ZERO)));
    var target := 0;
    while target < |ms|
      invariant 0 <= target <= |ms|
      invariant forall j | 0 <= j < target :: DecodeOne(ms[j]) == Got(res[j])
    {
      var t := DecodeOne(ms[target]);
      DecodedPrefix(ms, target, res[..target]);
      match t {
        case Got(v) => res[target] := v;
        case OutOfRange => return OutOfRange;
        case NotOfType => return NotOfType;
        case ShortVector => return ShortVector;
      }
      target := target + 1;
    }
    DecodedPrefix(ms, target, res[..target]);
    assert res[..target] + [] == res[..];
    return Got(res[..]);
  }

  // ---------------------------------------------------------------- decoding undoes encoding

  function TypeFor(c: Case): ValueType {
    match c
    case Angle => AngleType
    case AngularVelocity1d => AngularVelocity1DType
    case Torque1d => Torque1DType
    case Position => PositionType
    case Rpy => RPYType
    case Activated => ActivatedType
    case Acceleration3d => Acceleration3DType
    case Force3d => Force3DType
    case Torque3d => Torque3DType
    case AngularAcceleration3d => AngularAcceleration3DType
    case Velocity3d => Velocity3DType
    case AngularVelocity3d => AngularVelocity3DType
    case Force1d => Force1DType
  }

  /** A reading that a typed push produces: a oneof member is set, vectors have three entries. */
  predicate IsPush(r: Reading) {
    WellTyped(r) && !r.NoReading? && (r.Vector? ==> |r.arr| == 3)
  }

  function TaggedFor(r: Reading): Tagged
    requires IsPush(r)
  {
    match r
    case Scalar(c, d) => Tagged(TypeFor(c), DoubleValue(d))
    case Flag(b) => Tagged(ActivatedType, FlagValue(b))
    case Vector(c, arr) => Tagged(TypeFor(c), Vec3Value(arr[0], arr[1], arr[2]))
  }

  lemma VectorComesBack(c: Case, arr: seq<Double>)
    ensures VectorIn(Put(EMPTY, Number(c), VMsg(VectorMsg(arr))), c) == arr
  {
  }

  lemma OnlyOneMember(c: Case, v: Val, c': Case)
    ensures Has(Put(EMPTY, Number(c), v), c') <==> c == c'
  {
  }

  /** The `has_` chain finds the member that is set, whatever order it tests them in. */
  lemma DecodeOneMember(m: Msg, c: Case)
    requires forall c' :: Has(m, c') <==> c == c'
    ensures IsDouble(c) ==> DecodeOne(m) == Got(Tagged(TypeFor(c), DoubleValue(DoubleIn(m, c))))
    ensures c.Activated? ==> DecodeOne(m) == Got(Tagged(ActivatedType, FlagValue(BoolOf(m, Number(Activated)))))
    ensures IsVector(c) ==> DecodeOne(m) == TagVector(TypeFor(c), m, c)
  {
    hide Has, DoubleIn, TagVector, BoolOf;
  }

  lemma DecodePush(r: Reading)
    requires IsPush(r)
    ensures DecodeOne(ReadingMsg(r)) == Got(TaggedFor(r))
  {
    hide DecodeOne, Has, VectorIn;
    var m := ReadingMsg(r);
    match r
    case Scalar(c, d) =>
      forall c' ensures Has(m, c') <==> c == c' { OnlyOneMember(c, VDouble(d), c'); }
      DecodeOneMember(m, c);
    case Flag(b) =>
      forall c' ensures Has(m, c') <==> Activated == c' { OnlyOneMember(Activated, VBool(b), c'); }
      DecodeOneMember(m, Activated);
    case Vector(c, arr) =>
      forall c' ensures Has(m, c') <==> c == c' { OnlyOneMember(c, VMsg(VectorMsg(arr)), c'); }
      DecodeOneMember(m, c);
      VectorComesBack(c, arr);
  }

  function TaggedAll(rs: seq<Reading>): (ts: seq<Tagged>)
    requires forall r | r in rs :: IsPush(r)
    ensures |ts| == |rs| && forall i | 0 <= i < |rs| :: ts[i] == TaggedFor(rs[i])
  {
    seq(|rs|, i requires 0 <= i < |rs| => TaggedFor(rs[i]))
  }

  lemma DecodePushes(rs: seq<Reading>)
    requires forall r | r in rs :: IsPush(r)
    ensures DecodeAll(ReadingMsgs(rs)) == Got(TaggedAll(rs))
  {
    hide DecodeOne, ReadingMsg, TaggedFor;
    var ms, ts := ReadingMsgs(rs), TaggedAll(rs);
    forall j | 0 <= j < |rs| ensures DecodeOne(ms[j]) == Got(ts[j]) { DecodePush(rs[j]); }
    DecodedPrefix(ms, |ms|, ts);
    assert ms[|ms|..] == [] && ts + [] == ts;
  }

  /** The list a reader finds under an object and sensor name is the list the message holds there. */
  lemma ListOfMessage(m: MessageV, objectName: Bytes, sensorName: Bytes)
    ensures SensorList(MessageMsg(m), objectName, sensorName)
         == if objectName in m.objects && sensorName in m.objects[objectName].sensors
            then Some(ReadingMsgs(m.objects[objectName].sensors[sensorName])) else None
  {
    hide ReadingMsgs, SensorsMsg, ObjectMsg;
    var x := MessageMsg(m);
    assert EntriesOf(x, 3) == ObjectEntries(m.objects);
    if objectName in m.objects {
      SensorsOfObject(m.objects[objectName]);
      if sensorName in m.objects[objectName].sensors {
        ReadingsOfSensors(m.objects[objectName].sensors[sensorName]);
      }
    }
  }

  lemma SensorsOfObject(o: ObjectV)
    ensures EntriesOf(ObjectMsg(o), 6) == SensorEntries(o.sensors)
  {
    hide ReadingMsgs, SensorsMsg;
  }

  lemma ReadingsOfSensors(rs: seq<Reading>)
    ensures MsgsOf(SensorsMsg(rs), 1) == ReadingMsgs(rs)
  {
    hide ReadingMsg;
  }

  // ---------------------------------------------------------------- readers of one entry

  function EntryAt(m: Msg, objectName: Bytes, sensorName: Bytes, idx: int): Option<Msg> {
    match SensorList(m, objectName, sensorName)
    case None => None
    case Some(ms) => if 0 <= idx < |ms| then Some(ms[idx]) else None
  }

  function CreateFrom(m: Msg, c: Case): Answer<SensorValue> {
    var arr := VectorIn(m, c);
    if |arr| < 3 then OutOfRange else Got(Vec3Value(arr[0], arr[1], arr[2]))
  }

  function Vec3In(s: Msg): Answer<SensorValue> {
    if Has(s, Acceleration3d) then CreateFrom(s, Acceleration3d)
    else if Has(s, AngularAcceleration3d) then CreateFrom(s, AngularAcceleration3d)
    else if Has(s, Torque3d) then CreateFrom(s, Torque3d)
    else if Has(s, Force3d) then CreateFrom(s, Force3d)
    else if Has(s, Position) then CreateFrom(s, Position)
    else if Has(s, Rpy) then CreateFrom(s, Rpy)
    else NotOfType
  }

  function DoubleOnly(s: Msg): Answer<SensorValue> {
    if Has(s, Angle) then Got(DoubleValue(DoubleIn(s, Angle)))
    else if Has(s, AngularVelocity1d) then Got(DoubleValue(DoubleIn(s, AngularVelocity1d)))
    else if Has(s, Torque1d) then Got(DoubleValue(DoubleIn(s, Torque1d)))
    else NotOfType
  }

  function BoolOnly(s: Msg): Answer<SensorValue> {
    if Has(s, Activated) then Got(FlagValue(BoolOf(s, Number(Activated)))) else NotOfType
  }

  /** SensorMessage::sensorVec3. */
  function SensorVec3(m: Msg, objectName: Bytes, sensorName: Bytes, idx: int): Answer<SensorValue> {
    match EntryAt(m, objectName, sensorName, idx)
    case None => OutOfRange
    case Some(s) => Vec3In(s)
  }

  /** SensorMessage::sensorDouble. */
  function SensorDouble(m: Msg, objectName: Bytes, sensorName: Bytes, idx: int): Answer<SensorValue> {
    match EntryAt(m, objectName, sensorName, idx)
    case None => OutOfRange
    case Some(s) => DoubleOnly(s)
  }

  /** SensorMessage::sensorBool. */
  function SensorBool(m: Msg, objectName: Bytes, sensorName: Bytes, idx: int): Answer<SensorValue> {
    match EntryAt(m, objectName, sensorName, idx)
    case None => OutOfRange
    case Some(s) => BoolOnly(s)
  }

  lemma {:induction false} DecodedAt(ms: seq<Msg>, i: nat)
    requires DecodeAll(ms).Got? && i < |ms|
    ensures |DecodeAll(ms).value| == |ms| && DecodeOne(ms[i]) == Got(DecodeAll(ms).value[i])
    decreases |ms|
  {
    hide DecodeOne;
    if i > 0 {
      DecodedAt(ms[1..], i - 1);
    } else if |ms| > 1 {
      DecodedAt(ms[1..], 0);
    }
  }

  ghost predicate AtMostOne(s: Msg) {
    forall c, c' :: Has(s, c) && Has(s, c') ==> c == c'
  }

  lemma OneMemberAtMost(s: Msg, depth: nat)
    requires Ok(Sensor, depth, s)
    ensures AtMostOne(s)
  {
    hide ValOk;
    forall c, c' | Has(s, c) && Has(s, c') ensures c == c' {
      assert Number(c) in OneofFields(Sensor) && Number(c') in OneofFields(Sensor);
    }
  }

  lemma EntryMessageOk(c: Cls, depth: nat, m: Msg, n: nat, c': Cls, key: Bytes)
    requires Ok(c, depth, m) && FieldOf(c, n) == Some(MapField(MessageValue(c')))
    ensures var e := MsgAt(EntriesOf(m, n), key); e.Some? ==> depth >= 2 && Ok(c', depth - 2, e.value)
  {
    hide Ok, FieldOf;
    if n in m.fields {
      FieldIsOk(c, depth, m, n);
      var es := EntriesOf(m, n);
      if MsgAt(es, key).Some? {
        assert EntryOk(MessageValue(c'), depth - 1, es[key]);
        assert NestedOk(c', depth - 1, es[key].m);
      }
    }
  }

  lemma EntryIsOneof(m: Msg, objectName: Bytes, sensorName: Bytes, idx: int)
    requires Ok(SensorMsg, MAX_DEPTH, m)
    ensures var s := EntryAt(m, objectName, sensorName, idx); s.Some? ==> AtMostOne(s.value)
  {
    hide Ok, AtMostOne, MsgAt, EntriesOf;
    var d := MAX_DEPTH;
    if EntryAt(m, objectName, sensorName, idx).Some? {
      EntryMessageOk(SensorMsg, d, m, 3, SensorObject, objectName);
      var o := MsgAt(EntriesOf(m, 3), objectName).value;
      EntryMessageOk(SensorObject, d - 2, o, 6, Sensors, sensorName);
      var s := MsgAt(EntriesOf(o, 6), sensorName).value;
      FieldIsOk(Sensors, d - 4, s, 1);
      assert NestedOk(Sensor, d - 4, MsgsOf(s, 1)[idx]);
      OneMemberAtMost(MsgsOf(s, 1)[idx], d - 5);
    }
  }

  /** Exactly which entries of a decoded list the single-entry readers return: `sensorVec3` knows no
      velocities, `sensorDouble` no force, and where they return they agree with the list. */
  lemma SingleReadersAgree(m: Msg, objectName: Bytes, sensorName: Bytes, idx: int, v: SensorValue)
    requires Ok(SensorMsg, MAX_DEPTH, m) && SensorReadings(m, objectName, sensorName).Got?
    ensures var ts := SensorReadings(m, objectName, sensorName).value;
            if 0 <= idx < |ts| then
              && (SensorVec3(m, objectName, sensorName, idx) == Got(v) <==>
                  ts[idx].v == v && v.Vec3Value? && !ts[idx].t.Velocity3DType? && !ts[idx].t.AngularVelocity3DType?)
              && (SensorDouble(m, objectName, sensorName, idx) == Got(v) <==>
                  ts[idx].v == v && v.DoubleValue? && !ts[idx].t.Force1DType?)
              && (SensorBool(m, objectName, sensorName, idx) == Got(v) <==> ts[idx].v == v && v.FlagValue?)
            else
              SensorVec3(m, objectName, sensorName, idx) == SensorDouble(m, objectName, sensorName, idx)
              == SensorBool(m, objectName, sensorName, idx) == OutOfRange
  {
    hide Ok, Has, DoubleIn, VectorIn, BoolOf, DecodeAll, DecodeOne;
    var ms := SensorList(m, objectName, sensorName).value;
    DecodedLength(ms);
    if 0 <= idx < |ms| {
      DecodedAt(ms, idx);
      EntryIsOneof(m, objectName, sensorName, idx);
      EntryReadersAgree(ms[idx], DecodeAll(ms).value[idx], v);
    }
  }

  lemma {:induction false} DecodedLength(ms: seq<Msg>)
    requires DecodeAll(ms).Got?
    ensures |DecodeAll(ms).value| == |ms|
  {
    hide DecodeOne;
    if ms != [] { DecodedLength(ms[1..]); }
  }

  lemma EntryReadersAgree(s: Msg, t: Tagged, v: SensorValue)
    requires AtMostOne(s) && DecodeOne(s) == Got(t)
    ensures Vec3In(s) == Got(v) <==> t.v == v && v.Vec3Value? && !t.t.Velocity3DType? && !t.t.AngularVelocity3DType?
    ensures DoubleOnly(s) == Got(v) <==> t.v == v && v.DoubleValue? && !t.t.Force1DType?
    ensures BoolOnly(s) == Got(v) <==> t.v == v && v.FlagValue?
  {
    hide Has, DoubleIn, VectorIn, BoolOf;
    if c :| Has(s, c) {
      DecodeOneMember(s, c);
    }
  }

  // ---------------------------------------------------------------- every answer of the readers

  /** What the decoding loop makes of one reading: a failure where none is set or a vector is short, and
      the first three entries of a longer vector. */
  function AnswerFor(r: Reading): Answer<Tagged> {
    match r
    case NoReading => NotOfType
    case Scalar(c, d) => Got(Tagged(TypeFor(c), DoubleValue(d)))
    case Flag(b) => Got(Tagged(ActivatedType, FlagValue(b)))
    case Vector(c, arr) =>
      if |arr| < 3 then ShortVector else Got(Tagged(TypeFor(c), Vec3Value(arr[0], arr[1], arr[2])))
  }

  lemma DecodeReading(r: Reading)
    requires WellTyped(r)
    ensures DecodeOne(ReadingMsg(r)) == AnswerFor(r)
  {
    hide DecodeOne, Has, VectorIn;
    HasMember(r);
    match r
    case NoReading => NothingHeld();
    case Scalar(c, d) => DecodeOneMember(ReadingMsg(r), c);
    case Flag(b) => DecodeOneMember(ReadingMsg(r), Activated);
    case Vector(c, arr) =>
      DecodeOneMember(ReadingMsg(r), c);
      VectorComesBack(c, arr);
  }

  /** Case by case, the type that the decoding loop gives to each member. */
  lemma DoublesHaveTheirTypes(d: Double, b: bool)
    ensures DecodeOne(ReadingMsg(Scalar(Angle, d))) == Got(Tagged(AngleType, DoubleValue(d)))
    ensures DecodeOne(ReadingMsg(Scalar(AngularVelocity1d, d))) == Got(Tagged(AngularVelocity1DType, DoubleValue(d)))
    ensures DecodeOne(ReadingMsg(Scalar(Torque1d, d))) == Got(Tagged(Torque1DType, DoubleValue(d)))
    ensures DecodeOne(ReadingMsg(Scalar(Force1d, d))) == Got(Tagged(Force1DType, DoubleValue(d)))
    ensures DecodeOne(ReadingMsg(Flag(b))) == Got(Tagged(ActivatedType, FlagValue(b)))
  {
    hide DecodeOne, ReadingMsg;
    forall c | IsDouble(c) ensures DecodeOne(ReadingMsg(Scalar(c, d))) == AnswerFor(Scalar(c, d)) {
      DecodeReading(Scalar(c, d));
    }
    DecodeReading(Flag(b));
  }

  lemma VectorsHaveTheirTypes(v: Triple)
    ensures var x := Vec3Value(v[0], v[1], v[2]);
            && DecodeOne(ReadingMsg(Vector(Position, v))) == Got(Tagged(PositionType, x))
            && DecodeOne(ReadingMsg(Vector(Rpy, v))) == Got(Tagged(RPYType, x))
            && DecodeOne(ReadingMsg(Vector(Acceleration3d, v))) == Got(Tagged(Acceleration3DType, x))
            && DecodeOne(ReadingMsg(Vector(Force3d, v))) == Got(Tagged(Force3DType, x))
            && DecodeOne(ReadingMsg(Vector(Torque3d, v))) == Got(Tagged(Torque3DType, x))
            && DecodeOne(ReadingMsg(Vector(AngularAcceleration3d, v))) == Got(Tagged(AngularAcceleration3DType, x))
            && DecodeOne(ReadingMsg(Vector(Velocity3d, v))) == Got(Tagged(Velocity3DType, x))
            && DecodeOne(ReadingMsg(Vector(AngularVelocity3d, v))) == Got(Tagged(AngularVelocity3DType, x))
  {
    hide DecodeOne, ReadingMsg;
    forall c | IsVector(c) ensures DecodeOne(ReadingMsg(Vector(c, v))) == AnswerFor(Vector(c, v)) {
      DecodeReading(Vector(c, v));
    }
  }

  lemma HasMember(r: Reading)
    ensures forall c ::
              Has(ReadingMsg(r), c) <==> ((r.Scalar? || r.Vector?) && c == r.c) || (r.Flag? && c == Activated)
  {
    hide Has;
    forall c
      ensures Has(ReadingMsg(r), c) <==> ((r.Scalar? || r.Vector?) && c == r.c) || (r.Flag? && c == Activated)
    {
      match r
      case NoReading => NothingHeld();
      case Scalar(c', d) => OnlyOneMember(c', VDouble(d), c);
      case Flag(b) => OnlyOneMember(Activated, VBool(b), c);
      case Vector(c', arr) => OnlyOneMember(c', VMsg(VectorMsg(arr)), c);
    }
  }

  lemma NothingHeld()
    ensures DecodeOne(EMPTY) == NotOfType && forall c :: !Has(EMPTY, c)
  {
  }

  /** The whole list: everything decoded in order, or the failure of the first reading that fails. */
  lemma SensorReadsOrFails(m: MessageV, objectName: Bytes, sensorName: Bytes)
    requires objectName in m.objects && sensorName in m.objects[objectName].sensors ==>
               forall r | r in m.objects[objectName].sensors[sensorName] :: WellTyped(r)
    ensures var found := objectName in m.objects && sensorName in m.objects[objectName].sensors;
            var answer := SensorReadings(MessageMsg(m), objectName, sensorName);
            && (!found ==> answer == OutOfRange)
            && (found ==>
                  var rs := m.objects[objectName].sensors[sensorName];
                  && (answer.Got? <==> forall i | 0 <= i < |rs| :: AnswerFor(rs[i]).Got?)
                  && (answer.Got? ==>
                        |answer.value| == |rs| && forall i | 0 <= i < |rs| :: AnswerFor(rs[i]) == Got(answer.value[i]))
                  && (forall i | 0 <= i < |rs| ::
                        (forall j | 0 <= j < i :: AnswerFor(rs[j]).Got?) ==>
                          && (AnswerFor(rs[i]) == NotOfType ==> answer == NotOfType)
                          && (AnswerFor(rs[i]) == ShortVector ==> answer == ShortVector)))
  {
    hide MessageMsg, ReadingMsgs, AnswerFor;
    ListOfMessage(m, objectName, sensorName);
    if objectName in m.objects && sensorName in m.objects[objectName].sensors {
      ListReadsOrFails(m.objects[objectName].sensors[sensorName]);
    }
  }

  lemma {:induction false} ListReadsOrFails(rs: seq<Reading>)
    requires forall r | r in rs :: WellTyped(r)
    ensures var answer := DecodeAll(ReadingMsgs(rs));
            && (answer.Got? <==> forall i | 0 <= i < |rs| :: AnswerFor(rs[i]).Got?)
            && (answer.Got? ==>
                  |answer.value| == |rs| && forall i | 0 <= i < |rs| :: AnswerFor(rs[i]) == Got(answer.value[i]))
            && (forall i | 0 <= i < |rs| ::
                  (forall j | 0 <= j < i :: AnswerFor(rs[j]).Got?) ==>
                    && (AnswerFor(rs[i]) == NotOfType ==> answer == NotOfType)
                    && (AnswerFor(rs[i]) == ShortVector ==> answer == ShortVector))
  {
    hide DecodeOne, ReadingMsg, WellTyped;
    if rs != [] {
      DecodeReading(rs[0]);
      assert AnswerFor(rs[0]) != OutOfRange;
      assert ReadingMsgs(rs)[1..] == ReadingMsgs(rs[1..]);
      ListReadsOrFails(rs[1..]);
      assert forall i | 1 <= i < |rs| :: rs[i] == rs[1..][i - 1];
    }
  }

  /** One reading through the three single-entry readers. */
  lemma SingleReaderReads(r: Reading)
    requires WellTyped(r)
    ensures Vec3In(ReadingMsg(r))
         == if r.Vector? && !r.c.Velocity3d? && !r.c.AngularVelocity3d? then
              if |r.arr| < 3 then OutOfRange else Got(Vec3Value(r.arr[0], r.arr[1], r.arr[2]))
            else NotOfType
    ensures DoubleOnly(ReadingMsg(r)) == if r.Scalar? && !r.c.Force1d? then Got(DoubleValue(r.d)) else NotOfType
    ensures BoolOnly(ReadingMsg(r)) == if r.Flag? then Got(FlagValue(r.b)) else NotOfType
  {
    hide Has, VectorIn;
    HasMember(r);
    if r.Vector? { VectorComesBack(r.c, r.arr); }
  }
}
