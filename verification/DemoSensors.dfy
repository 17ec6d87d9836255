/** The sensor message of demoserver.cpp, from the calls that build it to what a client reads in it. */
module DemoSensors {
  import opened Wire
  import opened Utf8
  import opened Schema
  import opened Codec
  import opened Dispatch
  import opened SensorMessages
  import opened SensorBuilder
  import DemoServer
  import Layout
  import MessageObject
  import ObjectVectors
  import ReqRep
  import SensorBytes
  import SensorFidelity
  import Texts

  const ROBOT: Bytes := [114, 111, 98, 111, 116, 49] // robot1
  const EXTERNAL: Bytes := [101, 120, 116, 101, 114, 110, 97, 108, 95, 49] // external_1
  const BOX: Bytes := [98, 111, 120] // box

  // IEEE 754 doubles, lowest byte first.
  const D1: Double := [0, 0, 0, 0, 0, 0, 0xF0, 0x3F]
  const D2: Double := [0, 0, 0, 0, 0, 0, 0x00, 0x40]
  const D3: Double := [0, 0, 0, 0, 0, 0, 0x08, 0x40]
  const D4: Double := [0, 0, 0, 0, 0, 0, 0x10, 0x40]
  const D4_1: Double := [0x66, 0x66, 0x66, 0x66, 0x66, 0x66, 0x10, 0x40]
  const D4_2: Double := [0xCD, 0xCC, 0xCC, 0xCC, 0xCC, 0xCC, 0x10, 0x40]
  const D5: Double := [0, 0, 0, 0, 0, 0, 0x14, 0x40]
  const D5_1: Double := [0x66, 0x66, 0x66, 0x66, 0x66, 0x66, 0x14, 0x40]
  const D5_2: Double := [0xCD, 0xCC, 0xCC, 0xCC, 0xCC, 0xCC, 0x14, 0x40]
  const D6: Double := [0, 0, 0, 0, 0, 0, 0x18, 0x40]

  const FORCE := Vector(Force3d, [D4, D4_1, D4_2])
  const ACCELERATION := Vector(AngularAcceleration3d, [D5, D5_1, D5_2])
  const POSITION := Vector(Position, [D1, D2, D3])
  const ORIENTATION := Vector(Rpy, [D4, D5, D6])

  /** build_sensor_message(). */
  const CALLS: seq<Call> := [
    SelectObject(ROBOT), SetAngles([D1, D1]), SetVelocities([D1, D1]), SetTorques([D1, D1]),
    SelectSensor(EXTERNAL), Push(FORCE), Push(ACCELERATION),
    SelectObject(BOX), AddObjectSensor(POSITION), AddObjectSensor(ORIENTATION)]

  const ROBOT_OBJECT := ObjectV([D1, D1], [D1, D1], [D1, D1], [], map[EXTERNAL := [FORCE, ACCELERATION]])
  const BOX_OBJECT := ObjectV([], [], [], [POSITION, ORIENTATION], map[])
  const MESSAGE := MessageV(map[ROBOT := ROBOT_OBJECT, BOX := BOX_OBJECT], None)

  /** The chain type-checks. */
  lemma DemoChainTypeChecks()
    ensures StageAfter(CALLS).Some?
  {
    hide StageAfter;
    TypeChecksIff(CALLS);
  }

  lemma OneMoreCall(i: nat, b: Build, b': Build)
    requires i < |CALLS| && Run(CALLS[..i]) == Some(b) && Ready(b, CALLS[i]) && b' == Step(b, CALLS[i])
    ensures Run(CALLS[..i + 1]) == Some(b')
  {
    assert CALLS[..i + 1][..i] == CALLS[..i];
  }

  /** A build whose message has these objects and no time. */
  function With(objects: map<Bytes, ObjectV>, obj: Bytes, sen: Option<(Bytes, Bytes)>): Build {
    Build(MessageV(objects, None), Some(obj), sen)
  }

  lemma Overwrite<T>(key: Bytes, v: T, w: T)
    ensures map[key := v][key := w] == map[key := w]
  {
  }

  const O1 := NEW_OBJECT.(angles := [D1, D1])
  const O2 := O1.(velocities := [D1, D1])
  const O3 := O2.(torques := [D1, D1])
  const O4 := O3.(sensors := map[EXTERNAL := []])
  const O5 := O3.(sensors := map[EXTERNAL := [FORCE]])

  lemma ListsAreBuilt()
    ensures Run(CALLS[..4]) == Some(With(map[ROBOT := O3], ROBOT, None))
  {
    hide Run;
    assert Run(CALLS[..0]) == Some(START) by { NoCalls(); }
    var b1, b2 := With(map[ROBOT := NEW_OBJECT], ROBOT, None), With(map[ROBOT := O1], ROBOT, None);
    var b3, b4 := With(map[ROBOT := O2], ROBOT, None), With(map[ROBOT := O3], ROBOT, None);
    OneMoreCall(0, START, b1);
    Overwrite(ROBOT, NEW_OBJECT, O1);
    OneMoreCall(1, b1, b2);
    Overwrite(ROBOT, O1, O2);
    OneMoreCall(2, b2, b3);
    Overwrite(ROBOT, O2, O3);
    OneMoreCall(3, b3, b4);
  }

  lemma RobotIsBuilt()
    ensures Run(CALLS[..7]) == Some(With(map[ROBOT := ROBOT_OBJECT], ROBOT, Some((ROBOT, EXTERNAL))))
  {
    hide Run;
    ListsAreBuilt();
    var sen := Some((ROBOT, EXTERNAL));
    var b4, b5 := With(map[ROBOT := O3], ROBOT, None), With(map[ROBOT := O4], ROBOT, sen);
    assert Step(b4, SelectSensor(EXTERNAL)) == b5 by { Overwrite(ROBOT, O3, O4); }
    OneMoreCall(4, b4, b5);
    SensorIsBuilt(b5);
  }

  lemma SensorIsBuilt(b5: Build)
    requires Run(CALLS[..5]) == Some(b5) && b5 == With(map[ROBOT := O4], ROBOT, Some((ROBOT, EXTERNAL)))
    ensures Run(CALLS[..7]) == Some(With(map[ROBOT := ROBOT_OBJECT], ROBOT, Some((ROBOT, EXTERNAL))))
  {
    hide Run;
    var sen := Some((ROBOT, EXTERNAL));
    var b6, b7 := With(map[ROBOT := O5], ROBOT, sen), With(map[ROBOT := ROBOT_OBJECT], ROBOT, sen);
    assert Step(b5, Push(FORCE)) == b6 by {
      assert O4.sensors[EXTERNAL] + [FORCE] == [FORCE];
      Overwrite(EXTERNAL, [], [FORCE]);
      Overwrite(ROBOT, O4, O5);
    }
    OneMoreCall(5, b5, b6);
    assert Step(b6, Push(ACCELERATION)) == b7 by {
      assert O5.sensors[EXTERNAL] + [ACCELERATION] == [FORCE, ACCELERATION];
      Overwrite(EXTERNAL, [FORCE], [FORCE, ACCELERATION]);
      Overwrite(ROBOT, O5, ROBOT_OBJECT);
    }
    OneMoreCall(6, b6, b7);
  }

  lemma NoCalls()
    ensures Run(CALLS[..0]) == Some(START)
  {
  }

  lemma OverwriteSecond<T>(k: Bytes, x: T, key: Bytes, v: T, w: T)
    requires k != key
    ensures map[k := x][key := v] == map[k := x, key := v]
    ensures map[k := x, key := v][key := w] == map[k := x, key := w]
  {
  }

  /** What the chain builds. */
  lemma DemoMessageIsBuilt()
    ensures Run(CALLS).Some? && Run(CALLS).value.m == MESSAGE
  {
    hide Run;
    RobotIsBuilt();
    var sen := Some((ROBOT, EXTERNAL));
    var o := NEW_OBJECT.(objectSensors := [POSITION]);
    var b7 := With(map[ROBOT := ROBOT_OBJECT], ROBOT, sen);
    var b8 := With(map[ROBOT := ROBOT_OBJECT, BOX := NEW_OBJECT], BOX, sen);
    var b9 := With(map[ROBOT := ROBOT_OBJECT, BOX := o], BOX, sen);
    OverwriteSecond(ROBOT, ROBOT_OBJECT, BOX, NEW_OBJECT, o);
    OneMoreCall(7, b7, b8);
    assert [] + [POSITION] == [POSITION] && [POSITION] + [ORIENTATION] == [POSITION, ORIENTATION];
    OneMoreCall(8, b8, b9);
    OverwriteSecond(ROBOT, ROBOT_OBJECT, BOX, o, BOX_OBJECT);
    OneMoreCall(9, b9, With(MESSAGE.objects, BOX, sen));
    assert CALLS[..10] == CALLS;
  }

  // ---------------------------------------------------------------- it can be sent

  lemma {:induction false} AsciiIsValid(s: Bytes)
    requires forall i | 0 <= i < |s| :: s[i] < 128
    ensures ValidUtf8(s)
  {
    if s != [] {
      AsciiIsValid(s[1..]);
    }
  }

  lemma DemoMessageIsFine()
    ensures IsFine(MESSAGE)
  {
    hide ValidUtf8;
    AsciiIsValid(ROBOT);
    AsciiIsValid(EXTERNAL);
    AsciiIsValid(BOX);
  }

  lemma DelimitedIsShort(tag: Byte, data: Bytes)
    requires |data| < 16384
    ensures |Layout.Delimited(tag, data)| <= |data| + 3
  {
    assert Pow128(2) == 16384;
    VarintLength(|data|, 2);
  }

  lemma DoublesAreShort(tag: Byte, xs: seq<Double>)
    requires |xs| < 100
    ensures |Layout.Doubles(tag, xs)| <= 8 * |xs| + 3
  {
    Layout.JoinedDoubles(xs);
    DelimitedIsShort(tag, Layout.Joined(xs));
  }

  lemma VectorIsShort(r: Reading)
    requires r.Vector? && WellTyped(r) && |r.arr| == 3
    ensures |SensorBytes.ReadingBytes(r)| <= 30
  {
    hide Layout.Delimited, Layout.Doubles;
    DoublesAreShort(0x0A, r.arr);
    forall tag ensures |Layout.Delimited(tag, SensorBytes.VectorBytes(r.arr))| <= 30 {
      DelimitedIsShort(tag, SensorBytes.VectorBytes(r.arr));
    }
  }

  lemma TwoAreShort(tag: Byte, r: Reading, r': Reading)
    requires r.Vector? && WellTyped(r) && |r.arr| == 3 && r'.Vector? && WellTyped(r') && |r'.arr| == 3
    ensures |SensorBytes.ListBytes(tag, [r, r'])| <= 66
  {
    hide Layout.Delimited, SensorBytes.ReadingBytes;
    var items := SensorBytes.AllReadingBytes([r, r']);
    VectorIsShort(r);
    VectorIsShort(r');
    DelimitedIsShort(tag, items[0]);
    DelimitedIsShort(tag, items[1]);
    assert items == [items[0], items[1]];
    EachOfTwo(tag, items[0], items[1]);
  }

  lemma EachOfTwo(tag: Byte, a: Bytes, b: Bytes)
    ensures Layout.Each(tag, [a, b]) == Layout.Delimited(tag, a) + Layout.Delimited(tag, b)
  {
    hide Layout.Delimited;
    assert [a, b][1..] == [b] && [b][1..] == [];
    assert Layout.Each(tag, [b]) == Layout.Delimited(tag, b) + [];
  }

  lemma {:induction false} EntriesAreShort(tag: Byte, keys: seq<Bytes>, value: (Bytes, nat) -> Bytes,
                                           bound: nat)
    requires bound <= 303 && |keys| <= 2 && forall i | 0 <= i < |keys| :: |keys[i]| < 100
    requires forall i, n | 0 <= i < |keys| :: |value(keys[i], n)| <= bound
    ensures |Layout.Entries(tag, keys, value)|
         <= if keys == [] then 0 else if |keys| == 1 then bound + 106 else 2 * bound + 212
    decreases |keys|
  {
    hide Layout.Delimited;
    if keys != [] {
      assert |value(keys[0], |keys|)| <= bound;
      DelimitedIsShort(10, keys[0]);
      DelimitedIsShort(tag, Layout.Delimited(10, keys[0]) + value(keys[0], |keys|));
      EntriesAreShort(tag, keys[1..], value, bound);
    }
  }

  lemma RobotIsShort(path: seq<nat>, ord: Order)
    ensures |SensorBytes.ObjectBytes(ROBOT_OBJECT, path, ord)| <= 300
  {
    hide Layout.Doubles, Layout.Delimited, SensorBytes.ListBytes;
    var sensors := map[EXTERNAL := [FORCE, ACCELERATION]];
    var es := SensorEntries(sensors);
    var keys, value := ord(path + [6], es), SensorBytes.SensorValueBytes(sensors);
    assert IsListing(keys, es.Keys);
    Texts.OneListed(keys, EXTERNAL);
    DoublesAreShort(0x0A, [D1, D1]);
    DoublesAreShort(0x12, [D1, D1]);
    DoublesAreShort(0x1A, [D1, D1]);
    TwoAreShort(0x0A, FORCE, ACCELERATION);
    DelimitedIsShort(0x12, SensorBytes.ListBytes(0x0A, [FORCE, ACCELERATION]));
    EntriesAreShort(0x32, keys, value, 69);
    assert SensorBytes.ListBytes(0x22, []) == [] by { NoReadings(); }
  }

  lemma NoReadings()
    ensures SensorBytes.ListBytes(0x22, []) == []
  {
  }

  lemma BoxIsShort(path: seq<nat>, ord: Order)
    ensures |SensorBytes.ObjectBytes(BOX_OBJECT, path, ord)| <= 300
  {
    hide Layout.Delimited, SensorBytes.ListBytes;
    var es := SensorEntries(map[]);
    assert IsListing(ord(path + [6], es), es.Keys);
    Layout.FirstListed(ord(path + [6], es), {});
    TwoAreShort(0x22, POSITION, ORIENTATION);
  }

  lemma DemoMessageIsShort(ord: Order)
    ensures |Serialize(SensorMsg, MessageMsg(MESSAGE), ord)| <= 10000
  {
    hide Serialize, MessageMsg, SensorBytes.ObjectValueBytes, Layout.Entries, ObjectEntries, IsListing;
    TwoObjects();
    SensorBytes.SensorMessageWritten(MESSAGE, ord);
    var es := ObjectEntries(MESSAGE.objects);
    var keys, value := ord([3], es), SensorBytes.ObjectValueBytes(MESSAGE.objects, ord);
    assert IsListing(keys, es.Keys);
    MessageObject.KeyCount(keys, {ROBOT, BOX});
    OnlyListed(keys, {ROBOT, BOX});
    forall i, n: nat | 0 <= i < |keys| ensures |value(keys[i], n)| <= 303 {
      ObjectIsShort(keys[i], n, ord);
    }
    EntriesAreShort(0x1A, keys, value, 303);
  }

  lemma TwoObjects()
    ensures ObjectEntries(MESSAGE.objects).Keys == {ROBOT, BOX} && |{ROBOT, BOX}| == 2
  {
  }

  lemma OnlyListed(keys: seq<Bytes>, s: set<Bytes>)
    requires IsListing(keys, s)
    ensures forall i | 0 <= i < |keys| :: keys[i] in s
  {
  }

  lemma ObjectIsShort(key: Bytes, n: nat, ord: Order)
    requires key in {ROBOT, BOX}
    ensures |SensorBytes.ObjectValueBytes(MESSAGE.objects, ord)(key, n)| <= 303
  {
    hide Layout.Delimited, SensorBytes.ObjectBytes;
    RobotIsShort([3, n], ord);
    BoxIsShort([3, n], ord);
    DelimitedIsShort(0x12, SensorBytes.ObjectBytes(MESSAGE.objects[key], [3, n], ord));
  }

  /** The demo can send its message, in whatever order its maps are iterated. */
  lemma DemoMessageCanBeSent(ord: Order)
    ensures DemoServer.IsSensorReply(MessageMsg(MESSAGE), ord)
  {
    hide Serialize, MessageMsg, Ok, IsFine;
    DemoMessageIsFine();
    MessageOk(MESSAGE);
    SensorFidelity.TypeOfMessage(MESSAGE);
    DemoMessageIsShort(ord);
  }

  // ---------------------------------------------------------------- what is read in it

  ghost predicate ReadsAsDemo(x: Msg) {
    && (forall w :: SensorFidelity.ListRead(x, ROBOT, w) == Some([D1, D1]))
    && SensorReadings(x, ROBOT, EXTERNAL)
       == Got([Tagged(Force3DType, Vec3Value(D4, D4_1, D4_2)),
               Tagged(AngularAcceleration3DType, Vec3Value(D5, D5_1, D5_2))])
    && ObjectVectors.ObjectVector(x, BOX, Position) == Got(Vec3Value(D1, D2, D3))
    && ObjectVectors.ObjectVector(x, BOX, Rpy) == Got(Vec3Value(D4, D5, D6))
  }

  lemma DemoMessageReads()
    ensures ReadsAsDemo(MessageMsg(MESSAGE))
  {
    hide MessageMsg, SensorReadings, ObjectVectors.ObjectVector, SensorFidelity.ListRead;
    forall w ensures SensorFidelity.ListRead(MessageMsg(MESSAGE), ROBOT, w) == Some([D1, D1]) {
      SensorFidelity.ListReadsBack(MESSAGE, ROBOT, w);
    }
    SensorReads();
    BoxReads();
  }

  lemma SensorReads()
    ensures SensorReadings(MessageMsg(MESSAGE), ROBOT, EXTERNAL)
         == Got([Tagged(Force3DType, Vec3Value(D4, D4_1, D4_2)),
                 Tagged(AngularAcceleration3DType, Vec3Value(D5, D5_1, D5_2))])
  {
    hide MessageMsg, ReadingMsgs, DecodeAll;
    ListOfMessage(MESSAGE, ROBOT, EXTERNAL);
    DecodePushes([FORCE, ACCELERATION]);
    assert TaggedAll([FORCE, ACCELERATION]) == [TaggedFor(FORCE), TaggedFor(ACCELERATION)];
  }

  lemma BoxReads()
    ensures ObjectVectors.ObjectVector(MessageMsg(MESSAGE), BOX, Position) == Got(Vec3Value(D1, D2, D3))
    ensures ObjectVectors.ObjectVector(MessageMsg(MESSAGE), BOX, Rpy) == Got(Vec3Value(D4, D5, D6))
  {
    hide MessageMsg, ReadingMsgs, ObjectVectors.FirstIn;
    ObjectVectors.ListOfObject(MESSAGE, BOX);
    ObjectVectors.FirstOfReadings([POSITION, ORIENTATION], Position);
    ObjectVectors.FirstOfReadings([POSITION, ORIENTATION], Rpy);
    assert [POSITION, ORIENTATION][1..] == [ORIENTATION];
  }

  /** Client, network and demo server with this message: a request that reports a control message is
      answered with it, and the client reads in it what the demo put there. */
  lemma ClientReadsDemoSensors(events: seq<ReqRep.Event>, pasts: nat -> Past, ord: Order, past: Past, k: nat)
    requires DemoServer.DemoServes(events, pasts, MessageMsg(MESSAGE), ord)
    requires k < |ReqRep.Run(events).learned|
    ensures var s := ReqRep.Run(events);
            && k < |s.asked|
            && var o := FromBytes(s.asked[k], pasts(k));
               !o.Unknown? && (Reported(o) == 2 ==>
                 var reply := FromBytes(s.learned[k].1, past);
                 reply.Decoded? && reply.c == SensorMsg && ReadsAsDemo(reply.m))
  {
    hide ReqRep.Run, FromBytes, Reported, DemoServer.DemoServes, Serialize, MessageMsg, ReadsAsDemo,
         DemoServer.IsSensorReply;
    DemoMessageCanBeSent(ord);
    DemoMessageReads();
    DemoServer.ClientGetsDemoReply(events, pasts, MessageMsg(MESSAGE), ord, past, k);
  }
}
