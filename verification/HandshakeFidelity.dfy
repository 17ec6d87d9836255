/** A handshake from the builder's calls, over the wire, to its readers. */
module HandshakeFidelity {
  import opened Wire
  import opened Utf8
  import opened Schema
  import opened Codec
  import opened ParseLaws
  import opened Dispatch
  import opened HandshakeBuilder

  // ---------------------------------------------------------------- as message objects

  function NameNumber(w: NameList): FieldNum {
    match w
    case Controls => 1
    case Joints => 7
  }

  function TypeNumber(k: TypeList): FieldNum {
    match k
    case ControlTypes => 8
    case JointSensors => 2
    case ObjectSensors => 6
  }

  function EventEntries(events: map<Bytes, Int32>): map<Bytes, Val> {
    map name | name in events :: VInt(events[name])
  }

  function SensorsMsg(types: seq<Int32>): Msg {
    Store(EMPTY, 1, VInts(types))
  }

  function SensorEntries(sensors: map<Bytes, seq<Int32>>): map<Bytes, Val> {
    map name | name in sensors :: VMsg(SensorsMsg(sensors[name]))
  }

  function RobotMsg(o: RobotV): Msg {
    var m := Store(EMPTY, 1, VStrings(o.controls));
    var m := Store(m, 8, VInts(o.controlTypes));
    var m := Store(m, 7, VStrings(o.joints));
    var m := Store(m, 2, VInts(o.jointSensors));
    var m := Store(m, 6, VInts(o.objectSensors));
    var m := Store(m, 3, VMap(EventEntries(o.events)));
    Store(m, 4, VMap(SensorEntries(o.sensors)))
  }

  function RobotEntries(objects: map<Bytes, RobotV>): map<Bytes, Val> {
    map name | name in objects :: VMsg(RobotMsg(objects[name]))
  }

  /** What `builder()` starts from: the type and the current version. */
  const HEADER := Put(Put(EMPTY, 1, VInt(1)), 2, VInt(1))

  /** The message object that a builder's contents amount to. */
  function MessageMsg(m: MessageV): Msg {
    var x := Store(HEADER, 3, VInt(m.controlType));
    var x := Store(x, 4, VMap(RobotEntries(m.objects)));
    if m.timeStep.Some? then Put(x, 5, VMsg(Store(EMPTY, 1, VDouble(m.timeStep.value)))) else x
  }

  ghost predicate RobotIsFine(o: RobotV) {
    && (forall s | s in o.controls :: ValidUtf8(s))
    && (forall s | s in o.joints :: ValidUtf8(s))
    && (forall e | e in o.events :: ValidUtf8(e))
    && (forall s | s in o.sensors :: ValidUtf8(s))
  }

  ghost predicate IsFine(m: MessageV) {
    forall name | name in m.objects :: ValidUtf8(name) && RobotIsFine(m.objects[name])
  }

  lemma ListsOk(o: RobotV, depth: nat)
    requires depth >= 1 && RobotIsFine(o)
    ensures forall w :: IsDefault(VStrings(Names(o, w))) || ValOk(Strings, depth, VStrings(Names(o, w)))
    ensures forall k :: IsDefault(VInts(Types(o, k))) || ValOk(PackedInts, depth, VInts(Types(o, k)))
    ensures IsDefault(VMap(EventEntries(o.events))) || ValOk(MapField(IntValue), depth, VMap(EventEntries(o.events)))
  {
    hide ValidUtf8;
  }

  lemma SensorsOk(sensors: map<Bytes, seq<Int32>>, depth: nat)
    requires depth >= 3 && forall s | s in sensors :: ValidUtf8(s)
    ensures IsDefault(VMap(SensorEntries(sensors)))
         || ValOk(MapField(MessageValue(HandshakeSensors)), depth, VMap(SensorEntries(sensors)))
  {
    hide Ok, ValidUtf8, SensorsMsg;
    forall s | s in sensors ensures EntryOk(MessageValue(HandshakeSensors), depth - 1, VMsg(SensorsMsg(sensors[s]))) {
      TypesMsgOk(sensors[s], depth - 2);
    }
  }

  lemma TypesMsgOk(types: seq<Int32>, depth: nat)
    ensures Ok(HandshakeSensors, depth, SensorsMsg(types))
  {
    hide Ok;
    EmptyOk(HandshakeSensors, depth);
    StoreOk(HandshakeSensors, depth, EMPTY, 1, VInts(types));
  }

  lemma RobotOk(o: RobotV, depth: nat)
    requires depth >= 3 && RobotIsFine(o)
    ensures Ok(HandshakeObject, depth, RobotMsg(o))
  {
    hide Ok, ValOk, EventEntries, SensorEntries, Store, IsDefault, ValidUtf8;
    EmptyOk(HandshakeObject, depth);
    ListsOk(o, depth);
    SensorsOk(o.sensors, depth);
    assert Names(o, Controls) == o.controls && Names(o, Joints) == o.joints;
    assert Types(o, ControlTypes) == o.controlTypes && Types(o, JointSensors) == o.jointSensors;
    assert Types(o, ObjectSensors) == o.objectSensors;
    var m := EMPTY;
    StoreOk(HandshakeObject, depth, m, 1, VStrings(o.controls));
    m := Store(m, 1, VStrings(o.controls));
    StoreOk(HandshakeObject, depth, m, 8, VInts(o.controlTypes));
    m := Store(m, 8, VInts(o.controlTypes));
    StoreOk(HandshakeObject, depth, m, 7, VStrings(o.joints));
    m := Store(m, 7, VStrings(o.joints));
    StoreOk(HandshakeObject, depth, m, 2, VInts(o.jointSensors));
    m := Store(m, 2, VInts(o.jointSensors));
    StoreOk(HandshakeObject, depth, m, 6, VInts(o.objectSensors));
    m := Store(m, 6, VInts(o.objectSensors));
    StoreOk(HandshakeObject, depth, m, 3, VMap(EventEntries(o.events)));
    m := Store(m, 3, VMap(EventEntries(o.events)));
    StoreOk(HandshakeObject, depth, m, 4, VMap(SensorEntries(o.sensors)));
  }

  lemma RobotEntriesOk(objects: map<Bytes, RobotV>, depth: nat)
    requires depth >= 6 && forall name | name in objects :: ValidUtf8(name) && RobotIsFine(objects[name])
    ensures IsDefault(VMap(RobotEntries(objects)))
         || ValOk(MapField(MessageValue(HandshakeObject)), depth, VMap(RobotEntries(objects)))
  {
    hide Ok, ValidUtf8, RobotMsg, RobotIsFine;
    forall name | name in objects
      ensures EntryOk(MessageValue(HandshakeObject), depth - 1, VMsg(RobotMsg(objects[name])))
    {
      RobotOk(objects[name], depth - 2);
    }
  }

  /** Whatever a builder holds is a well-formed handshake. */
  lemma MessageOk(m: MessageV)
    requires IsFine(m)
    ensures Ok(Handshake, MAX_DEPTH, MessageMsg(m))
  {
    hide Ok, RobotEntries, Store, Put, RobotIsFine;
    var d := MAX_DEPTH;
    EmptyOk(Handshake, d);
    PutOk(Handshake, d, EMPTY, 1, VInt(1));
    PutOk(Handshake, d, Put(EMPTY, 1, VInt(1)), 2, VInt(1));
    StoreOk(Handshake, d, HEADER, 3, VInt(m.controlType));
    var x := Store(HEADER, 3, VInt(m.controlType));
    RobotEntriesOk(m.objects, d);
    StoreOk(Handshake, d, x, 4, VMap(RobotEntries(m.objects)));
    if m.timeStep.Some? {
      EmptyOk(SimulationSettings, d - 1);
      StoreOk(SimulationSettings, d - 1, EMPTY, 1, VDouble(m.timeStep.value));
      PutOk(Handshake, d, Store(x, 4, VMap(RobotEntries(m.objects))), 5,
            VMsg(Store(EMPTY, 1, VDouble(m.timeStep.value))));
    }
  }

  // ---------------------------------------------------------------- readers; None where `at` throws

  function RobotIn(m: Msg, name: Bytes): Option<Msg> {
    MsgAt(EntriesOf(m, 4), name)
  }

  /** controlsInOrder(name), jointSensorsInOrder(name). */
  function NamesOf(m: Msg, name: Bytes, w: NameList): Option<seq<Bytes>> {
    match RobotIn(m, name)
    case None => None
    case Some(o) => Some(StringsOf(o, NameNumber(w)))
  }

  /** controlTypesInOrder(name), jointSensors(name), objectSensors(name). */
  function TypesOf(m: Msg, name: Bytes, k: TypeList): Option<seq<Int32>> {
    match RobotIn(m, name)
    case None => None
    case Some(o) => Some(IntsOf(o, TypeNumber(k)))
  }

  /** sensors(name, sensor). */
  function SensorTypesOf(m: Msg, name: Bytes, sensor: Bytes): Option<seq<Int32>> {
    match RobotIn(m, name)
    case None => None
    case Some(o) =>
      match MsgAt(EntriesOf(o, 4), sensor)
      case None => None
      case Some(s) => Some(IntsOf(s, 1))
  }

  /** controlEvent(name, event). */
  function EventOf(m: Msg, name: Bytes, event: Bytes): Option<Int32> {
    match RobotIn(m, name)
    case None => None
    case Some(o) =>
      var es := EntriesOf(o, 3);
      if event in es && es[event].VInt? then Some(es[event].i) else None
  }

  /** controlEvents(name): each name once, in the order of the map. */
  function EventNames(m: Msg, name: Bytes): Option<set<Bytes>> {
    match RobotIn(m, name)
    case None => None
    case Some(o) => Some(EntriesOf(o, 3).Keys)
  }

  /** objects(): each name once, in the order of the map. */
  function RobotNamesIn(m: Msg): set<Bytes> {
    EntriesOf(m, 4).Keys
  }

  /** simulationSettings().timeStep: zero where the settings are absent. */
  function TimeStepOf(m: Msg): Double {
    DoubleOf(MsgOf(m, 5), 1)
  }

  lemma ReadsRobot(m: MessageV, name: Bytes)
    ensures RobotIn(MessageMsg(m), name) == if name in m.objects then Some(RobotMsg(m.objects[name])) else None
    ensures IntOf(MessageMsg(m), 1) == 1 && IntOf(MessageMsg(m), 2) == 1 && IntOf(MessageMsg(m), 3) == m.controlType
    ensures RobotNamesIn(MessageMsg(m)) == m.objects.Keys
  {
    hide RobotMsg;
    assert EntriesOf(MessageMsg(m), 4) == RobotEntries(m.objects);
  }

  lemma ReadsTimeStep(m: MessageV)
    ensures TimeStepOf(MessageMsg(m)) == if m.timeStep.Some? then m.timeStep.value else ZERO
  {
    hide RobotEntries;
  }

  lemma RobotNames(o: RobotV, w: NameList)
    ensures StringsOf(RobotMsg(o), NameNumber(w)) == Names(o, w)
  {
    hide EventEntries, SensorEntries;
  }

  lemma RobotTypes(o: RobotV, k: TypeList)
    ensures IntsOf(RobotMsg(o), TypeNumber(k)) == Types(o, k)
  {
    hide EventEntries, SensorEntries;
  }

  lemma RobotMaps(o: RobotV)
    ensures EntriesOf(RobotMsg(o), 3) == EventEntries(o.events)
    ensures EntriesOf(RobotMsg(o), 4) == SensorEntries(o.sensors)
  {
  }

  lemma ReadsBack(m: MessageV, name: Bytes)
    ensures name !in m.objects ==> RobotIn(MessageMsg(m), name).None?
    ensures name in m.objects ==>
              var o, x := m.objects[name], MessageMsg(m);
              && (forall w :: NamesOf(x, name, w) == Some(Names(o, w)))
              && (forall k :: TypesOf(x, name, k) == Some(Types(o, k)))
              && EventNames(x, name) == Some(o.events.Keys)
              && (forall e :: EventOf(x, name, e) == if e in o.events then Some(o.events[e]) else None)
              && (forall s :: SensorTypesOf(x, name, s) == if s in o.sensors then Some(o.sensors[s]) else None)
  {
    hide MessageMsg, RobotMsg;
    ReadsRobot(m, name);
    if name in m.objects {
      forall w ensures StringsOf(RobotMsg(m.objects[name]), NameNumber(w)) == Names(m.objects[name], w) {
        RobotNames(m.objects[name], w);
      }
      forall k ensures IntsOf(RobotMsg(m.objects[name]), TypeNumber(k)) == Types(m.objects[name], k) {
        RobotTypes(m.objects[name], k);
      }
      RobotMaps(m.objects[name]);
      assert EventEntries(m.objects[name].events).Keys == m.objects[name].events.Keys;
    }
  }

  // ---------------------------------------------------------------- what a chain of calls amounts to

  function RobotAt(calls: seq<Call>): Option<Bytes> {
    if calls == [] then None
    else
      var last := calls[|calls| - 1];
      if last.SelectRobot? then Some(last.name) else RobotAt(calls[..|calls| - 1])
  }

  function SensorAt(calls: seq<Call>): Option<(Bytes, Bytes)> {
    if calls == [] then None
    else
      var n := |calls| - 1;
      if calls[n].SelectSensor? && RobotAt(calls[..n]).Some? then Some((RobotAt(calls[..n]).value, calls[n].name))
      else SensorAt(calls[..n])
  }

  /** A string list is the one assigned last. */
  function LastNames(calls: seq<Call>, robot: Bytes, w: NameList): seq<Bytes> {
    if calls == [] then []
    else
      var n := |calls| - 1;
      if calls[n].AssignNames? && calls[n].w == w && RobotAt(calls[..n]) == Some(robot) then calls[n].names
      else LastNames(calls[..n], robot, w)
  }

  /** A type list is everything ever appended to it. */
  function AllTypes(calls: seq<Call>, robot: Bytes, k: TypeList): seq<Int32> {
    if calls == [] then []
    else
      var n := |calls| - 1;
      AllTypes(calls[..n], robot, k)
      + if calls[n].AppendTypes? && calls[n].k == k && RobotAt(calls[..n]) == Some(robot) then calls[n].order else []
  }

  /** A sensor, once selected, has everything ever appended to it; selecting it again clears nothing. */
  function AllSensorTypes(calls: seq<Call>, robot: Bytes, sensor: Bytes): Option<seq<Int32>> {
    if calls == [] then None
    else
      var n := |calls| - 1;
      var before := AllSensorTypes(calls[..n], robot, sensor);
      if before.None? then
        if calls[n] == SelectSensor(sensor) && RobotAt(calls[..n]) == Some(robot) then Some([]) else None
      else if calls[n].AppendSensorTypes? && SensorAt(calls[..n]) == Some((robot, sensor)) then
        Some(before.value + calls[n].order)
      else before
  }

  function LastEvent(calls: seq<Call>, robot: Bytes, event: Bytes): Option<Int32> {
    if calls == [] then None
    else
      var n := |calls| - 1;
      if calls[n].SetEvent? && calls[n].name == event && RobotAt(calls[..n]) == Some(robot) then Some(calls[n].v)
      else LastEvent(calls[..n], robot, event)
  }

  function LastControlType(calls: seq<Call>): Int32 {
    if calls == [] then 0
    else
      var last := calls[|calls| - 1];
      if last.SetControlType? then last.v else LastControlType(calls[..|calls| - 1])
  }

  function LastTimeStep(calls: seq<Call>): Double {
    if calls == [] then ZERO
    else
      var last := calls[|calls| - 1];
      if last.SetTimeStep? then last.t else LastTimeStep(calls[..|calls| - 1])
  }

  lemma {:induction false} CursorsAre(calls: seq<Call>)
    requires Run(calls).Some?
    ensures var b := Run(calls).value;
            && b.obj == RobotAt(calls) && b.sen == SensorAt(calls)
            && b.m.controlType == LastControlType(calls)
            && (if b.m.timeStep.Some? then b.m.timeStep.value else ZERO) == LastTimeStep(calls)
  {
    if calls != [] {
      CursorsAre(calls[..|calls| - 1]);
    }
  }

  lemma {:induction false} RobotsAre(calls: seq<Call>, robot: Bytes)
    requires Run(calls).Some?
    ensures robot in Run(calls).value.m.objects <==> SelectRobot(robot) in calls
  {
    if calls != [] {
      var n := |calls| - 1;
      RobotsAre(calls[..n], robot);
      assert calls == calls[..n] + [calls[n]];
    }
  }

  function NamesIn(b: Build, robot: Bytes, w: NameList): seq<Bytes> {
    if robot in b.m.objects then Names(b.m.objects[robot], w) else []
  }

  function TypesFor(b: Build, robot: Bytes, k: TypeList): seq<Int32> {
    if robot in b.m.objects then Types(b.m.objects[robot], k) else []
  }

  /** A call changes a list only if it is for that list of that robot. */
  lemma ListsAfter(b: Build, call: Call, robot: Bytes, w: NameList, k: TypeList)
    requires Ready(b, call)
    ensures NamesIn(Step(b, call), robot, w)
         == if call.AssignNames? && call.w == w && b.obj == Some(robot) then call.names else NamesIn(b, robot, w)
    ensures TypesFor(Step(b, call), robot, k)
         == TypesFor(b, robot, k)
            + if call.AppendTypes? && call.k == k && b.obj == Some(robot) then call.order else []
  {
    assert TypesFor(b, robot, k) + [] == TypesFor(b, robot, k);
  }

  lemma {:induction false} ListsAre(calls: seq<Call>, robot: Bytes, w: NameList, k: TypeList)
    requires Run(calls).Some?
    ensures LastNames(calls, robot, w) == NamesIn(Run(calls).value, robot, w)
    ensures AllTypes(calls, robot, k) == TypesFor(Run(calls).value, robot, k)
  {
    hide Step, Ready, NamesIn, TypesFor;
    if calls != [] {
      var n := |calls| - 1;
      ListsAre(calls[..n], robot, w, k);
      CursorsAre(calls[..n]);
      ListsAfter(Run(calls[..n]).value, calls[n], robot, w, k);
    } else {
      NothingYet(robot, w, k);
    }
  }

  lemma NothingYet(robot: Bytes, w: NameList, k: TypeList)
    ensures NamesIn(START, robot, w) == [] && TypesFor(START, robot, k) == []
  {
  }

  lemma {:induction false} MapsAre(calls: seq<Call>, robot: Bytes, event: Bytes, sensor: Bytes)
    requires Run(calls).Some?
    ensures var os := Run(calls).value.m.objects;
            && LastEvent(calls, robot, event)
               == (if robot in os && event in os[robot].events then Some(os[robot].events[event]) else None)
            && AllSensorTypes(calls, robot, sensor)
               == (if robot in os && sensor in os[robot].sensors then Some(os[robot].sensors[sensor]) else None)
  {
    if calls != [] {
      MapsAre(calls[..|calls| - 1], robot, event, sensor);
      CursorsAre(calls[..|calls| - 1]);
    }
  }

  // ---------------------------------------------------------------- end to end

  predicate CallIsFine(call: Call) {
    match call
    case SelectRobot(name) => ValidUtf8(name)
    case SelectSensor(name) => ValidUtf8(name)
    case SetEvent(name, _) => ValidUtf8(name)
    case AssignNames(_, names) => forall s | s in names :: ValidUtf8(s)
    case _ => true
  }

  lemma StepIsFine(b: Build, call: Call)
    requires Ready(b, call) && IsFine(b.m) && CallIsFine(call)
    ensures IsFine(Step(b, call).m)
  {
    hide ValidUtf8;
    var m' := Step(b, call).m;
    forall k | k in m'.objects ensures ValidUtf8(k) && RobotIsFine(m'.objects[k]) {
      if k in b.m.objects {
        assert RobotIsFine(b.m.objects[k]);
      }
    }
  }

  lemma {:induction false} RunIsFine(calls: seq<Call>)
    requires Run(calls).Some? && forall c | c in calls :: CallIsFine(c)
    ensures IsFine(Run(calls).value.m)
  {
    hide CallIsFine, Step, Ready;
    if calls != [] {
      RunIsFine(calls[..|calls| - 1]);
      StepIsFine(Run(calls[..|calls| - 1]).value, calls[|calls| - 1]);
    }
  }

  /** What every reader finds in the message a chain of calls builds. */
  ghost predicate ReadsAsCalled(calls: seq<Call>, x: Msg) {
    && IntOf(x, 3) == LastControlType(calls)
    && TimeStepOf(x) == LastTimeStep(calls)
    && (forall robot | SelectRobot(robot) !in calls :: RobotIn(x, robot).None?)
    && (forall robot, w | SelectRobot(robot) in calls :: NamesOf(x, robot, w) == Some(LastNames(calls, robot, w)))
    && (forall robot, k | SelectRobot(robot) in calls :: TypesOf(x, robot, k) == Some(AllTypes(calls, robot, k)))
    && (forall robot :: robot in RobotNamesIn(x) <==> SelectRobot(robot) in calls)
    && (forall robot, event :: EventOf(x, robot, event) == LastEvent(calls, robot, event))
    && (forall robot :: EventNames(x, robot).Some? <==> SelectRobot(robot) in calls)
    && (forall robot, event | SelectRobot(robot) in calls ::
          event in EventNames(x, robot).value <==> LastEvent(calls, robot, event).Some?)
    && (forall robot, sensor :: SensorTypesOf(x, robot, sensor) == AllSensorTypes(calls, robot, sensor))
  }

  lemma BuiltReadsAsCalled(calls: seq<Call>)
    requires Run(calls).Some?
    ensures ReadsAsCalled(calls, MessageMsg(Run(calls).value.m))
  {
    hide Run, MessageMsg, RobotAt, SensorAt, LastNames, AllTypes, LastEvent, AllSensorTypes, LastControlType,
         LastTimeStep, TimeStepOf;
    var m := Run(calls).value.m;
    CursorsAre(calls);
    ReadsTimeStep(m);
    ReadsRobot(m, []);
    forall robot
      ensures SelectRobot(robot) !in calls ==> RobotIn(MessageMsg(m), robot).None?
      ensures forall w | SelectRobot(robot) in calls ::
                NamesOf(MessageMsg(m), robot, w) == Some(LastNames(calls, robot, w))
      ensures forall k | SelectRobot(robot) in calls ::
                TypesOf(MessageMsg(m), robot, k) == Some(AllTypes(calls, robot, k))
      ensures robot in RobotNamesIn(MessageMsg(m)) <==> SelectRobot(robot) in calls
      ensures EventNames(MessageMsg(m), robot).Some? <==> SelectRobot(robot) in calls
      ensures forall event | SelectRobot(robot) in calls ::
                event in EventNames(MessageMsg(m), robot).value <==> LastEvent(calls, robot, event).Some?
      ensures forall event :: EventOf(MessageMsg(m), robot, event) == LastEvent(calls, robot, event)
      ensures forall sensor :: SensorTypesOf(MessageMsg(m), robot, sensor) == AllSensorTypes(calls, robot, sensor)
    {
      OneRobotReads(calls, robot);
    }
  }

  lemma OneRobotReads(calls: seq<Call>, robot: Bytes)
    requires Run(calls).Some?
    ensures var x := MessageMsg(Run(calls).value.m);
            && (SelectRobot(robot) !in calls ==> RobotIn(x, robot).None?)
            && (forall w | SelectRobot(robot) in calls :: NamesOf(x, robot, w) == Some(LastNames(calls, robot, w)))
            && (forall k | SelectRobot(robot) in calls :: TypesOf(x, robot, k) == Some(AllTypes(calls, robot, k)))
            && (robot in RobotNamesIn(x) <==> SelectRobot(robot) in calls)
            && (EventNames(x, robot).Some? <==> SelectRobot(robot) in calls)
            && (forall event | SelectRobot(robot) in calls ::
                  event in EventNames(x, robot).value <==> LastEvent(calls, robot, event).Some?)
            && (forall event :: EventOf(x, robot, event) == LastEvent(calls, robot, event))
            && (forall sensor :: SensorTypesOf(x, robot, sensor) == AllSensorTypes(calls, robot, sensor))
  {
    hide Run, MessageMsg;
    var x := MessageMsg(Run(calls).value.m);
    RobotsAre(calls, robot);
    ReadsRobot(Run(calls).value.m, robot);
    ReadsBack(Run(calls).value.m, robot);
    forall w ensures SelectRobot(robot) in calls ==> NamesOf(x, robot, w) == Some(LastNames(calls, robot, w)) {
      ListsAre(calls, robot, w, ControlTypes);
    }
    forall k ensures SelectRobot(robot) in calls ==> TypesOf(x, robot, k) == Some(AllTypes(calls, robot, k)) {
      ListsAre(calls, robot, Controls, k);
    }
    forall event
      ensures EventOf(x, robot, event) == LastEvent(calls, robot, event)
      ensures SelectRobot(robot) in calls ==>
                (event in EventNames(x, robot).value <==> LastEvent(calls, robot, event).Some?)
    {
      MapsAre(calls, robot, event, []);
    }
    forall sensor ensures SensorTypesOf(x, robot, sensor) == AllSensorTypes(calls, robot, sensor) {
      MapsAre(calls, robot, [], sensor);
    }
  }

  /** For every chain through the staged interfaces and every map order: the handshake sent is the one
      received, of type 1 and version 1 whatever was called, and each reader gets what the calls say. */
  lemma HandshakeArrives(calls: seq<Call>, ord: Order, past: Past)
    requires StageAfter(calls).Some? && forall c | c in calls :: CallIsFine(c)
    requires Run(calls).Some? ==> |Serialize(Handshake, MessageMsg(Run(calls).value.m), ord)| <= MAX_LEN
    ensures Run(calls).Some?
    ensures var x := MessageMsg(Run(calls).value.m);
            && FromBytes(Serialize(Handshake, x, ord), past) == Decoded(Handshake, x)
            && IntOf(x, 1) == 1 && IntOf(x, 2) == 1
            && ReadsAsCalled(calls, x)
  {
    hide Serialize, Ok, FromBytes, MessageMsg, Run, CallIsFine, StageAfter, ReadsAsCalled;
    StagesSetTheCursors(calls);
    var m := Run(calls).value.m;
    RunIsFine(calls);
    MessageOk(m);
    TypeOfMessage(m);
    FromBytesUndoesSerialize(Handshake, MessageMsg(m), ord, past);
    ReadsRobot(m, []);
    BuiltReadsAsCalled(calls);
  }

  lemma TypeOfMessage(m: MessageV)
    ensures ClassOf(TypeOf(MessageMsg(m))) == Some(Handshake)
  {
    hide RobotEntries;
  }
}
