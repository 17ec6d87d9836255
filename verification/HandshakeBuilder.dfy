/** HandshakeMessageBuilder: a handshake under construction, edited through two pointers into its
    maps.  Some calls replace a list and some append to it, and reselecting keeps what is there. */
module HandshakeBuilder {
  import opened Wire

  /** The string lists, which are assigned, and the type lists, which are appended to. */
  datatype NameList = Controls | Joints
  datatype TypeList = ControlTypes | JointSensors | ObjectSensors

  datatype RobotV = RobotV(controls: seq<Bytes>, joints: seq<Bytes>,
                           controlTypes: seq<Int32>, jointSensors: seq<Int32>, objectSensors: seq<Int32>,
                           events: map<Bytes, Int32>, sensors: map<Bytes, seq<Int32>>)

  datatype MessageV = MessageV(controlType: Int32, timeStep: Option<Double>, objects: map<Bytes, RobotV>)

  const NEW_ROBOT := RobotV([], [], [], [], [], map[], map[])
  const NEW_MESSAGE := MessageV(0, None, map[])

  function Names(o: RobotV, w: NameList): seq<Bytes> {
    match w
    case Controls => o.controls
    case Joints => o.joints
  }

  function Types(o: RobotV, w: TypeList): seq<Int32> {
    match w
    case ControlTypes => o.controlTypes
    case JointSensors => o.jointSensors
    case ObjectSensors => o.objectSensors
  }

  function WithNames(o: RobotV, w: NameList, xs: seq<Bytes>): RobotV {
    match w
    case Controls => o.(controls := xs)
    case Joints => o.(joints := xs)
  }

  function WithTypes(o: RobotV, w: TypeList, xs: seq<Int32>): RobotV {
    match w
    case ControlTypes => o.(controlTypes := xs)
    case JointSensors => o.(jointSensors := xs)
    case ObjectSensors => o.(objectSensors := xs)
  }

  // ---------------------------------------------------------------- the calls, as map updates

  datatype Call =
    | SetTimeStep(t: Double)
    | SetControlType(v: Int32)
    | SelectRobot(name: Bytes)
    | AssignNames(w: NameList, names: seq<Bytes>)
    | AppendTypes(k: TypeList, order: seq<Int32>)
    | SetEvent(name: Bytes, v: Int32)
    | SelectSensor(name: Bytes)
    | AppendSensorTypes(order: seq<Int32>)

  /** The message so far and the map keys under the two cursors. */
  datatype Build = Build(m: MessageV, obj: Option<Bytes>, sen: Option<(Bytes, Bytes)>)

  const START := Build(NEW_MESSAGE, None, None)

  /** The cursors a call uses are set and point into the message. */
  predicate Ready(b: Build, call: Call) {
    match call
    case SetTimeStep(_) => true
    case SetControlType(_) => true
    case SelectRobot(_) => true
    case AppendSensorTypes(_) => SensorIsSet(b)
    case _ => RobotIsSet(b)
  }

  predicate RobotIsSet(b: Build) {
    b.obj.Some? && b.obj.value in b.m.objects
  }

  predicate SensorIsSet(b: Build) {
    b.sen.Some? && b.sen.value.0 in b.m.objects && b.sen.value.1 in b.m.objects[b.sen.value.0].sensors
  }

  function SetRobot(b: Build, name: Bytes, o: RobotV): Build {
    b.(m := b.m.(objects := b.m.objects[name := o]))
  }

  function TypesIn(sensors: map<Bytes, seq<Int32>>, name: Bytes): seq<Int32> {
    if name in sensors then sensors[name] else []
  }

  function Step(b: Build, call: Call): Build
    requires Ready(b, call)
  {
    match call
    case SetTimeStep(t) => b.(m := b.m.(timeStep := Some(t)))
    case SetControlType(v) => b.(m := b.m.(controlType := v))
    case SelectRobot(name) =>
      SetRobot(b, name, if name in b.m.objects then b.m.objects[name] else NEW_ROBOT).(obj := Some(name))
    case AssignNames(w, names) => SetRobot(b, b.obj.value, WithNames(b.m.objects[b.obj.value], w, names))
    case AppendTypes(k, order) =>
      var o := b.m.objects[b.obj.value];
      SetRobot(b, b.obj.value, WithTypes(o, k, Types(o, k) + order))
    case SetEvent(name, v) =>
      var o := b.m.objects[b.obj.value];
      SetRobot(b, b.obj.value, o.(events := o.events[name := v]))
    case SelectSensor(name) =>
      var o := b.m.objects[b.obj.value];
      SetRobot(b, b.obj.value, o.(sensors := o.sensors[name := TypesIn(o.sensors, name)]))
      .(sen := Some((b.obj.value, name)))
    case AppendSensorTypes(order) =>
      var (key, name) := b.sen.value;
      var o := b.m.objects[key];
      SetRobot(b, key, o.(sensors := o.sensors[name := o.sensors[name] + order]))
  }

  function Run(calls: seq<Call>): Option<Build> {
    if calls == [] then Some(START)
    else
      var n := |calls| - 1;
      match Run(calls[..n])
      case None => None
      case Some(b) => if Ready(b, calls[n]) then Some(Step(b, calls[n])) else None
  }

  // ---------------------------------------------------------------- the staged interfaces

  /** Which interface the last call returned: HandshakeMessageBuilder, AddRobotBuilder or
      AddHandshakeSensorBuilder. */
  datatype Stage = AtTop | AtRobot | AtSensor

  function Next(s: Stage, call: Call): Option<Stage> {
    match (s, call)
    case (AtTop, SetTimeStep(_)) => Some(AtTop)
    case (AtTop, SetControlType(_)) => Some(AtTop)
    case (AtTop, SelectRobot(_)) => Some(AtRobot)
    case (AtRobot, SelectRobot(_)) => Some(AtRobot)
    case (AtRobot, AssignNames(_, _)) => Some(AtRobot)
    case (AtRobot, AppendTypes(_, _)) => Some(AtRobot)
    case (AtRobot, SetEvent(_, _)) => Some(AtRobot)
    case (AtRobot, SelectSensor(_)) => Some(AtSensor)
    case (AtSensor, AppendSensorTypes(_)) => Some(AtRobot)
    case _ => None
  }

  function StageAfter(calls: seq<Call>): Option<Stage> {
    if calls == [] then Some(AtTop)
    else
      match StageAfter(calls[..|calls| - 1])
      case None => None
      case Some(s) => Next(s, calls[|calls| - 1])
  }

  /** Which calls the interface returned by the last call offers. */
  predicate MayFollow(before: seq<Call>, call: Call) {
    var atTop := before == [] || before[|before| - 1].SetTimeStep? || before[|before| - 1].SetControlType?;
    var atSensor := before != [] && before[|before| - 1].SelectSensor?;
    match call
    case SetTimeStep(_) => atTop
    case SetControlType(_) => atTop
    case SelectRobot(_) => !atSensor
    case AppendSensorTypes(_) => atSensor
    case _ => !atTop && !atSensor
  }

  /** Exactly which chains type-check. */
  lemma {:induction false} TypeChecksIff(calls: seq<Call>)
    ensures StageAfter(calls).Some? <==> forall i | 0 <= i < |calls| :: MayFollow(calls[..i], calls[i])
    ensures StageAfter(calls).Some? && calls != [] ==>
              var last := calls[|calls| - 1];
              StageAfter(calls) == Some(if last.SetTimeStep? || last.SetControlType? then AtTop
                                        else if last.SelectSensor? then AtSensor else AtRobot)
  {
    if calls != [] {
      var n := |calls| - 1;
      var before := calls[..n];
      TypeChecksIff(before);
      assert forall i | 0 <= i < n :: before[..i] == calls[..i] && before[i] == calls[i];
    }
  }

  /** Chains that type-check never use an unset cursor; and where types may be appended to a sensor,
      the sensor under the cursor is one of the robot under the cursor. */
  lemma {:induction false} StagesSetTheCursors(calls: seq<Call>)
    requires StageAfter(calls).Some?
    ensures Run(calls).Some?
    ensures !StageAfter(calls).value.AtTop? ==> RobotIsSet(Run(calls).value)
    ensures StageAfter(calls).value.AtSensor? ==>
              SensorIsSet(Run(calls).value) && Run(calls).value.obj == Some(Run(calls).value.sen.value.0)
  {
    if calls != [] {
      StagesSetTheCursors(calls[..|calls| - 1]);
    }
  }

  // ---------------------------------------------------------------- the builder object

  /** A map entry of type Sensors, and the keys it is stored under. */
  class SensorsNode {
    ghost const home: (Bytes, Bytes)
    var types: seq<Int32>

    constructor (ghost home: (Bytes, Bytes))
      ensures this.home == home && types == []
    {
      this.home, types := home, [];
    }

    /** Adds every item, one at a time. */
    method Add(order: seq<Int32>)
      modifies this`types
      ensures types == old(types) + order
    {
      for i := 0 to |order|
        invariant types == old(types) + order[..i]
      {
        types := types + [order[i]];
      }
    }
  }

  /** A map entry of type Object, and the key it is stored under. */
  class RobotNode {
    ghost const home: Bytes
    var controls: seq<Bytes>
    var joints: seq<Bytes>
    var controlTypes: seq<Int32>
    var jointSensors: seq<Int32>
    var objectSensors: seq<Int32>
    var events: map<Bytes, Int32>
    var sensors: map<Bytes, SensorsNode>

    constructor (ghost home: Bytes)
      ensures this.home == home && Plain(map[]) == NEW_ROBOT && sensors == map[]
    {
      this.home, sensors := home, map[];
      controls, joints, controlTypes, jointSensors, objectSensors, events := [], [], [], [], [], map[];
    }

    method AddControlTypes(order: seq<Int32>)
      modifies this`controlTypes
      ensures controlTypes == old(controlTypes) + order
    {
      for i := 0 to |order|
        invariant controlTypes == old(controlTypes) + order[..i]
      {
        controlTypes := controlTypes + [order[i]];
      }
    }

    method AddJointSensors(order: seq<Int32>)
      modifies this`jointSensors
      ensures jointSensors == old(jointSensors) + order
    {
      for i := 0 to |order|
        invariant jointSensors == old(jointSensors) + order[..i]
      {
        jointSensors := jointSensors + [order[i]];
      }
    }

    method AddObjectSensors(order: seq<Int32>)
      modifies this`objectSensors
      ensures objectSensors == old(objectSensors) + order
    {
      for i := 0 to |order|
        invariant objectSensors == old(objectSensors) + order[..i]
      {
        objectSensors := objectSensors + [order[i]];
      }
    }

    /** The fields of the node itself, with `s` for its sensors. */
    ghost function Plain(s: map<Bytes, seq<Int32>>): RobotV
      reads this
    {
      RobotV(controls, joints, controlTypes, jointSensors, objectSensors, events, s)
    }

    /** The node and the sensors under it hold `v`. */
    ghost predicate Holds(v: RobotV)
      reads this, sensors.Values
    {
      && v == Plain(v.sensors)
      && sensors.Keys == v.sensors.Keys
      && forall s :: s in sensors ==> sensors[s].home == (home, s) && sensors[s].types == v.sensors[s]
    }

    function Contents(): (v: RobotV)
      reads this, sensors.Values
      ensures forall v': RobotV | Holds(v') :: v' == v
    {
      RobotV(controls, joints, controlTypes, jointSensors, objectSensors, events,
             map s | s in sensors :: sensors[s].types)
    }

    /** Plain fields changed, the sensors under the node did not. */
    twostate lemma FieldsChanged(v: RobotV)
      requires old(Holds(v)) && sensors == old(sensors) && forall s | s in sensors :: unchanged(sensors[s])
      ensures Holds(Plain(v.sensors)) && v == old(Plain(v.sensors))
    {
    }

    lemma Homes(v: RobotV)
      requires Holds(v)
      ensures forall s | s in sensors :: sensors[s].home == (home, s)
      ensures sensors.Keys == v.sensors.Keys
    {
    }

    /** operator[] on a missing sensor name. */
    method Insert(name: Bytes, node: SensorsNode, ghost v: RobotV)
      requires Holds(v) && name !in sensors && node.home == (home, name) && node.types == []
      modifies this`sensors
      ensures Holds(v.(sensors := v.sensors[name := []])) && sensors == old(sensors)[name := node]
    {
      sensors := sensors[name := node];
    }
  }

  /** Adds to a list through a pointer to a sensor node. */
  method AddThrough(node: SensorsNode, order: seq<Int32>, ghost owner: RobotNode, ghost name: Bytes, ghost v: RobotV)
    requires owner.Holds(v) && name in owner.sensors && owner.sensors[name] == node
    modifies node
    ensures name in v.sensors && owner.Holds(v.(sensors := v.sensors[name := v.sensors[name] + order]))
  {
    forall s | s in owner.sensors && s != name ensures owner.sensors[s] != node {
      assert owner.sensors[s].home == (owner.home, s) && node.home == (owner.home, name);
    }
    node.Add(order);
  }

  lemma NewHolds(node: RobotNode)
    requires node.Plain(map[]) == NEW_ROBOT && node.sensors == map[]
    ensures node.Holds(NEW_ROBOT)
  {
  }

  class HandshakeMessageBuilder {
    var controlType: Int32
    var timeStep: Option<Double>
    var objects: map<Bytes, RobotNode>
    var currObject: RobotNode?
    var currSensor: SensorsNode?

    ghost var model: Build
    ghost var robotNodes: set<RobotNode>
    ghost var sensorNodes: set<SensorsNode>

    /** The nodes hold `os`, each node under its own key. */
    ghost predicate Stores(os: map<Bytes, RobotV>)
      reads this`objects, this`robotNodes, this`sensorNodes, robotNodes, sensorNodes
    {
      StoredIn(objects, os)
    }

    ghost predicate StoredIn(objs: map<Bytes, RobotNode>, os: map<Bytes, RobotV>)
      reads this`robotNodes, this`sensorNodes, robotNodes, sensorNodes
    {
      && objs.Keys == os.Keys
      && (forall k :: k in objs ==> objs[k] in robotNodes)
      && (forall k, s :: k in objs && s in objs[k].sensors ==> objs[k].sensors[s] in sensorNodes)
      && forall k :: k in objs ==> objs[k].home == k && objs[k].Holds(os[k])
    }

    /** A node that holds `v` may be put under a new name. */
    lemma MayInsert(name: Bytes, node: RobotNode, os: map<Bytes, RobotV>, v: RobotV)
      requires Stores(os) && name !in objects
      requires node in robotNodes && node.home == name && node.sensors == map[] && node.Holds(v)
      ensures StoredIn(objects[name := node], os[name := v])
    {
      hide RobotNode.Holds;
    }

    lemma SameNames()
      requires Valid()
      ensures objects.Keys == model.m.objects.Keys
    {
    }

    /** The nodes hold the model, and a cursor that is set points into the maps. */
    ghost predicate Valid()
      reads this, robotNodes, sensorNodes
    {
      && Stores(model.m.objects) && controlType == model.m.controlType && timeStep == model.m.timeStep
      && (currObject == null <==> model.obj.None?)
      && (currObject != null ==> model.obj.value in objects && objects[model.obj.value] == currObject)
      && (currSensor == null <==> model.sen.None?)
      && (currSensor != null ==>
            var (k, s) := model.sen.value;
            k in objects && objects[k] in robotNodes && s in objects[k].sensors && objects[k].sensors[s] == currSensor)
    }

    constructor ()
      ensures Valid() && model == START && robotNodes == {} && sensorNodes == {}
    {
      controlType, timeStep, objects, currObject, currSensor := 0, None, map[], null, null;
      model, robotNodes, sensorNodes := START, {}, {};
    }

    method WithSimulationSettings(t: Double)
      requires Valid()
      modifies this`timeStep, this`model
      ensures Valid() && model == Step(old(model), SetTimeStep(t))
    {
      hide Stores;
      timeStep := Some(t);
      model := Step(model, SetTimeStep(t));
    }

    method WithControlType(v: Int32)
      requires Valid()
      modifies this`controlType, this`model
      ensures Valid() && model == Step(old(model), SetControlType(v))
    {
      hide Stores;
      controlType := v;
      model := Step(model, SetControlType(v));
    }

    /** What build() hands over. */
    function Contents(): (m: MessageV)
      requires Valid()
      reads this, robotNodes, sensorNodes
      ensures m == model.m
    {
      hide RobotNode.Holds;
      MessageV(controlType, timeStep, map k | k in objects :: objects[k].Contents())
    }

    /** A robot node that is under no name yet. */
    method NewRobot(ghost name: Bytes) returns (node: RobotNode)
      requires Valid()
      modifies this`robotNodes
      ensures Valid() && robotNodes == old(robotNodes) + {node} && fresh(node)
      ensures node.home == name && node.sensors == map[] && node.Holds(NEW_ROBOT)
    {
      hide RobotNode.Holds;
      node := new RobotNode(name);
      NewHolds(node);
      robotNodes := robotNodes + {node};
    }

    /** operator[] on a missing key. */
    method Allocate(name: Bytes)
      requires Valid() && name !in objects
      modifies this`objects, this`robotNodes, this`model
      ensures Valid() && name in objects && model == SetRobot(old(model), name, NEW_ROBOT)
      ensures fresh(robotNodes - old(robotNodes))
    {
      hide RobotNode.Holds, StoredIn;
      SameNames();
      var node := NewRobot(name);
      SameNames();
      MayInsert(name, node, model.m.objects, NEW_ROBOT);
      objects := objects[name := node];
      model := SetRobot(model, name, NEW_ROBOT);
    }

    method WithRobot(name: Bytes)
      requires Valid()
      modifies this`objects, this`robotNodes, this`model, this`currObject
      ensures Valid() && model == Step(old(model), SelectRobot(name)) && fresh(robotNodes - old(robotNodes))
    {
      hide RobotNode.Holds;
      if name !in objects {
        Allocate(name);
      } else {
        assert model.m.objects == model.m.objects[name := model.m.objects[name]];
      }
      currObject := objects[name];
      model := model.(obj := Some(name));
    }

    method WithControlsInOrder(order: seq<Bytes>)
      requires Valid() && currObject != null
      modifies this`model, currObject
      ensures Valid() && model == Step(old(model), AssignNames(Controls, order))
    {
      hide RobotNode.Holds;
      currObject.controls := order;
      currObject.FieldsChanged(model.m.objects[model.obj.value]);
      model := Step(model, AssignNames(Controls, order));
    }

    method WithJointSensorsInOrder(order: seq<Bytes>)
      requires Valid() && currObject != null
      modifies this`model, currObject
      ensures Valid() && model == Step(old(model), AssignNames(Joints, order))
    {
      hide RobotNode.Holds;
      currObject.joints := order;
      currObject.FieldsChanged(model.m.objects[model.obj.value]);
      model := Step(model, AssignNames(Joints, order));
    }

    method WithControlTypesInOrder(order: seq<Int32>)
      requires Valid() && currObject != null
      modifies this`model, currObject
      ensures Valid() && model == Step(old(model), AppendTypes(ControlTypes, order))
    {
      hide RobotNode.Holds;
      currObject.AddControlTypes(order);
      currObject.FieldsChanged(model.m.objects[model.obj.value]);
      model := Step(model, AppendTypes(ControlTypes, order));
    }

    method WithJointSensors(order: seq<Int32>)
      requires Valid() && currObject != null
      modifies this`model, currObject
      ensures Valid() && model == Step(old(model), AppendTypes(JointSensors, order))
    {
      hide RobotNode.Holds;
      currObject.AddJointSensors(order);
      currObject.FieldsChanged(model.m.objects[model.obj.value]);
      model := Step(model, AppendTypes(JointSensors, order));
    }

    method WithObjectSensors(order: seq<Int32>)
      requires Valid() && currObject != null
      modifies this`model, currObject
      ensures Valid() && model == Step(old(model), AppendTypes(ObjectSensors, order))
    {
      hide RobotNode.Holds;
      currObject.AddObjectSensors(order);
      currObject.FieldsChanged(model.m.objects[model.obj.value]);
      model := Step(model, AppendTypes(ObjectSensors, order));
    }

    method WithControlEvent(name: Bytes, v: Int32)
      requires Valid() && currObject != null
      modifies this`model, currObject
      ensures Valid() && model == Step(old(model), SetEvent(name, v))
    {
      hide RobotNode.Holds;
      currObject.events := currObject.events[name := v];
      currObject.FieldsChanged(model.m.objects[model.obj.value]);
      model := Step(model, SetEvent(name, v));
    }

    /** A sensor node is under one object only, the one its home names. */
    lemma Apart(k: Bytes, n: SensorsNode)
      requires Valid() && k in objects && n.home.0 != k
      ensures n !in objects[k].sensors.Values
    {
      hide RobotNode.Holds;
      objects[k].Homes(model.m.objects[k]);
    }

    lemma InCurrent()
      requires Valid() && currObject != null
      ensures currObject in robotNodes && model.obj.value in model.m.objects
      ensures currObject.sensors.Keys == model.m.objects[model.obj.value].sensors.Keys
    {
      currObject.Homes(model.m.objects[model.obj.value]);
    }

    lemma ReadsModel(key: Bytes, name: Bytes)
      requires Valid() && key in objects && objects[key] in robotNodes && name in objects[key].sensors
      ensures key in model.m.objects && name in model.m.objects[key].sensors
      ensures objects[key].sensors[name] in sensorNodes
      ensures objects[key].sensors[name].types == model.m.objects[key].sensors[name]
    {
    }

    /** A sensor node that no object has yet. */
    method NewSensor(ghost key: Bytes, ghost name: Bytes) returns (node: SensorsNode)
      requires Valid()
      modifies this`sensorNodes
      ensures Valid() && node in sensorNodes && fresh(node)
      ensures sensorNodes == old(sensorNodes) + {node} && node.home == (key, name) && node.types == []
    {
      hide RobotNode.Holds, Step;
      node := new SensorsNode((key, name));
      sensorNodes := sensorNodes + {node};
    }

    /** operator[] on a missing sensor name of the current object. */
    method AllocateSensor(name: Bytes)
      requires Valid() && currObject != null && name !in currObject.sensors
      modifies this`sensorNodes, this`model, currObject`sensors
      ensures Valid() && name in currObject.sensors && fresh(sensorNodes - old(sensorNodes))
      ensures fresh(currObject.sensors[name])
      ensures var o := old(model).m.objects[old(model).obj.value];
              model == SetRobot(old(model), old(model).obj.value, o.(sensors := o.sensors[name := []]))
    {
      hide RobotNode.Holds, StoredIn, Step;
      SameNames();
      ghost var key, o := model.obj.value, model.m.objects[model.obj.value];
      var node := NewSensor(key, name);
      InsertSensor(name, node);
      model := SetRobot(model, key, o.(sensors := o.sensors[name := []]));
    }

    /** Puts a new node into the current object; the cursors still point where they did. */
    method InsertSensor(name: Bytes, node: SensorsNode)
      requires Valid() && currObject != null && name !in currObject.sensors
      requires node in sensorNodes && node.home == (model.obj.value, name) && node.types == []
      modifies currObject`sensors
      ensures currObject.sensors == old(currObject.sensors)[name := node]
      ensures model.obj.value in model.m.objects
      ensures var key, o := model.obj.value, model.m.objects[model.obj.value];
              Stores(model.m.objects[key := o.(sensors := o.sensors[name := []])])
    {
      hide RobotNode.Holds;
      ghost var key, o := model.obj.value, model.m.objects[model.obj.value];
      currObject.Insert(name, node, o);
      assert objects[key].Holds(o.(sensors := o.sensors[name := []]));
    }

    /** The entry keeps its types if it existed. */
    method WithSensor(name: Bytes)
      requires Valid() && currObject != null
      modifies this`sensorNodes, this`model, this`currSensor, currObject`sensors
      ensures Valid() && model == Step(old(model), SelectSensor(name)) && fresh(sensorNodes - old(sensorNodes))
    {
      hide Stores, RobotNode.Holds;
      ghost var key := model.obj.value;
      InCurrent();
      if name !in currObject.sensors {
        AllocateSensor(name);
        InCurrent();
      } else {
        KeepsSensor(model, key, name);
      }
      currSensor := currObject.sensors[name];
      model := model.(sen := Some((key, name)));
    }

    method WithTypesInOrder(order: seq<Int32>)
      requires Valid() && currSensor != null
      modifies this`model, currSensor
      ensures Valid() && model == Step(old(model), AppendSensorTypes(order))
    {
      hide RobotNode.Holds, Stores, SetRobot;
      ghost var (key, name) := model.sen.value;
      ReadsModel(key, name);
      AddWithin(currSensor, order, key, name);
    }

    /** Adds to a sensor's list within the message. */
    method AddWithin(node: SensorsNode, order: seq<Int32>, ghost key: Bytes, ghost name: Bytes)
      requires Valid() && key in objects && objects[key] in robotNodes
      requires name in objects[key].sensors && objects[key].sensors[name] == node
      modifies this`model, node
      ensures Valid()
      ensures var o := old(model).m.objects[key];
              && name in o.sensors
              && model == SetRobot(old(model), key, o.(sensors := o.sensors[name := o.sensors[name] + order]))
    {
      hide RobotNode.Holds, Step;
      ghost var o := model.m.objects[key];
      objects[key].Homes(o);
      forall k | k in objects && k != key ensures node !in objects[k].sensors.Values {
        Apart(k, node);
      }
      AddThrough(node, order, objects[key], name, o);
      assert Stores(model.m.objects[key := o.(sensors := o.sensors[name := o.sensors[name] + order])]);
      model := SetRobot(model, key, o.(sensors := o.sensors[name := o.sensors[name] + order]));
    }

    /** The method that a call stands for. */
    method Perform(call: Call)
      requires Valid() && Ready(model, call)
      modifies this, robotNodes, sensorNodes
      ensures Valid() && model == Step(old(model), call)
      ensures fresh(robotNodes - old(robotNodes)) && fresh(sensorNodes - old(sensorNodes))
    {
      hide Stores, Step;
      if currObject != null { InCurrent(); }
      if currSensor != null { CursorWithin(); }
      match call
      case SetTimeStep(t) => WithSimulationSettings(t);
      case SetControlType(v) => WithControlType(v);
      case SelectRobot(name) => WithRobot(name);
      case AssignNames(Controls, names) => WithControlsInOrder(names);
      case AssignNames(Joints, names) => WithJointSensorsInOrder(names);
      case AppendTypes(ControlTypes, order) => WithControlTypesInOrder(order);
      case AppendTypes(JointSensors, order) => WithJointSensors(order);
      case AppendTypes(ObjectSensors, order) => WithObjectSensors(order);
      case SetEvent(name, v) => WithControlEvent(name, v);
      case SelectSensor(name) => WithSensor(name);
      case AppendSensorTypes(order) => WithTypesInOrder(order);
    }

    lemma CursorWithin()
      requires Valid() && currSensor != null
      ensures currSensor in sensorNodes
    {
    }
  }

  lemma KeepsSensor(b: Build, key: Bytes, name: Bytes)
    requires key in b.m.objects && name in b.m.objects[key].sensors
    ensures var o := b.m.objects[key];
            SetRobot(b, key, o.(sensors := o.sensors[name := TypesIn(o.sensors, name)])) == b
  {
    var o := b.m.objects[key];
    assert o.sensors[name := o.sensors[name]] == o.sensors;
    assert b.m.objects[key := o] == b.m.objects;
  }

  lemma {:induction false} PrefixRuns(calls: seq<Call>, n: nat)
    requires Run(calls).Some? && n <= |calls|
    ensures Run(calls[..n]).Some?
  {
    if n < |calls| {
      PrefixRuns(calls[..|calls| - 1], n);
      assert calls[..|calls| - 1][..n] == calls[..n];
    } else {
      assert calls[..n] == calls;
    }
  }

  /** Builder refinement over whole chains: making the calls on a new builder, one after the other,
      leaves in its nodes the message of the fold. */
  method Replay(calls: seq<Call>) returns (b: HandshakeMessageBuilder)
    requires Run(calls).Some?
    ensures fresh(b) && fresh(b.robotNodes) && fresh(b.sensorNodes) && b.Valid()
    ensures b.model == Run(calls).value && b.Contents() == Run(calls).value.m
  {
    hide Step, Ready;
    b := new HandshakeMessageBuilder();
    for i := 0 to |calls|
      invariant fresh(b) && fresh(b.robotNodes) && fresh(b.sensorNodes) && b.Valid()
      invariant Run(calls[..i]) == Some(b.model)
    {
      PrefixRuns(calls, i + 1);
      assert calls[..i + 1][..i] == calls[..i];
      b.Perform(calls[i]);
    }
    assert calls[..|calls|] == calls;
  }
}
