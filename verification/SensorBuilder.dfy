/** SensorMessageBuilder: a message under construction, edited through two pointers into its maps. */
module SensorBuilder {
  import opened Wire
  import opened SensorMessages

  // ---------------------------------------------------------------- the calls, as map updates

  datatype Call =
    | SelectObject(name: Bytes)
    | SetTime(t: Double)
    | SetAngles(xs: seq<Double>)
    | SetVelocities(xs: seq<Double>)
    | SetTorques(xs: seq<Double>)
    | AddObjectSensor(r: Reading)
    | SelectSensor(name: Bytes)
    | Push(r: Reading)

  /** The message so far and the map keys under the two cursors. */
  datatype Build = Build(m: MessageV, obj: Option<Bytes>, sen: Option<(Bytes, Bytes)>)

  const START := Build(NEW_MESSAGE, None, None)

  /** The cursors a call uses are set and point into the message. */
  predicate Ready(b: Build, call: Call) {
    match call
    case SelectObject(_) => true
    case SetTime(_) => true
    case Push(_) =>
      b.sen.Some? && b.sen.value.0 in b.m.objects && b.sen.value.1 in b.m.objects[b.sen.value.0].sensors
    case _ => b.obj.Some? && b.obj.value in b.m.objects
  }

  function SetObject(b: Build, name: Bytes, o: ObjectV): Build {
    b.(m := b.m.(objects := b.m.objects[name := o]))
  }

  /** Reselecting a name keeps its contents; Assign replaces; a selected sensor starts empty. */
  function Step(b: Build, call: Call): Build
    requires Ready(b, call)
  {
    match call
    case SelectObject(name) =>
      var o := if name in b.m.objects then b.m.objects[name] else NEW_OBJECT;
      SetObject(b, name, o).(obj := Some(name))
    case SetTime(t) => b.(m := b.m.(time := Some(t)))
    case SetAngles(xs) => SetObject(b, b.obj.value, b.m.objects[b.obj.value].(angles := xs))
    case SetVelocities(xs) => SetObject(b, b.obj.value, b.m.objects[b.obj.value].(velocities := xs))
    case SetTorques(xs) => SetObject(b, b.obj.value, b.m.objects[b.obj.value].(torques := xs))
    case AddObjectSensor(r) =>
      var o := b.m.objects[b.obj.value];
      SetObject(b, b.obj.value, o.(objectSensors := o.objectSensors + [r]))
    case SelectSensor(name) =>
      var o := b.m.objects[b.obj.value];
      SetObject(b, b.obj.value, o.(sensors := o.sensors[name := []])).(sen := Some((b.obj.value, name)))
    case Push(r) =>
      var (key, name) := b.sen.value;
      var o := b.m.objects[key];
      SetObject(b, key, o.(sensors := o.sensors[name := o.sensors[name] + [r]]))
  }

  function Run(calls: seq<Call>): Option<Build> {
    if calls == [] then Some(START)
    else
      var n := |calls| - 1;
      match Run(calls[..n])
      case None => None
      case Some(b) => if Ready(b, calls[n]) then Some(Step(b, calls[n])) else None
  }

  // ---------------------------------------------------------------- the staged interfaces

  /** Which interface the last call returned: SensorMessageBuilder, AddSensorValuesBuilder or
      AddSensorBuilder. */
  datatype Stage = AtTop | AtObject | AtSensor

  function Next(s: Stage, call: Call): Option<Stage> {
    match (s, call)
    case (_, SelectObject(_)) => Some(AtObject)
    case (AtTop, SetTime(_)) => Some(AtObject)
    case (AtObject, SetAngles(_)) => Some(AtObject)
    case (AtObject, SetVelocities(_)) => Some(AtObject)
    case (AtObject, SetTorques(_)) => Some(AtObject)
    case (AtObject, AddObjectSensor(_)) => Some(AtObject)
    case (AtObject, SelectSensor(_)) => Some(AtSensor)
    case (AtSensor, Push(_)) => Some(AtSensor)
    case _ => None
  }

  function StageAfter(calls: seq<Call>): Option<Stage> {
    if calls == [] then Some(AtTop)
    else
      match StageAfter(calls[..|calls| - 1])
      case None => None
      case Some(s) => Next(s, calls[|calls| - 1])
  }

  /** Which calls the interface returned by the last call offers. */
  predicate MayFollow(before: seq<Call>, call: Call) {
    var onSensor := before != [] && (before[|before| - 1].SelectSensor? || before[|before| - 1].Push?);
    match call
    case SelectObject(_) => true
    case SetTime(_) => before == []
    case Push(_) => onSensor
    case _ => before != [] && !onSensor
  }

  /** Exactly which chains type-check. */
  lemma {:induction false} TypeChecksIff(calls: seq<Call>)
    ensures StageAfter(calls).Some? <==> forall i | 0 <= i < |calls| :: MayFollow(calls[..i], calls[i])
    ensures StageAfter(calls).Some? && calls != [] ==>
              var last := calls[|calls| - 1];
              StageAfter(calls) == Some(if last.SelectSensor? || last.Push? then AtSensor else AtObject)
  {
    if calls != [] {
      var n := |calls| - 1;
      var before := calls[..n];
      TypeChecksIff(before);
      assert forall i | 0 <= i < n :: before[..i] == calls[..i] && before[i] == calls[i];
    }
  }

  /** A call through the object cursor. */
  predicate NeedsObject(call: Call) {
    !call.SelectObject? && !call.SetTime? && !call.Push?
  }

  predicate SelectsObject(calls: seq<Call>) {
    exists c :: c in calls && c.SelectObject?
  }

  /** An object is selected before the first call that needs one. */
  predicate ObjectFirst(calls: seq<Call>) {
    forall i | 0 <= i < |calls| && NeedsObject(calls[i]) :: SelectsObject(calls[..i])
  }

  lemma ObjectFirstStep(calls: seq<Call>)
    requires calls != []
    ensures var n := |calls| - 1;
            && (SelectsObject(calls) <==> SelectsObject(calls[..n]) || calls[n].SelectObject?)
            && (ObjectFirst(calls) <==>
                  ObjectFirst(calls[..n]) && (NeedsObject(calls[n]) ==> SelectsObject(calls[..n])))
  {
    var n := |calls| - 1;
    assert calls == calls[..n] + [calls[n]];
    assert forall i | 0 <= i < n :: calls[..n][..i] == calls[..i];
    if SelectsObject(calls[..n]) {
      var c :| c in calls[..n] && c.SelectObject?;
      assert c in calls;
    }
    if ObjectFirst(calls) {
      forall i | 0 <= i < n && NeedsObject(calls[..n][i]) ensures SelectsObject(calls[..n][..i]) {
        assert NeedsObject(calls[i]);
      }
    }
  }

  /** `withSimulatedTime` returns the interface of an object without selecting one, so the stages do not
      set the cursor.  A chain that type-checks runs on set cursors if and only if it selects an object
      before the first call that needs one. */
  lemma {:induction false} StagedRunsIffObjectFirst(calls: seq<Call>)
    requires StageAfter(calls).Some?
    ensures Run(calls).Some? <==> ObjectFirst(calls)
    ensures Run(calls).Some? ==>
              var b := Run(calls).value;
              && (ObjectIsSet(b) <==> SelectsObject(calls))
              && (StageAfter(calls).value.AtSensor? ==> Ready(b, Push(NoReading)))
  {
    hide SelectsObject, ObjectFirst;
    if calls == [] {
      NothingFirst();
    } else {
      StagedRunsIffObjectFirst(calls[..|calls| - 1]);
      ObjectFirstStep(calls);
    }
  }

  predicate ObjectIsSet(b: Build) {
    b.obj.Some? && b.obj.value in b.m.objects
  }

  lemma NothingFirst()
    ensures ObjectFirst([]) && !SelectsObject([])
  {
  }

  lemma SelectSensorSteps(b: Build, name: Bytes, absent: bool)
    requires Ready(b, SelectSensor(name)) && (absent ==> name !in b.m.objects[b.obj.value].sensors)
    ensures var key, o := b.obj.value, b.m.objects[b.obj.value];
            var b' := if absent then SetObject(b, key, o.(sensors := o.sensors[name := []])) else b;
            var o' := b'.m.objects[key];
            Step(b, SelectSensor(name))
            == SetObject(b', key, o'.(sensors := o'.sensors[name := []])).(sen := Some((key, name)))
  {
    var key, o := b.obj.value, b.m.objects[b.obj.value];
    var o1 := o.(sensors := o.sensors[name := []]);
    assert o1.sensors[name := []] == o1.sensors;
    assert b.m.objects[key := o1][key := o1] == b.m.objects[key := o1];
  }

  // ---------------------------------------------------------------- the builder object

  /** A map entry of type Sensors, and the keys it is stored under. */
  class SensorsNode {
    ghost const home: (Bytes, Bytes)
    var list: seq<Reading>

    constructor (ghost home: (Bytes, Bytes))
      ensures this.home == home && list == []
    {
      this.home, list := home, [];
    }
  }

  /** A map entry of type Object, and the key it is stored under. */
  class ObjectNode {
    ghost const home: Bytes
    var angles: seq<Double>
    var velocities: seq<Double>
    var torques: seq<Double>
    var objectSensors: seq<Reading>
    var sensors: map<Bytes, SensorsNode>

    constructor (ghost home: Bytes)
      ensures this.home == home && sensors == map[]
      ensures angles == velocities == torques == [] && objectSensors == []
    {
      this.home, angles, velocities, torques, objectSensors, sensors := home, [], [], [], [], map[];
    }

    /** The node and the sensors under it hold `v`. */
    ghost predicate Holds(v: ObjectV)
      reads this, sensors.Values
    {
      && angles == v.angles && velocities == v.velocities && torques == v.torques
      && objectSensors == v.objectSensors
      && sensors.Keys == v.sensors.Keys
      && forall s :: s in sensors ==> sensors[s].home == (home, s) && sensors[s].list == v.sensors[s]
    }

    function Contents(): (v: ObjectV)
      reads this, sensors.Values
      ensures forall v': ObjectV | Holds(v') :: v' == v
    {
      ObjectV(angles, velocities, torques, objectSensors, map s | s in sensors :: sensors[s].list)
    }

    /** Plain fields changed, the sensors under the node did not. */
    twostate lemma FieldsChanged(v: ObjectV)
      requires old(Holds(v)) && sensors == old(sensors) && forall s | s in sensors :: unchanged(sensors[s])
      ensures Holds(ObjectV(angles, velocities, torques, objectSensors, v.sensors))
      ensures v == ObjectV(old(angles), old(velocities), old(torques), old(objectSensors), v.sensors)
    {
    }

    lemma Homes(v: ObjectV)
      requires Holds(v)
      ensures forall s | s in sensors :: sensors[s].home == (home, s)
      ensures sensors.Keys == v.sensors.Keys
    {
    }

    /** operator[] on a missing sensor name. */
    method Insert(name: Bytes, node: SensorsNode, ghost v: ObjectV)
      requires Holds(v) && name !in sensors && node.home == (home, name) && node.list == []
      modifies this`sensors
      ensures Holds(v.(sensors := v.sensors[name := []])) && sensors == old(sensors)[name := node]
    {
      sensors := sensors[name := node];
    }
  }

  /** Writes a list through a pointer to a sensor node. */
  method WriteList(node: SensorsNode, list: seq<Reading>, ghost owner: ObjectNode, ghost name: Bytes, ghost v: ObjectV)
    requires owner.Holds(v) && name in owner.sensors && owner.sensors[name] == node
    modifies node
    ensures name in v.sensors && owner.Holds(v.(sensors := v.sensors[name := list]))
  {
    forall s | s in owner.sensors && s != name ensures owner.sensors[s] != node {
      assert owner.sensors[s].home == (owner.home, s) && node.home == (owner.home, name);
    }
    node.list := list;
  }

  lemma NewHolds(node: ObjectNode)
    requires node.angles == node.velocities == node.torques == [] && node.objectSensors == [] && node.sensors == map[]
    ensures node.Holds(NEW_OBJECT)
  {
  }

  class SensorMessageBuilder {
    var objects: map<Bytes, ObjectNode>
    var time: Option<Double>
    var currObject: ObjectNode?
    var currSensor: SensorsNode?

    ghost var model: Build
    ghost var objectNodes: set<ObjectNode>
    ghost var sensorNodes: set<SensorsNode>

    /** The nodes hold `os`, each node under its own key. */
    ghost predicate Stores(os: map<Bytes, ObjectV>)
      reads this`objects, this`objectNodes, this`sensorNodes, objectNodes, sensorNodes
    {
      StoredIn(objects, os)
    }

    ghost predicate StoredIn(objs: map<Bytes, ObjectNode>, os: map<Bytes, ObjectV>)
      reads this`objectNodes, this`sensorNodes, objectNodes, sensorNodes
    {
      && objs.Keys == os.Keys
      && (forall k :: k in objs ==> objs[k] in objectNodes)
      && (forall k, s :: k in objs && s in objs[k].sensors ==> objs[k].sensors[s] in sensorNodes)
      && forall k :: k in objs ==> objs[k].home == k && objs[k].Holds(os[k])
    }

    /** A node that holds `v` may be put under a new name. */
    lemma MayInsert(name: Bytes, node: ObjectNode, os: map<Bytes, ObjectV>, v: ObjectV)
      requires Stores(os) && name !in objects
      requires node in objectNodes && node.home == name && node.sensors == map[] && node.Holds(v)
      ensures StoredIn(objects[name := node], os[name := v])
    {
      hide ObjectNode.Holds;
    }

    /** The nodes hold the model, and a cursor that is set points into the maps. */
    ghost predicate Valid()
      reads this, objectNodes, sensorNodes
    {
      && Stores(model.m.objects) && time == model.m.time
      && (currObject == null <==> model.obj.None?)
      && (currObject != null ==> model.obj.value in objects && objects[model.obj.value] == currObject)
      && (currSensor == null <==> model.sen.None?)
      && (currSensor != null ==>
            var (k, s) := model.sen.value;
            k in objects && objects[k] in objectNodes && s in objects[k].sensors && objects[k].sensors[s] == currSensor)
    }

    constructor ()
      ensures Valid() && model == START && objectNodes == {} && sensorNodes == {}
    {
      objects, time, currObject, currSensor := map[], None, null, null;
      model, objectNodes, sensorNodes := START, {}, {};
    }

    /** What build() hands over. */
    function Contents(): (m: MessageV)
      requires Valid()
      reads this, objectNodes, sensorNodes
      ensures m == model.m
    {
      hide ObjectNode.Holds;
      MessageV(map k | k in objects :: objects[k].Contents(), time)
    }

    /** An object node that is under no name yet. */
    method NewObject(ghost name: Bytes) returns (node: ObjectNode)
      requires Valid()
      modifies this`objectNodes
      ensures Valid() && objectNodes == old(objectNodes) + {node} && fresh(node)
      ensures node.home == name && node.sensors == map[] && node.Holds(NEW_OBJECT)
    {
      hide ObjectNode.Holds;
      node := new ObjectNode(name);
      NewHolds(node);
      objectNodes := objectNodes + {node};
    }

    lemma SameNames()
      requires Valid()
      ensures objects.Keys == model.m.objects.Keys
    {
    }

    /** operator[] on a missing key. */
    method Allocate(name: Bytes)
      requires Valid() && name !in objects
      modifies this`objects, this`objectNodes, this`model
      ensures Valid() && name in objects && model == SetObject(old(model), name, NEW_OBJECT)
      ensures fresh(objectNodes - old(objectNodes))
    {
      hide ObjectNode.Holds, StoredIn;
      SameNames();
      var node := NewObject(name);
      SameNames();
      MayInsert(name, node, model.m.objects, NEW_OBJECT);
      objects := objects[name := node];
      model := SetObject(model, name, NEW_OBJECT);
    }

    method Object(name: Bytes)
      requires Valid()
      modifies this`objects, this`objectNodes, this`model, this`currObject
      ensures Valid() && model == Step(old(model), SelectObject(name)) && fresh(objectNodes - old(objectNodes))
    {
      hide ObjectNode.Holds;
      if name !in objects {
        Allocate(name);
      } else {
        assert model.m.objects == model.m.objects[name := model.m.objects[name]];
      }
      currObject := objects[name];
      model := model.(obj := Some(name));
    }

    method WithSimulatedTime(t: Double)
      requires Valid()
      modifies this`time, this`model
      ensures Valid() && model == Step(old(model), SetTime(t))
    {
      hide Stores;
      time := Some(t);
      model := Step(model, SetTime(t));
    }

    method WithAngles(xs: seq<Double>)
      requires Valid() && currObject != null
      modifies this`model, currObject
      ensures Valid() && model == Step(old(model), SetAngles(xs))
    {
      hide ObjectNode.Holds;
      currObject.angles := xs;
      currObject.FieldsChanged(model.m.objects[model.obj.value]);
      model := Step(model, SetAngles(xs));
    }

    method WithAngularVelocities(xs: seq<Double>)
      requires Valid() && currObject != null
      modifies this`model, currObject
      ensures Valid() && model == Step(old(model), SetVelocities(xs))
    {
      hide ObjectNode.Holds;
      currObject.velocities := xs;
      currObject.FieldsChanged(model.m.objects[model.obj.value]);
      model := Step(model, SetVelocities(xs));
    }

    method WithTorques(xs: seq<Double>)
      requires Valid() && currObject != null
      modifies this`model, currObject
      ensures Valid() && model == Step(old(model), SetTorques(xs))
    {
      hide ObjectNode.Holds;
      currObject.torques := xs;
      currObject.FieldsChanged(model.m.objects[model.obj.value]);
      model := Step(model, SetTorques(xs));
    }

    /** add_objectsensors() and a member set in it. */
    method WithObjectSensor(r: Reading)
      requires Valid() && currObject != null
      modifies this`model, currObject
      ensures Valid() && model == Step(old(model), AddObjectSensor(r))
    {
      hide ObjectNode.Holds;
      currObject.objectSensors := currObject.objectSensors + [r];
      currObject.FieldsChanged(model.m.objects[model.obj.value]);
      model := Step(model, AddObjectSensor(r));
    }

    method WithPosition(v: Triple)
      requires Valid() && currObject != null
      modifies this`model, currObject
      ensures Valid() && model == Step(old(model), AddObjectSensor(Vector(Position, v)))
    {
      WithObjectSensor(Vector(Position, v));
    }

    method WithRPY(v: Triple)
      requires Valid() && currObject != null
      modifies this`model, currObject
      ensures Valid() && model == Step(old(model), AddObjectSensor(Vector(Rpy, v)))
    {
      WithObjectSensor(Vector(Rpy, v));
    }

    /** A sensor node is under one object only, the one its home names. */
    lemma Apart(k: Bytes, n: SensorsNode)
      requires Valid() && k in objects && n.home.0 != k
      ensures n !in objects[k].sensors.Values
    {
      hide ObjectNode.Holds;
      objects[k].Homes(model.m.objects[k]);
    }

    /** A sensor node that no object has yet. */
    method NewSensor(ghost key: Bytes, ghost name: Bytes) returns (node: SensorsNode)
      requires Valid()
      modifies this`sensorNodes
      ensures Valid() && node in sensorNodes && fresh(node)
      ensures sensorNodes == old(sensorNodes) + {node} && node.home == (key, name) && node.list == []
    {
      hide ObjectNode.Holds, Step;
      node := new SensorsNode((key, name));
      sensorNodes := sensorNodes + {node};
    }

    /** operator[] on a missing sensor name of the current object. */
    method AllocateSensor(name: Bytes)
      requires Valid() && currObject != null && name !in currObject.sensors
      modifies this`sensorNodes, this`model, currObject`sensors
      ensures Valid() && name in currObject.sensors && fresh(sensorNodes - old(sensorNodes))
      ensures fresh(currObject.sensors[name])
      ensures var o := old(model).m.objects[old(model).obj.value];
              model == SetObject(old(model), old(model).obj.value, o.(sensors := o.sensors[name := []]))
    {
      hide ObjectNode.Holds, StoredIn, Step;
      SameNames();
      ghost var key, o := model.obj.value, model.m.objects[model.obj.value];
      var node := NewSensor(key, name);
      InsertSensor(name, node);
      model := SetObject(model, key, o.(sensors := o.sensors[name := []]));
    }

    /** Puts a new node into the current object; the cursors still point where they did. */
    method InsertSensor(name: Bytes, node: SensorsNode)
      requires Valid() && currObject != null && name !in currObject.sensors
      requires node in sensorNodes && node.home == (model.obj.value, name) && node.list == []
      modifies currObject`sensors
      ensures currObject.sensors == old(currObject.sensors)[name := node]
      ensures model.obj.value in model.m.objects
      ensures var key, o := model.obj.value, model.m.objects[model.obj.value];
              Stores(model.m.objects[key := o.(sensors := o.sensors[name := []])])
    {
      hide ObjectNode.Holds;
      ghost var key, o := model.obj.value, model.m.objects[model.obj.value];
      currObject.Insert(name, node, o);
      assert objects[key].Holds(o.(sensors := o.sensors[name := []]));
    }

    /** The same, within the message. */
    method AssignList(node: SensorsNode, list: seq<Reading>, ghost key: Bytes, ghost name: Bytes)
      requires Valid() && key in objects && objects[key] in objectNodes
      requires name in objects[key].sensors && objects[key].sensors[name] == node
      modifies this`model, node
      ensures Valid()
      ensures var o := old(model).m.objects[key];
              model == SetObject(old(model), key, o.(sensors := o.sensors[name := list]))
    {
      hide ObjectNode.Holds, Step;
      ghost var o := model.m.objects[key];
      objects[key].Homes(o);
      forall k | k in objects && k != key ensures node !in objects[k].sensors.Values {
        Apart(k, node);
      }
      WriteList(node, list, objects[key], name, o);
      assert Stores(model.m.objects[key := o.(sensors := o.sensors[name := list])]);
      model := SetObject(model, key, o.(sensors := o.sensors[name := list]));
    }

    /** operator[]: the entry, made if it is missing. */
    method SensorEntry(name: Bytes)
      requires Valid() && currObject != null
      modifies this`sensorNodes, this`model, currObject`sensors
      ensures Valid() && name in currObject.sensors && fresh(sensorNodes - old(sensorNodes))
      ensures if name in old(currObject.sensors) then currObject.sensors == old(currObject.sensors)
              else fresh(currObject.sensors[name])
      ensures model.obj == old(model).obj && model.obj.value in objects && currObject in objectNodes
      ensures model ==
              if name in old(currObject.sensors) then old(model)
              else
                var o := old(model).m.objects[old(model).obj.value];
                SetObject(old(model), old(model).obj.value, o.(sensors := o.sensors[name := []]))
    {
      hide Stores, ObjectNode.Holds, Step;
      InCurrent();
      if name !in currObject.sensors {
        AllocateSensor(name);
      }
      InCurrent();
    }

    /** Assigns an empty Sensors to the entry, which stays the same node if it existed. */
    method WithSensor(name: Bytes)
      requires Valid() && currObject != null
      modifies this`sensorNodes, this`model, this`currSensor, currObject`sensors
      modifies if name in currObject.sensors then {currObject.sensors[name]} else {}
      ensures Valid() && model == Step(old(model), SelectSensor(name)) && fresh(sensorNodes - old(sensorNodes))
    {
      hide Stores, StoredIn, Step, ObjectNode.Holds;
      ghost var key := model.obj.value;
      InCurrent();
      SelectSensorSteps(model, name, name !in currObject.sensors);
      SensorEntry(name);
      AssignList(currObject.sensors[name], [], key, name);
      PointAt(name);
    }

    /** Sets the sensor cursor to an entry of the current object. */
    method PointAt(name: Bytes)
      requires Valid() && currObject != null && name in currObject.sensors
      modifies this`currSensor, this`model
      ensures Valid() && model == old(model).(sen := Some((old(model).obj.value, name)))
    {
      hide StoredIn;
      InCurrent();
      currSensor := currObject.sensors[name];
      model := model.(sen := Some((model.obj.value, name)));
    }

    lemma InCurrent()
      requires Valid() && currObject != null
      ensures currObject in objectNodes && model.obj.value in model.m.objects
      ensures currObject.sensors.Keys == model.m.objects[model.obj.value].sensors.Keys
    {
      currObject.Homes(model.m.objects[model.obj.value]);
    }

    /** add_sensor() and a member set in it. */
    method WithReading(r: Reading)
      requires Valid() && currSensor != null
      modifies this`model, currSensor
      ensures Valid() && model == Step(old(model), Push(r))
    {
      hide ObjectNode.Holds, Stores, SetObject;
      ghost var (key, name) := model.sen.value;
      ReadsModel(key, name);
      AssignList(currSensor, currSensor.list + [r], key, name);
    }

    method WithAngle(d: Double)
      requires Valid() && currSensor != null
      modifies this`model, currSensor
      ensures Valid() && model == Step(old(model), Push(Scalar(Angle, d)))
    {
      WithReading(Scalar(Angle, d));
    }

    method WithAngularVelocity1d(d: Double)
      requires Valid() && currSensor != null
      modifies this`model, currSensor
      ensures Valid() && model == Step(old(model), Push(Scalar(AngularVelocity1d, d)))
    {
      WithReading(Scalar(AngularVelocity1d, d));
    }

    method WithTorque1d(d: Double)
      requires Valid() && currSensor != null
      modifies this`model, currSensor
      ensures Valid() && model == Step(old(model), Push(Scalar(Torque1d, d)))
    {
      WithReading(Scalar(Torque1d, d));
    }

    method WithForce1d(d: Double)
      requires Valid() && currSensor != null
      modifies this`model, currSensor
      ensures Valid() && model == Step(old(model), Push(Scalar(Force1d, d)))
    {
      WithReading(Scalar(Force1d, d));
    }

    method WithActivated(b: bool)
      requires Valid() && currSensor != null
      modifies this`model, currSensor
      ensures Valid() && model == Step(old(model), Push(Flag(b)))
    {
      WithReading(Flag(b));
    }

    /** withPosition_. */
    method WithPositionReading(v: Triple)
      requires Valid() && currSensor != null
      modifies this`model, currSensor
      ensures Valid() && model == Step(old(model), Push(Vector(Position, v)))
    {
      WithReading(Vector(Position, v));
    }

    /** withRPY_. */
    method WithRPYReading(v: Triple)
      requires Valid() && currSensor != null
      modifies this`model, currSensor
      ensures Valid() && model == Step(old(model), Push(Vector(Rpy, v)))
    {
      WithReading(Vector(Rpy, v));
    }

    method WithAcceleration3d(v: Triple)
      requires Valid() && currSensor != null
      modifies this`model, currSensor
      ensures Valid() && model == Step(old(model), Push(Vector(Acceleration3d, v)))
    {
      WithReading(Vector(Acceleration3d, v));
    }

    method WithForce3d(v: Triple)
      requires Valid() && currSensor != null
      modifies this`model, currSensor
      ensures Valid() && model == Step(old(model), Push(Vector(Force3d, v)))
    {
      WithReading(Vector(Force3d, v));
    }

    method WithTorque3d(v: Triple)
      requires Valid() && currSensor != null
      modifies this`model, currSensor
      ensures Valid() && model == Step(old(model), Push(Vector(Torque3d, v)))
    {
      WithReading(Vector(Torque3d, v));
    }

    method WithAngularAcceleration3d(v: Triple)
      requires Valid() && currSensor != null
      modifies this`model, currSensor
      ensures Valid() && model == Step(old(model), Push(Vector(AngularAcceleration3d, v)))
    {
      WithReading(Vector(AngularAcceleration3d, v));
    }

    method WithVelocity3d(v: Triple)
      requires Valid() && currSensor != null
      modifies this`model, currSensor
      ensures Valid() && model == Step(old(model), Push(Vector(Velocity3d, v)))
    {
      WithReading(Vector(Velocity3d, v));
    }

    method WithAngularVelocity3d(v: Triple)
      requires Valid() && currSensor != null
      modifies this`model, currSensor
      ensures Valid() && model == Step(old(model), Push(Vector(AngularVelocity3d, v)))
    {
      WithReading(Vector(AngularVelocity3d, v));
    }

    lemma ReadsModel(key: Bytes, name: Bytes)
      requires Valid() && key in objects && objects[key] in objectNodes && name in objects[key].sensors
      ensures key in model.m.objects && name in model.m.objects[key].sensors
      ensures objects[key].sensors[name] in sensorNodes
      ensures objects[key].sensors[name].list == model.m.objects[key].sensors[name]
    {
    }

    /** The typed method for a reading. */
    method PushTyped(r: Reading)
      requires Valid() && currSensor != null
      modifies this`model, currSensor
      ensures Valid() && model == Step(old(model), Push(r))
    {
      hide Stores, Step;
      match r
      case Scalar(Angle, d) => WithAngle(d);
      case Scalar(AngularVelocity1d, d) => WithAngularVelocity1d(d);
      case Scalar(Torque1d, d) => WithTorque1d(d);
      case Scalar(Force1d, d) => WithForce1d(d);
      case Flag(b) => WithActivated(b);
      case Vector(c, arr) =>
        if |arr| != 3 {
          WithReading(r);
        } else {
          match c
          case Position => WithPositionReading(arr);
          case Rpy => WithRPYReading(arr);
          case Acceleration3d => WithAcceleration3d(arr);
          case Force3d => WithForce3d(arr);
          case Torque3d => WithTorque3d(arr);
          case AngularAcceleration3d => WithAngularAcceleration3d(arr);
          case Velocity3d => WithVelocity3d(arr);
          case AngularVelocity3d => WithAngularVelocity3d(arr);
          case _ => WithReading(r);
        }
      case _ => WithReading(r);
    }

    /** The method that a call stands for. */
    method Perform(call: Call)
      requires Valid() && Ready(model, call)
      modifies this, objectNodes, sensorNodes
      ensures Valid() && model == Step(old(model), call)
      ensures fresh(objectNodes - old(objectNodes)) && fresh(sensorNodes - old(sensorNodes))
    {
      hide Stores, Step;
      if currObject != null { WithinNodes(); }
      if currSensor != null { CursorWithin(); }
      match call
      case SelectObject(name) => Object(name);
      case SetTime(t) => WithSimulatedTime(t);
      case SetAngles(xs) => WithAngles(xs);
      case SetVelocities(xs) => WithAngularVelocities(xs);
      case SetTorques(xs) => WithTorques(xs);
      case AddObjectSensor(Vector(Position, v)) => if |v| == 3 { WithPosition(v); } else { WithObjectSensor(call.r); }
      case AddObjectSensor(Vector(Rpy, v)) => if |v| == 3 { WithRPY(v); } else { WithObjectSensor(call.r); }
      case AddObjectSensor(r) => WithObjectSensor(r);
      case SelectSensor(name) => WithSensor(name);
      case Push(r) => PushTyped(r);
    }

    /** The current object and its sensors are among the nodes. */
    lemma WithinNodes()
      requires Valid() && currObject != null
      ensures currObject in objectNodes && currObject.sensors.Values <= sensorNodes
    {
    }

    lemma CursorWithin()
      requires Valid() && currSensor != null
      ensures currSensor in sensorNodes
    {
    }
  }

  lemma {:induction false} PrefixRuns(calls: seq<Call>, n: nat)
    requires Run(calls).Some? && n <= |calls|
    ensures Run(calls[..n]).Some?
  {
    if n < |calls| {
      PrefixRuns(calls[..|calls| - 1], n);
      assert calls[..|calls| - 1][..n] == calls[..n];
    } else {
      assert calls[..n] == calls;
    }
  }

  /** Builder refinement over whole chains: making the calls on a new builder, one after the other,
      leaves in its nodes the message of the fold. */
  method Replay(calls: seq<Call>) returns (b: SensorMessageBuilder)
    requires Run(calls).Some?
    ensures fresh(b) && fresh(b.objectNodes) && fresh(b.sensorNodes) && b.Valid()
    ensures b.model == Run(calls).value && b.Contents() == Run(calls).value.m
  {
    hide Step, Ready;
    b := new SensorMessageBuilder();
    for i := 0 to |calls|
      invariant fresh(b) && fresh(b.objectNodes) && fresh(b.sensorNodes) && b.Valid()
      invariant Run(calls[..i]) == Some(b.model)
    {
      PrefixRuns(calls, i + 1);
      assert calls[..i + 1][..i] == calls[..i];
      b.Perform(calls[i]);
    }
    assert calls[..|calls|] == calls;
  }
}
