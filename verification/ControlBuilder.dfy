/** ControlMessageBuilder: staged construction of a control message, whose four vectors per object
    are meant to exclude one another. */
module ControlBuilder {
  import opened Wire

  /** The four vectors of ControlMessage.Object. */
  datatype Which = Angles | Velocities | Torques | Values

  datatype ObjectV = ObjectV(angles: seq<Double>, velocities: seq<Double>, torques: seq<Double>,
                             values: seq<Double>, events: map<Bytes, bool>)

  const NEW_OBJECT := ObjectV([], [], [], [], map[])

  function Get(o: ObjectV, w: Which): seq<Double> {
    match w
    case Angles => o.angles
    case Velocities => o.velocities
    case Torques => o.torques
    case Values => o.values
  }

  function Set(o: ObjectV, w: Which, xs: seq<Double>): ObjectV {
    match w
    case Angles => o.(angles := xs)
    case Velocities => o.(velocities := xs)
    case Torques => o.(torques := xs)
    case Values => o.(values := xs)
  }

  // ---------------------------------------------------------------- the calls, as map updates

  datatype Call =
    | SelectObject(name: Bytes)
    | Assign(w: Which, xs: seq<Double>)
    | SetEvent(name: Bytes, activated: bool)

  datatype Build = Build(objects: map<Bytes, ObjectV>, obj: Option<Bytes>)

  predicate Ready(b: Build, call: Call) {
    call.SelectObject? || (b.obj.Some? && b.obj.value in b.objects)
  }

  function Step(b: Build, call: Call): Build
    requires Ready(b, call)
  {
    match call
    case SelectObject(name) =>
      var o := if name in b.objects then b.objects[name] else NEW_OBJECT;
      Build(b.objects[name := o], Some(name))
    case Assign(w, xs) => b.(objects := b.objects[b.obj.value := Set(b.objects[b.obj.value], w, xs)])
    case SetEvent(name, activated) =>
      var o := b.objects[b.obj.value];
      b.(objects := b.objects[b.obj.value := o.(events := o.events[name := activated])])
  }

  function Run(calls: seq<Call>): Option<Build> {
    if calls == [] then Some(Build(map[], None))
    else
      var n := |calls| - 1;
      match Run(calls[..n])
      case None => None
      case Some(b) => if Ready(b, calls[n]) then Some(Step(b, calls[n])) else None
  }

  // ---------------------------------------------------------------- the staged interfaces

  /** Which interface the last call returned: the builder itself, AddControlBuilder, AddControlEventBuilder. */
  datatype Stage = AtStart | AtControl | AtEvents

  function Next(s: Stage, call: Call): Option<Stage> {
    match (s, call)
    case (AtStart, SelectObject(_)) => Some(AtControl)
    case (AtControl, Assign(_, _)) => Some(AtEvents)
    case (AtEvents, SetEvent(_, _)) => Some(AtEvents)
    case (AtEvents, SelectObject(_)) => Some(AtControl)
    case _ => None
  }

  function StageAfter(calls: seq<Call>): Option<Stage> {
    if calls == [] then Some(AtStart)
    else
      match StageAfter(calls[..|calls| - 1])
      case None => None
      case Some(s) => Next(s, calls[|calls| - 1])
  }

  /** Which calls the interface returned by the last call offers. */
  predicate MayFollow(before: seq<Call>, call: Call) {
    var selected := before != [] && before[|before| - 1].SelectObject?;
    match call
    case SelectObject(_) => !selected
    case Assign(_, _) => selected
    case SetEvent(_, _) => before != [] && !selected
  }

  /** Exactly which chains type-check. */
  lemma {:induction false} TypeChecksIff(calls: seq<Call>)
    ensures StageAfter(calls).Some? <==> forall i | 0 <= i < |calls| :: MayFollow(calls[..i], calls[i])
    ensures StageAfter(calls).Some? && calls != [] ==>
              StageAfter(calls) == Some(if calls[|calls| - 1].SelectObject? then AtControl else AtEvents)
  {
    if calls != [] {
      var n := |calls| - 1;
      var before := calls[..n];
      TypeChecksIff(before);
      assert forall i | 0 <= i < n :: before[..i] == calls[..i] && before[i] == calls[i];
    }
  }

  /** Chains that type-check never use an unset cursor. */
  lemma {:induction false} StagesSetTheCursor(calls: seq<Call>)
    requires StageAfter(calls).Some?
    ensures Run(calls).Some?
    ensures !StageAfter(calls).value.AtStart? ==>
              Run(calls).value.obj.Some? && Run(calls).value.obj.value in Run(calls).value.objects
  {
    if calls != [] {
      StagesSetTheCursor(calls[..|calls| - 1]);
    }
  }

  // ---------------------------------------------------------------- exclusivity

  /** At most one of the four vectors is non-empty. */
  predicate Exclusive(o: ObjectV) {
    forall w: Which, w': Which :: Get(o, w) != [] && Get(o, w') != [] ==> w == w'
  }

  function ObjectAt(calls: seq<Call>): Option<Bytes> {
    if calls == [] then None
    else
      var last := calls[|calls| - 1];
      if last.SelectObject? then Some(last.name) else ObjectAt(calls[..|calls| - 1])
  }

  /** The vector last assigned to `w` of object `name`; empty if none was. */
  function LastAssigned(calls: seq<Call>, name: Bytes, w: Which): seq<Double> {
    if calls == [] then []
    else
      var n := |calls| - 1;
      if calls[n].Assign? && calls[n].w == w && ObjectAt(calls[..n]) == Some(name) then calls[n].xs
      else LastAssigned(calls[..n], name, w)
  }

  /** Every vector of the built message is the one last assigned to it. */
  lemma {:induction false} HoldsLastAssigned(calls: seq<Call>, name: Bytes, w: Which)
    requires Run(calls).Some?
    ensures Run(calls).value.obj == ObjectAt(calls)
    ensures LastAssigned(calls, name, w)
         == if name in Run(calls).value.objects then Get(Run(calls).value.objects[name], w) else []
  {
    if calls != [] {
      HoldsLastAssigned(calls[..|calls| - 1], name, w);
    }
  }

  predicate AtMostOneAssigned(calls: seq<Call>, name: Bytes) {
    forall w: Which, w': Which ::
      LastAssigned(calls, name, w) != [] && LastAssigned(calls, name, w') != [] ==> w == w'
  }

  /** An object is exclusive if and only if at most one of its vectors was last assigned a non-empty value. */
  lemma ExclusiveIff(calls: seq<Call>, name: Bytes)
    requires Run(calls).Some? && name in Run(calls).value.objects
    ensures Exclusive(Run(calls).value.objects[name]) <==> AtMostOneAssigned(calls, name)
  {
    hide Get, Run, LastAssigned;
    var o := Run(calls).value.objects[name];
    forall w: Which ensures Get(o, w) == LastAssigned(calls, name, w) {
      HoldsLastAssigned(calls, name, w);
    }
    if Exclusive(o) {
      forall w: Which, w': Which | LastAssigned(calls, name, w) != [] && LastAssigned(calls, name, w') != []
        ensures w == w'
      {
        assert Get(o, w) != [] && Get(o, w') != [];
      }
    }
    if AtMostOneAssigned(calls, name) {
      forall w: Which, w': Which | Get(o, w) != [] && Get(o, w') != [] ensures w == w' {
        assert LastAssigned(calls, name, w) != [] && LastAssigned(calls, name, w') != [];
      }
    }
  }

  /** What one assignment must meet: it is empty or the other three vectors are. */
  lemma AssignKeepsExclusiveIff(o: ObjectV, w: Which, xs: seq<Double>)
    requires Exclusive(o)
    ensures Exclusive(Set(o, w, xs)) <==> xs == [] || forall w': Which | w' != w :: Get(o, w') == []
  {
    var o' := Set(o, w, xs);
    assert Get(o', w) == xs && forall w': Which | w' != w :: Get(o', w') == Get(o, w');
    if Exclusive(o') && xs != [] {
      forall w': Which | w' != w ensures Get(o, w') == [] {
        assert Get(o', w') == [];
      }
    }
    if xs == [] || forall w': Which | w' != w :: Get(o, w') == [] {
      forall v: Which, v': Which | Get(o', v) != [] && Get(o', v') != [] ensures v == v' {
        if v != w && v' != w {
          assert Get(o, v) != [] && Get(o, v') != [];
        }
      }
    }
  }

  predicate SelectsOnce(calls: seq<Call>) {
    forall i, j :: 0 <= i < j < |calls| && calls[i].SelectObject? && calls[j].SelectObject? ==>
                     calls[i].name != calls[j].name
  }

  /** The message holds exactly the objects that were selected. */
  lemma {:induction false} SelectedNames(calls: seq<Call>, name: Bytes)
    requires Run(calls).Some?
    ensures name in Run(calls).value.objects <==> SelectObject(name) in calls
  {
    if calls != [] {
      var n := |calls| - 1;
      SelectedNames(calls[..n], name);
      assert calls == calls[..n] + [calls[n]];
    }
  }

  /** Over every chain that type-checks and selects each object name at most once, every object is
      exclusive; and until its vector is assigned, the current object has none. */
  lemma {:induction false} StagedChainsAreExclusive(calls: seq<Call>)
    requires StageAfter(calls).Some? && SelectsOnce(calls)
    ensures Run(calls).Some?
    ensures forall name | name in Run(calls).value.objects :: Exclusive(Run(calls).value.objects[name])
    ensures StageAfter(calls).value.AtControl? ==>
              var b := Run(calls).value;
              b.obj.Some? && b.obj.value in b.objects && forall w: Which :: Get(b.objects[b.obj.value], w) == []
  {
    StagesSetTheCursor(calls);
    if calls != [] {
      var n := |calls| - 1;
      var before := calls[..n];
      StagedChainsAreExclusive(before);
      StagesSetTheCursor(before);
      var b := Run(before).value;
      if calls[n].SelectObject? {
        SelectedNames(before, calls[n].name);
        assert calls[n].name !in b.objects;
      }
      StepKeepsExclusive(b, calls[n], StageAfter(before).value);
    }
  }

  lemma StepKeepsExclusive(b: Build, call: Call, s: Stage)
    requires Ready(b, call) && Next(s, call).Some?
    requires forall name | name in b.objects :: Exclusive(b.objects[name])
    requires call.SelectObject? ==> call.name !in b.objects
    requires s.AtControl? ==>
               b.obj.Some? && b.obj.value in b.objects && forall w: Which :: Get(b.objects[b.obj.value], w) == []
    ensures var b' := Step(b, call);
            && (forall name | name in b'.objects :: Exclusive(b'.objects[name]))
            && (Next(s, call).value.AtControl? ==>
                  b'.obj.Some? && b'.obj.value in b'.objects
                  && forall w: Which :: Get(b'.objects[b'.obj.value], w) == [])
  {
    match call
    case SelectObject(name) => assert Exclusive(NEW_OBJECT);
    case Assign(w, xs) =>
      assert Exclusive(Set(b.objects[b.obj.value], w, xs)) by { SetOne(b.objects[b.obj.value], w, xs); }
    case SetEvent(name, activated) =>
      var o := b.objects[b.obj.value];
      var o' := o.(events := o.events[name := activated]);
      assert Exclusive(o') by {
        assert Exclusive(o);
        assert forall w: Which :: Get(o', w) == Get(o, w);
      }
  }

  lemma SetOne(o: ObjectV, w: Which, xs: seq<Double>)
    requires forall w': Which :: Get(o, w') == []
    ensures Exclusive(Set(o, w, xs))
  {
    assert forall w': Which :: w' != w ==> Get(Set(o, w, xs), w') == Get(o, w');
  }

  /** Selecting a name twice escapes the staging: this chain type-checks and is not exclusive. */
  lemma ReselectionBreaksExclusivity(name: Bytes, x: Double)
    ensures var calls := [SelectObject(name), Assign(Angles, [x]), SelectObject(name), Assign(Torques, [x])];
            && StageAfter(calls) == Some(AtEvents)
            && Run(calls).Some? && name in Run(calls).value.objects
            && !Exclusive(Run(calls).value.objects[name])
  {
    var calls := [SelectObject(name), Assign(Angles, [x]), SelectObject(name), Assign(Torques, [x])];
    var c3, c2, c1 := calls[..3], calls[..2], calls[..1];
    assert c3[..2] == c2 && c2[..1] == c1 && c1[..0] == [];
    assert StageAfter(c1) == Some(AtControl);
    assert StageAfter(c2) == Some(AtEvents);
    assert StageAfter(c3) == Some(AtControl);
    assert Run(c1) == Some(Build(map[name := NEW_OBJECT], Some(name)));
    var o1 := NEW_OBJECT.(angles := [x]);
    assert map[name := NEW_OBJECT][name := o1] == map[name := o1] == map[name := o1][name := o1];
    assert Run(c2) == Some(Build(map[name := o1], Some(name)));
    assert Run(c3) == Some(Build(map[name := o1], Some(name)));
    var o := o1.(torques := [x]);
    assert Run(calls).value.objects[name] == o;
    assert Get(o, Angles) != [] && Get(o, Torques) != [];
  }

  // ---------------------------------------------------------------- the builder object

  class ObjectNode {
    ghost const home: Bytes
    var angles: seq<Double>
    var velocities: seq<Double>
    var torques: seq<Double>
    var values: seq<Double>
    var events: map<Bytes, bool>

    constructor (ghost home: Bytes)
      ensures this.home == home && Contents() == NEW_OBJECT
    {
      this.home, angles, velocities, torques, values, events := home, [], [], [], [], map[];
    }

    function Contents(): ObjectV
      reads this
    {
      ObjectV(angles, velocities, torques, values, events)
    }
  }

  class ControlMessageBuilder {
    var objects: map<Bytes, ObjectNode>
    var currObject: ObjectNode?
    ghost var model: Build
    ghost var nodes: set<ObjectNode>

    ghost predicate Valid()
      reads this, nodes
    {
      && objects.Keys == model.objects.Keys
      && (forall k :: k in objects ==> objects[k] in nodes)
      && (forall k :: k in objects ==> objects[k].home == k && objects[k].Contents() == model.objects[k])
      && (currObject == null <==> model.obj.None?)
      && (currObject != null ==> model.obj.value in objects && objects[model.obj.value] == currObject)
    }

    constructor ()
      ensures Valid() && model == Build(map[], None) && nodes == {}
    {
      objects, currObject := map[], null;
      model, nodes := Build(map[], None), {};
    }

    /** What build() hands over. */
    function Contents(): (os: map<Bytes, ObjectV>)
      requires Valid()
      reads this, nodes
      ensures os == model.objects
    {
      map k | k in objects :: objects[k].Contents()
    }

    /** A node that is under no name yet. */
    method NewObject(ghost name: Bytes) returns (node: ObjectNode)
      requires Valid()
      modifies this`nodes
      ensures Valid() && nodes == old(nodes) + {node} && fresh(node)
      ensures node.home == name && node.Contents() == NEW_OBJECT
    {
      node := new ObjectNode(name);
      nodes := nodes + {node};
    }

    method Object(name: Bytes)
      requires Valid()
      modifies this
      ensures Valid() && model == Step(old(model), SelectObject(name)) && fresh(nodes - old(nodes))
    {
      if name !in objects {
        var node := NewObject(name);
        objects := objects[name := node];
      }
      currObject := objects[name];
      model := Step(model, SelectObject(name));
    }

    method WithAngles(xs: seq<Double>)
      requires Valid() && currObject != null
      modifies this`model, currObject
      ensures Valid() && model == Step(old(model), Assign(Angles, xs))
    {
      currObject.angles := xs;
      model := Step(model, Assign(Angles, xs));
    }

    method WithValues(xs: seq<Double>)
      requires Valid() && currObject != null
      modifies this`model, currObject
      ensures Valid() && model == Step(old(model), Assign(Values, xs))
    {
      currObject.values := xs;
      model := Step(model, Assign(Values, xs));
    }

    method WithAngularVelocities(xs: seq<Double>)
      requires Valid() && currObject != null
      modifies this`model, currObject
      ensures Valid() && model == Step(old(model), Assign(Velocities, xs))
    {
      currObject.velocities := xs;
      model := Step(model, Assign(Velocities, xs));
    }

    method WithTorques(xs: seq<Double>)
      requires Valid() && currObject != null
      modifies this`model, currObject
      ensures Valid() && model == Step(old(model), Assign(Torques, xs))
    {
      currObject.torques := xs;
      model := Step(model, Assign(Torques, xs));
    }

    method WithControlEvent(name: Bytes, activated: bool)
      requires Valid() && currObject != null
      modifies this`model, currObject
      ensures Valid() && model == Step(old(model), SetEvent(name, activated))
    {
      currObject.events := currObject.events[name := activated];
      model := Step(model, SetEvent(name, activated));
    }

    /** The method that a call stands for. */
    method Perform(call: Call)
      requires Valid() && Ready(model, call)
      modifies this, nodes
      ensures Valid() && model == Step(old(model), call) && fresh(nodes - old(nodes))
    {
      match call
      case SelectObject(name) => Object(name);
      case Assign(Angles, xs) => WithAngles(xs);
      case Assign(Velocities, xs) => WithAngularVelocities(xs);
      case Assign(Torques, xs) => WithTorques(xs);
      case Assign(Values, xs) => WithValues(xs);
      case SetEvent(name, activated) => WithControlEvent(name, activated);
    }
  }

  lemma {:induction false} PrefixRuns(calls: seq<Call>, n: nat)
    requires Run(calls).Some? && n <= |calls|
    ensures Run(calls[..n]).Some?
  {
    if n < |calls| {
      PrefixRuns(calls[..|calls| - 1], n);
      assert calls[..|calls| - 1][..n] == calls[..n];
    } else {
      assert calls[..n] == calls;
    }
  }

  /** Builder refinement over whole chains: making the calls on a new builder, one after the other,
      leaves in its nodes the message of the fold. */
  method Replay(calls: seq<Call>) returns (b: ControlMessageBuilder)
    requires Run(calls).Some?
    ensures fresh(b) && fresh(b.nodes) && b.Valid()
    ensures b.model == Run(calls).value && b.Contents() == Run(calls).value.objects
  {
    hide Step, Ready;
    b := new ControlMessageBuilder();
    for i := 0 to |calls|
      invariant fresh(b) && fresh(b.nodes) && b.Valid()
      invariant Run(calls[..i]) == Some(b.model)
    {
      PrefixRuns(calls, i + 1);
      assert calls[..i + 1][..i] == calls[..i];
      b.Perform(calls[i]);
    }
    assert calls[..|calls|] == calls;
  }
}
