/** A control message from the builder's calls, over the wire, to its readers. */
module ControlFidelity {
  import opened Wire
  import opened Utf8
  import opened Schema
  import opened Codec
  import opened ParseLaws
  import opened Dispatch
  import opened ControlBuilder

  function VectorNumber(w: Which): FieldNum {
    match w
    case Angles => 1
    case Velocities => 2
    case Torques => 3
    case Values => 5
  }

  function EventEntries(events: map<Bytes, bool>): map<Bytes, Val> {
    map name | name in events :: VBool(events[name])
  }

  function ObjectMsg(o: ObjectV): Msg {
    var m := Store(EMPTY, 1, VDoubles(o.angles));
    var m := Store(m, 2, VDoubles(o.velocities));
    var m := Store(m, 3, VDoubles(o.torques));
    var m := Store(m, 5, VDoubles(o.values));
    Store(m, 4, VMap(EventEntries(o.events)))
  }

  function ObjectEntries(objects: map<Bytes, ObjectV>): map<Bytes, Val> {
    map name | name in objects :: VMsg(ObjectMsg(objects[name]))
  }

  /** The message object that a builder's contents amount to. */
  function MessageMsg(objects: map<Bytes, ObjectV>): Msg {
    Store(Put(EMPTY, 1, VInt(2)), 2, VMap(ObjectEntries(objects)))
  }

  ghost predicate IsFine(objects: map<Bytes, ObjectV>) {
    forall name | name in objects :: ValidUtf8(name) && forall e | e in objects[name].events :: ValidUtf8(e)
  }

  lemma EventsOk(events: map<Bytes, bool>, depth: nat)
    requires depth >= 1 && forall e | e in events :: ValidUtf8(e)
    ensures IsDefault(VMap(EventEntries(events))) || ValOk(MapField(BoolValue), depth, VMap(EventEntries(events)))
  {
    hide ValidUtf8;
  }

  lemma ObjectOk(o: ObjectV, depth: nat)
    requires depth >= 1 && forall e | e in o.events :: ValidUtf8(e)
    ensures Ok(ControlObject, depth, ObjectMsg(o))
  {
    hide Ok, ValOk, EventEntries, Store, IsDefault, ValidUtf8;
    EmptyOk(ControlObject, depth);
    DoublesOk(depth, o.angles);
    DoublesOk(depth, o.velocities);
    DoublesOk(depth, o.torques);
    DoublesOk(depth, o.values);
    EventsOk(o.events, depth);
    var m := EMPTY;
    StoreOk(ControlObject, depth, m, 1, VDoubles(o.angles));
    m := Store(m, 1, VDoubles(o.angles));
    StoreOk(ControlObject, depth, m, 2, VDoubles(o.velocities));
    m := Store(m, 2, VDoubles(o.velocities));
    StoreOk(ControlObject, depth, m, 3, VDoubles(o.torques));
    m := Store(m, 3, VDoubles(o.torques));
    StoreOk(ControlObject, depth, m, 5, VDoubles(o.values));
    m := Store(m, 5, VDoubles(o.values));
    StoreOk(ControlObject, depth, m, 4, VMap(EventEntries(o.events)));
  }

  lemma ObjectEntriesOk(objects: map<Bytes, ObjectV>, depth: nat)
    requires depth >= 4 && IsFine(objects)
    ensures IsDefault(VMap(ObjectEntries(objects)))
         || ValOk(MapField(MessageValue(ControlObject)), depth, VMap(ObjectEntries(objects)))
  {
    hide Ok, ValidUtf8, ObjectMsg;
    forall name | name in objects
      ensures EntryOk(MessageValue(ControlObject), depth - 1, VMsg(ObjectMsg(objects[name])))
    {
      ObjectOk(objects[name], depth - 2);
    }
  }

  lemma MessageOk(objects: map<Bytes, ObjectV>)
    requires IsFine(objects)
    ensures Ok(Control, MAX_DEPTH, MessageMsg(objects))
  {
    hide Ok, ObjectEntries, Store, Put, IsFine;
    EmptyOk(Control, MAX_DEPTH);
    PutOk(Control, MAX_DEPTH, EMPTY, 1, VInt(2));
    ObjectEntriesOk(objects, MAX_DEPTH);
    StoreOk(Control, MAX_DEPTH, Put(EMPTY, 1, VInt(2)), 2, VMap(ObjectEntries(objects)));
  }

  // ---------------------------------------------------------------- readers

  function ObjectIn(m: Msg, name: Bytes): Option<Msg> {
    MsgAt(EntriesOf(m, 2), name)
  }

  /** angles(name), angularVelocities(name), torques(name), values(name); None where `at` throws. */
  function VectorOf(m: Msg, name: Bytes, w: Which): Option<seq<Double>> {
    match ObjectIn(m, name)
    case None => None
    case Some(o) => Some(DoublesOf(o, VectorNumber(w)))
  }

  /** controlEvent(name, event); None where `at` throws. */
  function EventOf(m: Msg, name: Bytes, event: Bytes): Option<bool> {
    match ObjectIn(m, name)
    case None => None
    case Some(o) =>
      var es := EntriesOf(o, 4);
      if event in es && es[event].VBool? then Some(es[event].b) else None
  }

  lemma ReadsObject(objects: map<Bytes, ObjectV>, name: Bytes)
    ensures ObjectIn(MessageMsg(objects), name)
         == if name in objects then Some(ObjectMsg(objects[name])) else None
  {
    hide ObjectMsg;
    assert EntriesOf(MessageMsg(objects), 2) == ObjectEntries(objects);
  }

  lemma ReadsBack(objects: map<Bytes, ObjectV>, name: Bytes, w: Which, event: Bytes)
    ensures VectorOf(MessageMsg(objects), name, w)
         == if name in objects then Some(Get(objects[name], w)) else None
    ensures EventOf(MessageMsg(objects), name, event)
         == if name in objects && event in objects[name].events then Some(objects[name].events[event]) else None
  {
    hide MessageMsg;
    ReadsObject(objects, name);
  }

  // ---------------------------------------------------------------- end to end

  predicate CallIsFine(call: Call) {
    match call
    case SelectObject(name) => ValidUtf8(name)
    case Assign(_, _) => true
    case SetEvent(name, _) => ValidUtf8(name)
  }

  lemma {:induction false} RunIsFine(calls: seq<Call>)
    requires Run(calls).Some? && forall c | c in calls :: CallIsFine(c)
    ensures IsFine(Run(calls).value.objects)
  {
    hide ValidUtf8;
    if calls != [] {
      RunIsFine(calls[..|calls| - 1]);
      assert CallIsFine(calls[|calls| - 1]);
    }
  }

  /** The value last given to event `event` of object `name`. */
  function LastEvent(calls: seq<Call>, name: Bytes, event: Bytes): Option<bool> {
    if calls == [] then None
    else
      var n := |calls| - 1;
      if calls[n].SetEvent? && calls[n].name == event && ObjectAt(calls[..n]) == Some(name) then
        Some(calls[n].activated)
      else LastEvent(calls[..n], name, event)
  }

  lemma {:induction false} HoldsLastEvent(calls: seq<Call>, name: Bytes, event: Bytes)
    requires Run(calls).Some?
    ensures var os := Run(calls).value.objects;
            LastEvent(calls, name, event)
            == if name in os && event in os[name].events then Some(os[name].events[event]) else None
  {
    if calls != [] {
      var before := calls[..|calls| - 1];
      HoldsLastEvent(before, name, event);
      HoldsLastAssigned(before, name, Angles);
    }
  }

  /** For every chain through the staged interfaces and every map order: the message sent is the one
      received, and a reader finds in each object the vectors and events last assigned to it. */
  lemma ControlsArriveAsAssigned(calls: seq<Call>, ord: Order, past: Past)
    requires StageAfter(calls).Some? && forall c | c in calls :: CallIsFine(c)
    requires Run(calls).Some? ==> |Serialize(Control, MessageMsg(Run(calls).value.objects), ord)| <= MAX_LEN
    ensures Run(calls).Some?
    ensures var os := Run(calls).value.objects;
            var x := MessageMsg(os);
            && FromBytes(Serialize(Control, x, ord), past) == Decoded(Control, x)
            && (forall name, w: Which ::
                  VectorOf(x, name, w)
                  == if SelectObject(name) in calls then Some(LastAssigned(calls, name, w)) else None)
            && forall name, event :: EventOf(x, name, event) == LastEvent(calls, name, event)
  {
    hide Serialize, Ok, FromBytes, MessageMsg, VectorOf, EventOf, Run, CallIsFine, StageAfter, LastAssigned, LastEvent;
    StagesSetTheCursor(calls);
    var os := Run(calls).value.objects;
    RunIsFine(calls);
    MessageOk(os);
    TypeOfMessage(os);
    FromBytesUndoesSerialize(Control, MessageMsg(os), ord, past);
    forall name, w: Which
      ensures VectorOf(MessageMsg(os), name, w)
           == if SelectObject(name) in calls then Some(LastAssigned(calls, name, w)) else None
    {
      SelectedNames(calls, name);
      ReadsBack(os, name, w, []);
      HoldsLastAssigned(calls, name, w);
    }
    forall name, event ensures EventOf(MessageMsg(os), name, event) == LastEvent(calls, name, event) {
      ReadsBack(os, name, Angles, event);
      HoldsLastEvent(calls, name, event);
    }
  }

  lemma TypeOfMessage(objects: map<Bytes, ObjectV>)
    ensures ClassOf(TypeOf(MessageMsg(objects))) == Some(Control)
  {
    hide ObjectEntries;
  }
}
