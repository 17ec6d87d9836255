/** SensorMessage::objectPosition and objectRPY: the first object sensor of a case, searched in the
    order in which the builder added them. */
module ObjectVectors {
  import opened Wire
  import opened Schema
  import opened Codec
  import opened Dispatch
  import opened SensorMessages
  import opened SensorBuilder
  import opened SensorFidelity

  /** objects().at(object).objectsensors() */
  function ObjectSensorList(m: Msg, objectName: Bytes): Option<seq<Msg>> {
    match MsgAt(EntriesOf(m, 3), objectName)
    case None => None
    case Some(o) => Some(MsgsOf(o, 4))
  }

  function FirstIn(ms: seq<Msg>, c: Case): Answer<SensorValue> {
    if ms == [] then NotOfType
    else if Has(ms[0], c) then CreateFrom(ms[0], c)
    else FirstIn(ms[1..], c)
  }

  /** The vector of case `c` read for an object. */
  function ObjectVector(m: Msg, objectName: Bytes, c: Case): Answer<SensorValue> {
    match ObjectSensorList(m, objectName)
    case None => OutOfRange
    case Some(ms) => FirstIn(ms, c)
  }

  /** The search loop of both readers. */
  method FindVector(m: Msg, objectName: Bytes, c: Case) returns (r: Answer<SensorValue>)
    ensures r == ObjectVector(m, objectName, c)
  {
    var list := ObjectSensorList(m, objectName);
    if list.None? { return OutOfRange; }
    var ms := list.value;
    for i := 0 to |ms|
      invariant FirstIn(ms, c) == FirstIn(ms[i..], c)
    {
      if Has(ms[i], c) { return CreateFrom(ms[i], c); }
      assert ms[i..][1..] == ms[i + 1..];
    }
    return NotOfType;
  }

  // ---------------------------------------------------------------- from the builder's calls

  /** Everything ever added to an object; nothing takes an object sensor away. */
  function AddedTo(calls: seq<Call>, key: Bytes): seq<Reading> {
    if calls == [] then []
    else
      var n := |calls| - 1;
      AddedTo(calls[..n], key)
      + if calls[n].AddObjectSensor? && ObjectAt(calls[..n]) == Some(key) then [calls[n].r] else []
  }

  /** The first vector of case `c` among some readings. */
  function FirstVector(rs: seq<Reading>, c: Case): Option<seq<Double>> {
    if rs == [] then None
    else if rs[0].Vector? && rs[0].c == c then Some(rs[0].arr)
    else FirstVector(rs[1..], c)
  }

  lemma {:induction false} ObjectHoldsAdded(calls: seq<Call>, key: Bytes)
    requires Run(calls).Some?
    ensures var os := Run(calls).value.m.objects;
            && (key in os <==> SelectObject(key) in calls)
            && AddedTo(calls, key) == if key in os then os[key].objectSensors else []
  {
    hide Step, Ready;
    if calls != [] {
      var n := |calls| - 1;
      ObjectHoldsAdded(calls[..n], key);
      CursorIsObjectAt(calls[..n]);
      AddedAfter(Run(calls[..n]).value, calls[n], key);
      assert calls == calls[..n] + [calls[n]];
    }
  }

  lemma AddedAfter(b: Build, call: Call, key: Bytes)
    requires Ready(b, call)
    ensures var os, os' := b.m.objects, Step(b, call).m.objects;
            && (key in os' <==> key in os || call == SelectObject(key))
            && (if key in os' then os'[key].objectSensors else [])
               == (if key in os then os[key].objectSensors else [])
                  + if call.AddObjectSensor? && b.obj == Some(key) then [call.r] else []
  {
    assert forall rs: seq<Reading> :: rs + [] == rs;
  }

  lemma {:induction false} FirstOfReadings(rs: seq<Reading>, c: Case)
    requires IsVector(c) && forall r | r in rs :: IsPush(r)
    ensures var v := FirstVector(rs, c);
            && (v.Some? ==> |v.value| == 3)
            && FirstIn(ReadingMsgs(rs), c)
               == if v.None? then NotOfType else Got(Vec3Value(v.value[0], v.value[1], v.value[2]))
  {
    hide CreateFrom, Has, ReadingMsg;
    if rs != [] {
      FirstOfReadings(rs[1..], c);
      assert ReadingMsgs(rs)[1..] == ReadingMsgs(rs[1..]);
      OneReading(rs[0], c);
    }
  }

  lemma OneReading(r: Reading, c: Case)
    requires IsVector(c) && IsPush(r)
    ensures Has(ReadingMsg(r), c) <==> r.Vector? && r.c == c
    ensures r.Vector? && r.c == c ==> CreateFrom(ReadingMsg(r), c) == Got(Vec3Value(r.arr[0], r.arr[1], r.arr[2]))
  {
    hide VectorIn;
    if r.Vector? {
      VectorComesBack(r.c, r.arr);
    }
  }

  lemma ListOfObject(m: MessageV, objectName: Bytes)
    ensures ObjectSensorList(MessageMsg(m), objectName)
         == if objectName in m.objects then Some(ReadingMsgs(m.objects[objectName].objectSensors)) else None
  {
    hide ReadingMsgs, ObjectMsg;
    assert EntriesOf(MessageMsg(m), 3) == ObjectEntries(m.objects);
    if objectName in m.objects {
      SensorsInObject(m.objects[objectName]);
    }
  }

  lemma SensorsInObject(o: ObjectV)
    ensures MsgsOf(ObjectMsg(o), 4) == ReadingMsgs(o.objectSensors)
  {
    hide ReadingMsg, SensorEntries;
  }

  lemma {:induction false} AddedAreFine(calls: seq<Call>, key: Bytes)
    requires forall c | c in calls :: CallIsFine(c)
    ensures forall r | r in AddedTo(calls, key) :: IsPush(r)
  {
    if calls != [] {
      AddedAreFine(calls[..|calls| - 1], key);
      assert CallIsFine(calls[|calls| - 1]);
    }
  }

  /** From a chain of calls, over the wire, to the reader: the position (or orientation) read for an
      object is the first one given for it in the whole chain, however often the object was selected
      again and later values added; later values are sent but not read. */
  lemma FirstVectorArrives(calls: seq<Call>, key: Bytes, c: Case, ord: Order, past: Past)
    requires Run(calls).Some? && IsVector(c) && forall c | c in calls :: CallIsFine(c)
    requires |Serialize(SensorMsg, MessageMsg(Run(calls).value.m), ord)| <= MAX_LEN
    ensures var x, v := MessageMsg(Run(calls).value.m), FirstVector(AddedTo(calls, key), c);
            && FromBytes(Serialize(SensorMsg, x, ord), past) == Decoded(SensorMsg, x)
            && (v.Some? ==> |v.value| == 3)
            && ObjectVector(x, key, c)
               == if SelectObject(key) !in calls then OutOfRange
                  else if v.None? then NotOfType
                  else Got(Vec3Value(v.value[0], v.value[1], v.value[2]))
  {
    hide Serialize, Ok, FromBytes, ReadingMsgs, Run, CallIsFine, MessageMsg, FirstIn, FirstVector, ObjectSensorList;
    var m := Run(calls).value.m;
    RunIsFine(calls);
    MessageOk(m);
    TypeOfMessage(m);
    FromBytesUndoesSerialize(SensorMsg, MessageMsg(m), ord, past);
    ObjectHoldsAdded(calls, key);
    AddedAreFine(calls, key);
    ListOfObject(m, key);
    FirstOfReadings(AddedTo(calls, key), c);
  }
}
