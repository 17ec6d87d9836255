/** From a chain of builder calls, over the wire, to the reader: what was pushed is what is read. */
module SensorFidelity {
  import opened Wire
  import opened Utf8
  import opened Schema
  import opened Codec
  import opened Dispatch
  import opened SensorMessages
  import opened SensorBuilder

  /** The object in force after some calls: the one selected last. */
  function ObjectAt(calls: seq<Call>): Option<Bytes> {
    if calls == [] then None
    else
      var last := calls[|calls| - 1];
      if last.SelectObject? then Some(last.name) else ObjectAt(calls[..|calls| - 1])
  }

  predicate NoSelection(calls: seq<Call>) {
    forall c | c in calls :: !c.SelectSensor?
  }

  /** The pushes up to the next selection of a sensor. */
  function PushedBefore(calls: seq<Call>): seq<Reading> {
    if calls == [] then []
    else
      var n := |calls| - 1;
      var earlier := PushedBefore(calls[..n]);
      if calls[n].Push? && NoSelection(calls[..n]) then earlier + [calls[n].r] else earlier
  }

  /** Call `i` is the last selection of sensor `name` on object `key`. */
  ghost predicate LastSelection(calls: seq<Call>, i: nat, key: Bytes, name: Bytes) {
    && i < |calls| && calls[i] == SelectSensor(name) && ObjectAt(calls[..i]) == Some(key)
    && forall j | i < j < |calls| :: !(calls[j] == SelectSensor(name) && ObjectAt(calls[..j]) == Some(key))
  }

  lemma {:induction false} CursorIsObjectAt(calls: seq<Call>)
    requires Run(calls).Some?
    ensures Run(calls).value.obj == ObjectAt(calls)
  {
    if calls != [] {
      CursorIsObjectAt(calls[..|calls| - 1]);
    }
  }

  /** After the last selection of a sensor its list is exactly what was pushed before the next
      selection of any sensor; everything else done to the message in between leaves it alone. */
  lemma {:induction false} SensorHoldsPushes(calls: seq<Call>, i: nat, key: Bytes, name: Bytes)
    requires Run(calls).Some? && LastSelection(calls, i, key, name)
    ensures var b := Run(calls).value;
            && key in b.m.objects && name in b.m.objects[key].sensors
            && b.m.objects[key].sensors[name] == PushedBefore(calls[i + 1..])
            && (b.sen == Some((key, name)) <==> NoSelection(calls[i + 1..]))
    decreases |calls|
  {
    var n := |calls| - 1;
    var before := calls[..n];
    if i == n {
      CursorIsObjectAt(before);
      assert calls[i + 1..] == [];
    } else {
      var b, call := Run(before).value, calls[n];
      forall j | 0 <= j <= n ensures before[..j] == calls[..j] {}
      SensorHoldsPushes(before, i, key, name);
      CursorIsObjectAt(before);
      assert calls[i + 1..][..n - i - 1] == before[i + 1..];
      assert calls[i + 1..] == before[i + 1..] + [call];
      OtherCalls(b, call, key, name);
    }
  }

  /** A call that does not select this sensor changes its list only by pushing through the cursor. */
  lemma OtherCalls(b: Build, call: Call, key: Bytes, name: Bytes)
    requires Ready(b, call) && key in b.m.objects && name in b.m.objects[key].sensors
    requires !(call == SelectSensor(name) && b.obj == Some(key))
    ensures var b' := Step(b, call);
            && key in b'.m.objects && name in b'.m.objects[key].sensors
            && b'.m.objects[key].sensors[name]
               == (if call.Push? && b.sen == Some((key, name)) then b.m.objects[key].sensors[name] + [call.r]
                   else b.m.objects[key].sensors[name])
            && (b'.sen == Some((key, name)) <==> !call.SelectSensor? && b.sen == Some((key, name)))
  {
  }

  /** Some call selected sensor `name` of object `key`. */
  predicate Selected(calls: seq<Call>, key: Bytes, name: Bytes) {
    exists i :: 0 <= i < |calls| && calls[i] == SelectSensor(name) && ObjectAt(calls[..i]) == Some(key)
  }

  lemma SelectedStep(calls: seq<Call>, key: Bytes, name: Bytes)
    requires calls != []
    ensures var n := |calls| - 1;
            Selected(calls, key, name) <==>
            Selected(calls[..n], key, name) || (calls[n] == SelectSensor(name) && ObjectAt(calls[..n]) == Some(key))
  {
    var n := |calls| - 1;
    var before := calls[..n];
    forall j | 0 <= j <= n ensures before[..j] == calls[..j] {}
    if Selected(before, key, name) {
      var i :| 0 <= i < n && before[i] == SelectSensor(name) && ObjectAt(before[..i]) == Some(key);
      assert calls[i] == SelectSensor(name);
    }
    if Selected(calls, key, name) {
      var i :| 0 <= i <= n && calls[i] == SelectSensor(name) && ObjectAt(calls[..i]) == Some(key);
      assert i < n ==> before[i] == SelectSensor(name);
    }
  }

  /** The message holds exactly the sensors that were selected. */
  lemma {:induction false} SensorsAreSelected(calls: seq<Call>, key: Bytes, name: Bytes)
    requires Run(calls).Some?
    ensures var os := Run(calls).value.m.objects;
            (key in os && name in os[key].sensors) <==> Selected(calls, key, name)
  {
    hide Selected;
    if calls == [] {
      assert !Selected(calls, key, name) by { NoneSelected(key, name); }
    } else {
      var n := |calls| - 1;
      SensorsAreSelected(calls[..n], key, name);
      CursorIsObjectAt(calls[..n]);
      SelectedStep(calls, key, name);
    }
  }

  lemma NoneSelected(key: Bytes, name: Bytes)
    ensures !Selected([], key, name)
  {
  }

  /** A sensor never selected is out of range. */
  lemma UnselectedIsOutOfRange(calls: seq<Call>, key: Bytes, name: Bytes)
    requires Run(calls).Some? && !Selected(calls, key, name)
    ensures SensorReadings(MessageMsg(Run(calls).value.m), key, name) == OutOfRange
  {
    hide Run, MessageMsg, Selected;
    SensorsAreSelected(calls, key, name);
    ListOfMessage(Run(calls).value.m, key, name);
  }

  /** Names and readings as the typed calls supply them. */
  predicate CallIsFine(call: Call) {
    match call
    case SelectObject(name) => ValidUtf8(name)
    case SelectSensor(name) => ValidUtf8(name)
    case AddObjectSensor(r) => IsPush(r)
    case Push(r) => IsPush(r)
    case _ => true
  }

  lemma StepIsFine(b: Build, call: Call)
    requires Ready(b, call) && IsFine(b.m) && CallIsFine(call)
    ensures IsFine(Step(b, call).m)
  {
    hide ValidUtf8;
    var m' := Step(b, call).m;
    forall k | k in m'.objects ensures ValidUtf8(k) && ObjectIsFine(m'.objects[k]) {
      if k in b.m.objects {
        assert ObjectIsFine(b.m.objects[k]);
      }
    }
  }

  lemma {:induction false} RunIsFine(calls: seq<Call>)
    requires Run(calls).Some? && forall c | c in calls :: CallIsFine(c)
    ensures IsFine(Run(calls).value.m)
  {
    hide CallIsFine, Step, Ready;
    if calls != [] {
      RunIsFine(calls[..|calls| - 1]);
      StepIsFine(Run(calls[..|calls| - 1]).value, calls[|calls| - 1]);
    }
  }

  lemma {:induction false} PushedAreFine(calls: seq<Call>)
    requires forall c | c in calls :: CallIsFine(c)
    ensures forall r | r in PushedBefore(calls) :: IsPush(r)
  {
    if calls != [] {
      PushedAreFine(calls[..|calls| - 1]);
      assert CallIsFine(calls[|calls| - 1]);
    }
  }

  /** End-to-end fidelity.  For every chain of calls, every map order and every sensor selected in it:
      the built message, serialized and decoded, comes back whole, and reading the sensor gives the
      readings pushed after its last selection, in order and with their types. */
  lemma SensorsArriveAsPushed(calls: seq<Call>, i: nat, key: Bytes, name: Bytes, ord: Order, past: Past)
    requires Run(calls).Some? && LastSelection(calls, i, key, name)
    requires forall c | c in calls :: CallIsFine(c)
    requires |Serialize(SensorMsg, MessageMsg(Run(calls).value.m), ord)| <= MAX_LEN
    ensures forall r | r in PushedBefore(calls[i + 1..]) :: IsPush(r)
    ensures var x := MessageMsg(Run(calls).value.m);
            && FromBytes(Serialize(SensorMsg, x, ord), past) == Decoded(SensorMsg, x)
            && SensorReadings(x, key, name) == Got(TaggedAll(PushedBefore(calls[i + 1..])))
  {
    hide Serialize, Ok, FromBytes, DecodeAll, ReadingMsgs, TaggedAll, Run, CallIsFine;
    var m := Run(calls).value.m;
    RunIsFine(calls);
    MessageOk(m);
    TypeOfMessage(m);
    FromBytesUndoesSerialize(SensorMsg, MessageMsg(m), ord, past);
    SensorHoldsPushes(calls, i, key, name);
    PushedAreFine(calls[i + 1..]);
    ListOfMessage(m, key, name);
    DecodePushes(PushedBefore(calls[i + 1..]));
  }

  // ---------------------------------------------------------------- the lists and the time

  /** The three lists of an object that are assigned. */
  datatype ListName = Angles | Velocities | Torques

  function ListIn(o: ObjectV, w: ListName): seq<Double> {
    match w
    case Angles => o.angles
    case Velocities => o.velocities
    case Torques => o.torques
  }

  function ListNumber(w: ListName): FieldNum {
    match w
    case Angles => 1
    case Velocities => 2
    case Torques => 3
  }

  function AssignedBy(call: Call, w: ListName): Option<seq<Double>> {
    match (call, w)
    case (SetAngles(xs), Angles) => Some(xs)
    case (SetVelocities(xs), Velocities) => Some(xs)
    case (SetTorques(xs), Torques) => Some(xs)
    case _ => None
  }

  /** The list last assigned to an object; empty if none was. */
  function LastList(calls: seq<Call>, key: Bytes, w: ListName): seq<Double> {
    if calls == [] then []
    else
      var n := |calls| - 1;
      if AssignedBy(calls[n], w).Some? && ObjectAt(calls[..n]) == Some(key) then AssignedBy(calls[n], w).value
      else LastList(calls[..n], key, w)
  }

  function LastTime(calls: seq<Call>): Double {
    if calls == [] then ZERO
    else
      var last := calls[|calls| - 1];
      if last.SetTime? then last.t else LastTime(calls[..|calls| - 1])
  }

  lemma ListAfter(b: Build, call: Call, key: Bytes, w: ListName)
    requires Ready(b, call)
    ensures var os, os' := b.m.objects, Step(b, call).m.objects;
            && (key in os' <==> key in os || call == SelectObject(key))
            && (if key in os' then ListIn(os'[key], w) else [])
               == if AssignedBy(call, w).Some? && b.obj == Some(key) then AssignedBy(call, w).value
                  else if key in os then ListIn(os[key], w) else []
  {
  }

  lemma {:induction false} HoldsLastList(calls: seq<Call>, key: Bytes, w: ListName)
    requires Run(calls).Some?
    ensures var m := Run(calls).value.m;
            && (key in m.objects <==> SelectObject(key) in calls)
            && LastList(calls, key, w) == (if key in m.objects then ListIn(m.objects[key], w) else [])
            && LastTime(calls) == if m.time.Some? then m.time.value else ZERO
  {
    hide AssignedBy, ListIn;
    if calls != [] {
      var n := |calls| - 1;
      HoldsLastList(calls[..n], key, w);
      CursorIsObjectAt(calls[..n]);
      ListAfter(Run(calls[..n]).value, calls[n], key, w);
      assert calls == calls[..n] + [calls[n]];
    }
  }

  /** angles(name), angularVelocities(name), torques(name); None where `at` throws. */
  function ListRead(m: Msg, name: Bytes, w: ListName): Option<seq<Double>> {
    match MsgAt(EntriesOf(m, 3), name)
    case None => None
    case Some(o) => Some(DoublesOf(o, ListNumber(w)))
  }

  /** simulatedTime(): zero where it is absent. */
  function TimeRead(m: Msg): Double {
    DoubleOf(MsgOf(m, 4), 1)
  }

  lemma ListOfObject(o: ObjectV, w: ListName)
    ensures DoublesOf(ObjectMsg(o), ListNumber(w)) == ListIn(o, w)
  {
    hide ReadingMsgs, SensorEntries;
  }

  lemma TimeOfMessage(m: MessageV)
    ensures TimeRead(MessageMsg(m)) == if m.time.Some? then m.time.value else ZERO
  {
    hide ObjectEntries;
  }

  lemma ListReadsBack(m: MessageV, name: Bytes, w: ListName)
    ensures ListRead(MessageMsg(m), name, w) == if name in m.objects then Some(ListIn(m.objects[name], w)) else None
  {
    hide ObjectMsg;
    assert EntriesOf(MessageMsg(m), 3) == ObjectEntries(m.objects);
    if name in m.objects {
      ListOfObject(m.objects[name], w);
    }
  }

  /** The lists and the time a reader finds are those last assigned, and it fails exactly for names
      never selected. */
  lemma ListsReadAsAssigned(calls: seq<Call>, key: Bytes, w: ListName)
    requires Run(calls).Some?
    ensures var x := MessageMsg(Run(calls).value.m);
            && ListRead(x, key, w) == (if SelectObject(key) in calls then Some(LastList(calls, key, w)) else None)
            && TimeRead(x) == LastTime(calls)
  {
    hide Run, MessageMsg, ListRead, TimeRead;
    HoldsLastList(calls, key, w);
    ListReadsBack(Run(calls).value.m, key, w);
    TimeOfMessage(Run(calls).value.m);
  }

  lemma TypeOfMessage(m: MessageV)
    ensures ClassOf(TypeOf(MessageMsg(m))) == Some(SensorMsg)
  {
    hide ObjectEntries;
  }
}
