/** Builder object, message object, bytes, decoder, readers: the whole way of a message, in objects. */
module EndToEnd {
  import opened Wire
  import opened Schema
  import opened Codec
  import opened Dispatch
  import opened SensorMessages
  import ControlBuilder
  import ControlFidelity
  import HandshakeBuilder
  import HandshakeFidelity
  import MessageObject
  import ObjectVectors
  import SensorBuilder
  import SensorFidelity
  import Serializer

  /** Serializes a message object and decodes the bytes at the other end. */
  method Transmit(c: Cls, m: Msg, ord: Order, past: Past) returns (received: Outcome)
    requires |Serialize(c, m, ord)| <= MAX_LEN
    ensures received == FromBytes(Serialize(c, m, ord), past)
  {
    hide Serialize, FromBytes;
    var sent := new MessageObject.MessageObject(c, m);
    var bytes := sent.SerializeAsString(ord);
    received := Serializer.Decode(bytes.value, past);
  }

  /** What every reader of a sensor message finds is what the calls say. */
  ghost predicate SensorReadsAsCalled(calls: seq<SensorBuilder.Call>, x: Msg) {
    && (forall i: nat, key, name | SensorFidelity.LastSelection(calls, i, key, name) ::
          SensorIsRead(calls, x, i, key, name))
    && (forall key, name | !SensorFidelity.Selected(calls, key, name) ::
          SensorReadings(x, key, name) == OutOfRange)
    && (forall key, c | IsVector(c) :: VectorIsRead(calls, x, key, c))
    && (forall key, w :: ListIsRead(calls, x, key, w))
    && SensorFidelity.TimeRead(x) == SensorFidelity.LastTime(calls)
  }

  /** sensor(key, name): what was pushed after its last selection, with its types. */
  ghost predicate SensorIsRead(calls: seq<SensorBuilder.Call>, x: Msg, i: nat, key: Bytes, name: Bytes)
    requires i < |calls|
  {
    var pushed := SensorFidelity.PushedBefore(calls[i + 1..]);
    (forall r | r in pushed :: IsPush(r)) && SensorReadings(x, key, name) == Got(TaggedAll(pushed))
  }

  /** objectPosition(key), objectRPY(key): the first one added. */
  ghost predicate VectorIsRead(calls: seq<SensorBuilder.Call>, x: Msg, key: Bytes, c: Case) {
    var v := ObjectVectors.FirstVector(ObjectVectors.AddedTo(calls, key), c);
    && (v.Some? ==> |v.value| == 3)
    && ObjectVectors.ObjectVector(x, key, c)
       == if SensorBuilder.SelectObject(key) !in calls then OutOfRange
          else if v.None? then NotOfType
          else Got(Vec3Value(v.value[0], v.value[1], v.value[2]))
  }

  /** angles(key), angularVelocities(key), torques(key): the last one assigned. */
  ghost predicate ListIsRead(calls: seq<SensorBuilder.Call>, x: Msg, key: Bytes, w: SensorFidelity.ListName) {
    SensorFidelity.ListRead(x, key, w)
    == if SensorBuilder.SelectObject(key) in calls then Some(SensorFidelity.LastList(calls, key, w)) else None
  }

  lemma SensorMessageReads(calls: seq<SensorBuilder.Call>, ord: Order, past: Past)
    requires SensorBuilder.Run(calls).Some? && forall c | c in calls :: SensorFidelity.CallIsFine(c)
    requires |Serialize(SensorMsg, MessageMsg(SensorBuilder.Run(calls).value.m), ord)| <= MAX_LEN
    ensures var x := MessageMsg(SensorBuilder.Run(calls).value.m);
            FromBytes(Serialize(SensorMsg, x, ord), past) == Decoded(SensorMsg, x) && SensorReadsAsCalled(calls, x)
  {
    hide Serialize, FromBytes, MessageMsg, SensorBuilder.Run, SensorFidelity.LastSelection, SensorIsRead,
         VectorIsRead, ListIsRead, SensorFidelity.CallIsFine, SensorFidelity.Selected, SensorReadings;
    var x := MessageMsg(SensorBuilder.Run(calls).value.m);
    forall i: nat, key, name | SensorFidelity.LastSelection(calls, i, key, name)
      ensures i < |calls| && SensorIsRead(calls, x, i, key, name)
    {
      SensorIs(calls, i, key, name, ord, past);
    }
    forall key, name | !SensorFidelity.Selected(calls, key, name)
      ensures SensorReadings(x, key, name) == OutOfRange
    {
      SensorFidelity.UnselectedIsOutOfRange(calls, key, name);
    }
    forall key, c | IsVector(c) ensures VectorIsRead(calls, x, key, c) {
      VectorIs(calls, key, c, ord, past);
    }
    forall key, w ensures ListIsRead(calls, x, key, w) {
      ListIs(calls, key, w);
    }
    SensorFidelity.ListsReadAsAssigned(calls, [], SensorFidelity.Angles);
    ObjectVectors.FirstVectorArrives(calls, [], Position, ord, past);
  }

  lemma SensorIs(calls: seq<SensorBuilder.Call>, i: nat, key: Bytes, name: Bytes, ord: Order, past: Past)
    requires SensorBuilder.Run(calls).Some? && forall c | c in calls :: SensorFidelity.CallIsFine(c)
    requires |Serialize(SensorMsg, MessageMsg(SensorBuilder.Run(calls).value.m), ord)| <= MAX_LEN
    requires SensorFidelity.LastSelection(calls, i, key, name)
    ensures i < |calls| && SensorIsRead(calls, MessageMsg(SensorBuilder.Run(calls).value.m), i, key, name)
  {
    hide Serialize, FromBytes, MessageMsg, SensorBuilder.Run, SensorReadings, SensorFidelity.CallIsFine;
    SensorFidelity.SensorsArriveAsPushed(calls, i, key, name, ord, past);
  }

  lemma VectorIs(calls: seq<SensorBuilder.Call>, key: Bytes, c: Case, ord: Order, past: Past)
    requires SensorBuilder.Run(calls).Some? && IsVector(c) && forall c | c in calls :: SensorFidelity.CallIsFine(c)
    requires |Serialize(SensorMsg, MessageMsg(SensorBuilder.Run(calls).value.m), ord)| <= MAX_LEN
    ensures VectorIsRead(calls, MessageMsg(SensorBuilder.Run(calls).value.m), key, c)
  {
    hide Serialize, FromBytes, MessageMsg, SensorBuilder.Run, ObjectVectors.ObjectVector, SensorFidelity.CallIsFine;
    ObjectVectors.FirstVectorArrives(calls, key, c, ord, past);
  }

  lemma ListIs(calls: seq<SensorBuilder.Call>, key: Bytes, w: SensorFidelity.ListName)
    requires SensorBuilder.Run(calls).Some?
    ensures ListIsRead(calls, MessageMsg(SensorBuilder.Run(calls).value.m), key, w)
  {
    hide MessageMsg, SensorBuilder.Run, SensorFidelity.ListRead;
    SensorFidelity.ListsReadAsAssigned(calls, key, w);
  }

  /** Makes the calls on a sensor builder, sends what it holds, and decodes it: the message received is
      the one built, and every reader finds in it what the calls say. */
  method SendSensors(calls: seq<SensorBuilder.Call>, ord: Order, past: Past)
    returns (b: SensorBuilder.SensorMessageBuilder, received: Outcome)
    requires SensorBuilder.Run(calls).Some? && forall c | c in calls :: SensorFidelity.CallIsFine(c)
    requires |Serialize(SensorMsg, MessageMsg(SensorBuilder.Run(calls).value.m), ord)| <= MAX_LEN
    ensures fresh(b) && b.Valid()
    ensures received == Decoded(SensorMsg, MessageMsg(b.Contents())) && SensorReadsAsCalled(calls, received.m)
  {
    hide Serialize, FromBytes, MessageMsg, SensorBuilder.Run, SensorReadsAsCalled, SensorFidelity.CallIsFine;
    b := SensorBuilder.Replay(calls);
    SensorMessageReads(calls, ord, past);
    received := Transmit(SensorMsg, MessageMsg(b.Contents()), ord, past);
  }

  /** What every reader of a control message finds is what the calls say. */
  ghost predicate ControlReadsAsCalled(calls: seq<ControlBuilder.Call>, x: Msg) {
    && (forall name, w: ControlBuilder.Which ::
          ControlFidelity.VectorOf(x, name, w)
          == if ControlBuilder.SelectObject(name) in calls then Some(ControlBuilder.LastAssigned(calls, name, w))
             else None)
    && forall name, event :: ControlFidelity.EventOf(x, name, event) == ControlFidelity.LastEvent(calls, name, event)
  }

  /** The same for a control builder used through its staged interfaces. */
  method SendControls(calls: seq<ControlBuilder.Call>, ord: Order, past: Past)
    returns (b: ControlBuilder.ControlMessageBuilder, received: Outcome)
    requires ControlBuilder.StageAfter(calls).Some? && forall c | c in calls :: ControlFidelity.CallIsFine(c)
    requires ControlBuilder.Run(calls).Some? ==>
               |Serialize(Control, ControlFidelity.MessageMsg(ControlBuilder.Run(calls).value.objects), ord)| <= MAX_LEN
    ensures fresh(b) && b.Valid()
    ensures received == Decoded(Control, ControlFidelity.MessageMsg(b.Contents()))
    ensures ControlReadsAsCalled(calls, received.m)
    ensures ControlBuilder.SelectsOnce(calls) ==>
              forall name | name in b.Contents() :: ControlBuilder.Exclusive(b.Contents()[name])
  {
    hide Serialize, FromBytes, ControlFidelity.MessageMsg, ControlBuilder.Run, ControlFidelity.CallIsFine,
         ControlBuilder.StageAfter, ControlBuilder.SelectsOnce, ControlBuilder.Exclusive;
    ControlFidelity.ControlsArriveAsAssigned(calls, ord, past);
    if ControlBuilder.SelectsOnce(calls) {
      ControlBuilder.StagedChainsAreExclusive(calls);
    }
    b := ControlBuilder.Replay(calls);
    received := Transmit(Control, ControlFidelity.MessageMsg(b.Contents()), ord, past);
  }

  /** The same for a handshake builder. */
  method SendHandshake(calls: seq<HandshakeBuilder.Call>, ord: Order, past: Past)
    returns (b: HandshakeBuilder.HandshakeMessageBuilder, received: Outcome)
    requires HandshakeBuilder.StageAfter(calls).Some? && forall c | c in calls :: HandshakeFidelity.CallIsFine(c)
    requires HandshakeBuilder.Run(calls).Some? ==>
               |Serialize(Handshake, HandshakeFidelity.MessageMsg(HandshakeBuilder.Run(calls).value.m), ord)| <= MAX_LEN
    ensures fresh(b) && b.Valid()
    ensures received == Decoded(Handshake, HandshakeFidelity.MessageMsg(b.Contents()))
    ensures IntOf(received.m, 1) == 1 && IntOf(received.m, 2) == 1
    ensures HandshakeFidelity.ReadsAsCalled(calls, received.m)
  {
    hide Serialize, FromBytes, HandshakeFidelity.MessageMsg, HandshakeBuilder.Run, HandshakeFidelity.CallIsFine,
         HandshakeBuilder.StageAfter, HandshakeFidelity.ReadsAsCalled;
    HandshakeFidelity.HandshakeArrives(calls, ord, past);
    b := HandshakeBuilder.Replay(calls);
    received := Transmit(Handshake, HandshakeFidelity.MessageMsg(b.Contents()), ord, past);
  }
}
