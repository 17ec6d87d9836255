/** A control message as bytes, written out by hand from Messaging.proto. */
module ControlBytes {
  import opened Wire
  import opened Schema
  import opened Codec
  import opened ControlBuilder
  import opened ControlFidelity
  import opened Layout

  function EventValueBytes(events: map<Bytes, bool>): (Bytes, nat) -> Bytes {
    (name, i) => if name in events then [0x10, if events[name] then 1 else 0] else []
  }

  /** An object, with its events in the order in which the map is iterated. */
  function ObjectBytes(o: ObjectV, path: seq<nat>, ord: Order): Bytes {
    Doubles(0x0A, o.angles) + Doubles(0x12, o.velocities) + Doubles(0x1A, o.torques)
    + Entries(0x22, ord(path + [4], EventEntries(o.events)), EventValueBytes(o.events))
    + Doubles(0x2A, o.values)
  }

  function ObjectValueBytes(objects: map<Bytes, ObjectV>, ord: Order): (Bytes, nat) -> Bytes {
    (name, i) => if name in objects then Delimited(0x12, ObjectBytes(objects[name], [2, i], ord)) else []
  }

  /** The whole message: type 2 and the objects. */
  function MessageBytes(objects: map<Bytes, ObjectV>, ord: Order): Bytes {
    [0x08, 2] + Entries(0x12, ord([2], ObjectEntries(objects)), ObjectValueBytes(objects, ord))
  }

  // ---------------------------------------------------------------- that is what the serializer writes

  lemma EventsWritten(events: map<Bytes, bool>, path: seq<nat>, ord: Order)
    ensures ValuesAre(BoolValue, EventEntries(events), path, ord, EventValueBytes(events))
  {
    hide PutRecord;
    forall name, i: nat | name in events
      ensures PutRecords(ValRecords(BoolField, 2, VBool(events[name]), path + [i], ord))
           == [0x10, if events[name] then 1 else 0]
    {
      var r := Record(2, Varint(BoolVarint(events[name])));
      assert ValRecords(BoolField, 2, VBool(events[name]), path + [i], ord) == [r];
      OneRecord(r);
      BoolRecord(events[name]);
    }
  }

  lemma BoolRecord(b: bool)
    ensures PutRecord(Record(2, Varint(BoolVarint(b)))) == [0x10, if b then 1 else 0]
  {
    SmallTag(2, 0);
  }

  lemma ObjectHolds(o: ObjectV)
    ensures var m := ObjectMsg(o);
            && Holds(m, 1, VDoubles(o.angles)) && Holds(m, 2, VDoubles(o.velocities))
            && Holds(m, 3, VDoubles(o.torques)) && Holds(m, 4, VMap(EventEntries(o.events)))
            && Holds(m, 5, VDoubles(o.values))
            && m.unknown == [] && m.fields.Keys <= {1, 2, 3, 4, 5}
  {
    hide EventEntries, Store, Holds, IsDefault;
    var m := EMPTY;
    Stored(m, 1, VDoubles(o.angles));
    m := Store(m, 1, VDoubles(o.angles));
    Stored(m, 2, VDoubles(o.velocities));
    m := Store(m, 2, VDoubles(o.velocities));
    Stored(m, 3, VDoubles(o.torques));
    m := Store(m, 3, VDoubles(o.torques));
    Stored(m, 5, VDoubles(o.values));
    m := Store(m, 5, VDoubles(o.values));
    Stored(m, 4, VMap(EventEntries(o.events)));
  }

  lemma ObjectFields()
    ensures forall n | n in {1, 2, 3, 5} :: FieldOf(ControlObject, n) == Some(PackedDoubles)
    ensures FieldOf(ControlObject, 4) == Some(MapField(BoolValue))
  {
  }

  lemma ObjectWritten(o: ObjectV, path: seq<nat>, ord: Order)
    ensures SerializeAt(ControlObject, ObjectMsg(o), path, ord) == ObjectBytes(o, path, ord)
  {
    hide ObjectMsg, EventEntries, FieldBytes, BytesFrom, IsDefault, Holds, Doubles, ValuesAre, EventValueBytes,
         Entries, FieldOf, SerializeAt;
    var m := ObjectMsg(o);
    ObjectHolds(o);
    ObjectFields();
    Whole(ControlObject, m, path, ord);
    NextField(ControlObject, 1, m, path, ord);
    PackedBytes(ControlObject, 1, m, o.angles, path, ord);
    NextField(ControlObject, 2, m, path, ord);
    PackedBytes(ControlObject, 2, m, o.velocities, path, ord);
    NextField(ControlObject, 3, m, path, ord);
    PackedBytes(ControlObject, 3, m, o.torques, path, ord);
    NextField(ControlObject, 4, m, path, ord);
    EventsWritten(o.events, path + [4], ord);
    MapBytes(ControlObject, 4, m, BoolValue, EventEntries(o.events), path, ord, EventValueBytes(o.events));
    NextField(ControlObject, 5, m, path, ord);
    PackedBytes(ControlObject, 5, m, o.values, path, ord);
    NothingAbove(ControlObject, 6, m, path, ord);
  }

  lemma ObjectEntriesWritten(objects: map<Bytes, ObjectV>, ord: Order)
    ensures ValuesAre(MessageValue(ControlObject), ObjectEntries(objects), [2], ord, ObjectValueBytes(objects, ord))
  {
    hide SerializeAt, ObjectMsg, PutRecord, Delimited, ObjectBytes;
    forall name, i: nat | name in objects
      ensures PutRecords(ValRecords(MessageField(ControlObject), 2, VMsg(ObjectMsg(objects[name])), [2] + [i], ord))
           == Delimited(0x12, ObjectBytes(objects[name], [2, i], ord))
    {
      assert [2] + [i] == [2, i];
      ObjectWritten(objects[name], [2, i], ord);
      LenRecord(2, ObjectBytes(objects[name], [2, i], ord));
      OneRecord(Record(2, Len(ObjectBytes(objects[name], [2, i], ord))));
    }
  }

  lemma MessageHolds(objects: map<Bytes, ObjectV>)
    ensures var x := MessageMsg(objects);
            && Holds(x, 1, VInt(2)) && Holds(x, 2, VMap(ObjectEntries(objects)))
            && x.unknown == [] && x.fields.Keys <= {1, 2}
  {
    hide ObjectEntries;
  }

  /** A control message goes out as the bytes that Messaging.proto prescribes. */
  lemma ControlMessageWritten(objects: map<Bytes, ObjectV>, ord: Order)
    ensures Serialize(Control, MessageMsg(objects), ord) == MessageBytes(objects, ord)
  {
    hide MessageMsg, ObjectEntries, FieldBytes, BytesFrom, IsDefault, Holds, ValuesAre, ObjectValueBytes, Entries,
         SerializeAt, EnumUnlessZero;
    var x := MessageMsg(objects);
    MessageHolds(objects);
    Whole(Control, x, [], ord);
    NextField(Control, 1, x, [], ord);
    IntBytes(Control, 1, x, 2, [], ord);
    SmallEnum(8, 2);
    NextField(Control, 2, x, [], ord);
    assert [] + [2] == [2];
    ObjectEntriesWritten(objects, ord);
    MapBytes(Control, 2, x, MessageValue(ControlObject), ObjectEntries(objects), [], ord,
             ObjectValueBytes(objects, ord));
    NothingAbove(Control, 3, x, [], ord);
  }
}
