/** Names on the wire: what the builders make arrives exactly if every name in it spells a text. */
module Texts {
  import opened Wire
  import opened Utf8
  import opened Schema
  import opened Codec
  import opened ParseLaws
  import opened Dispatch
  import ControlBuilder
  import ControlFidelity
  import HandshakeBuilder
  import HandshakeFidelity
  import Layout
  import SensorBuilder
  import SensorBytes
  import SensorFidelity
  import SensorMessages

  // ---------------------------------------------------------------- names that a well-formed message holds

  lemma EntriesOk(c: Cls, depth: nat, m: Msg, n: nat, mv: MapValue)
    requires Ok(c, depth, m) && FieldOf(c, n) == Some(MapField(mv))
    ensures forall key | key in EntriesOf(m, n) ::
              ValidUtf8(key) && depth > 0 && EntryOk(mv, depth - 1, EntriesOf(m, n)[key])
  {
    hide Ok, FieldOf, ValidUtf8, EntryOk;
    FieldIsOk(c, depth, m, n);
  }

  lemma NestedEntriesOk(c: Cls, depth: nat, m: Msg, n: nat, c': Cls)
    requires Ok(c, depth, m) && FieldOf(c, n) == Some(MapField(MessageValue(c')))
    ensures forall key | key in EntriesOf(m, n) ::
              && ValidUtf8(key) && depth > 1
              && EntriesOf(m, n)[key].VMsg? && Ok(c', depth - 2, EntriesOf(m, n)[key].m)
  {
    hide Ok, FieldOf, ValidUtf8;
    EntriesOk(c, depth, m, n, MessageValue(c'));
    forall key | key in EntriesOf(m, n)
      ensures ValidUtf8(key) && depth > 1 && EntriesOf(m, n)[key].VMsg? && Ok(c', depth - 2, EntriesOf(m, n)[key].m)
    {
      assert EntryOk(MessageValue(c'), depth - 1, EntriesOf(m, n)[key]);
      assert NestedOk(c', depth - 1, EntriesOf(m, n)[key].m);
    }
  }

  lemma StringsOk(c: Cls, depth: nat, m: Msg, n: nat)
    requires Ok(c, depth, m) && FieldOf(c, n) == Some(Strings)
    ensures forall s | s in StringsOf(m, n) :: ValidUtf8(s)
  {
    hide Ok, FieldOf, ValidUtf8;
    FieldIsOk(c, depth, m, n);
  }

  // ---------------------------------------------------------------- sensor messages

  ghost predicate SensorNamesAreTexts(m: SensorMessages.MessageV) {
    forall name | name in m.objects ::
      IsText(name) && forall sensor | sensor in m.objects[name].sensors :: IsText(sensor)
  }

  lemma SensorNamesAreValid(m: SensorMessages.MessageV)
    requires Ok(SensorMsg, MAX_DEPTH, SensorMessages.MessageMsg(m))
    ensures SensorNamesAreTexts(m)
  {
    hide Ok, IsText, SensorMessages.ObjectMsg, SensorMessages.SensorsMsg;
    var x := SensorMessages.MessageMsg(m);
    assert EntriesOf(x, 3) == SensorMessages.ObjectEntries(m.objects);
    NestedEntriesOk(SensorMsg, MAX_DEPTH, x, 3, SensorObject);
    forall name | name in m.objects
      ensures IsText(name) && forall sensor | sensor in m.objects[name].sensors :: IsText(sensor)
    {
      assert name in EntriesOf(x, 3);
      ValidIffText(name);
      SensorMessages.SensorsOfObject(m.objects[name]);
      NestedEntriesOk(SensorObject, MAX_DEPTH - 2, SensorMessages.ObjectMsg(m.objects[name]), 6, Sensors);
      forall sensor | sensor in m.objects[name].sensors ensures IsText(sensor) {
        assert sensor in EntriesOf(SensorMessages.ObjectMsg(m.objects[name]), 6);
        ValidIffText(sensor);
      }
    }
  }

  /** A sensor message whose readings have the types of their cases arrives if and only if every name of
      an object or a sensor is a text. */
  lemma SensorMessageArrivesIffTexts(m: SensorMessages.MessageV, ord: Order, past: Past)
    requires forall name | name in m.objects ::
               && (forall r | r in m.objects[name].objectSensors :: SensorMessages.WellTyped(r))
               && forall s | s in m.objects[name].sensors ::
                    forall r | r in m.objects[name].sensors[s] :: SensorMessages.WellTyped(r)
    requires |Serialize(SensorMsg, SensorMessages.MessageMsg(m), ord)| <= MAX_LEN
    ensures var x := SensorMessages.MessageMsg(m);
            FromBytes(Serialize(SensorMsg, x, ord), past) == Decoded(SensorMsg, x) <==> SensorNamesAreTexts(m)
  {
    hide Serialize, FromBytes, Ok, ValidUtf8, IsText, SensorMessages.MessageMsg, SensorMessages.WellTyped;
    FromBytesUndoesSerialize(SensorMsg, SensorMessages.MessageMsg(m), ord, past);
    SensorFidelity.TypeOfMessage(m);
    if Ok(SensorMsg, MAX_DEPTH, SensorMessages.MessageMsg(m)) {
      SensorNamesAreValid(m);
    }
    if SensorNamesAreTexts(m) {
      forall name | name in m.objects ensures ValidUtf8(name) && SensorMessages.ObjectIsFine(m.objects[name]) {
        ValidIffText(name);
        forall s | s in m.objects[name].sensors ensures ValidUtf8(s) { ValidIffText(s); }
      }
      SensorMessages.MessageOk(m);
    }
  }

  const EURO: Bytes := [0xE2, 0x82, 0xAC]

  lemma EuroIsText()
    ensures EncodeAll([0x20AC]) == EURO && IsText(EURO)
  {
    var cps: seq<Scalar> := [0x20AC];
    assert cps[1..] == [] && EncodeAll(cps) == Encode(0x20AC) + [];
  }

  /** The message with one new object, named by the euro sign, byte for byte. */
  lemma EuroSignArrives(ord: Order, past: Past)
    ensures var b := SensorBuilder.Run([SensorBuilder.SelectObject(EURO)]);
            var bytes := [8, 3, 26, 7, 10, 3, 0xE2, 0x82, 0xAC, 18, 0];
            && b.Some?
            && Serialize(SensorMsg, SensorMessages.MessageMsg(b.value.m), ord) == bytes
            && FromBytes(bytes, past) == Decoded(SensorMsg, SensorMessages.MessageMsg(b.value.m))
  {
    hide Serialize, FromBytes, SensorMessages.MessageMsg;
    var calls := [SensorBuilder.SelectObject(EURO)];
    assert calls[..0] == [];
    assert SensorBuilder.Run(calls[..0]) == Some(SensorBuilder.START);
    var m := SensorBuilder.Run(calls).value.m;
    assert m.objects == map[EURO := SensorMessages.NEW_OBJECT];
    OneNewObject(EURO, ord);
    EuroIsText();
    SensorMessageArrivesIffTexts(m, ord, past);
  }

  lemma OneNewObject(name: Bytes, ord: Order)
    requires |name| < 100
    ensures var m := SensorMessages.MessageV(map[name := SensorMessages.NEW_OBJECT], None);
            Serialize(SensorMsg, SensorMessages.MessageMsg(m), ord)
            == [8, 3, 26, |name| + 4, 10, |name|] + name + [18, 0]
  {
    hide Serialize, SensorMessages.MessageMsg, SensorBytes.ObjectBytes, Layout.Entries, SensorMessages.ObjectMsg;
    var m := SensorMessages.MessageV(map[name := SensorMessages.NEW_OBJECT], None);
    SensorBytes.SensorMessageWritten(m, ord);
    var keys := ord([3], SensorMessages.ObjectEntries(m.objects));
    assert IsListing(keys, SensorMessages.ObjectEntries(m.objects).Keys);
    OneListed(keys, name);
    NewObjectIsEmpty([3, 1], ord);
    var value := SensorBytes.ObjectValueBytes(m.objects, ord);
    assert value(name, 1) == [18, 0];
    OneEntry(name, value);
  }

  lemma OneEntry(name: Bytes, value: (Bytes, nat) -> Bytes)
    requires |name| < 100 && value(name, 1) == [18, 0]
    ensures Layout.Entries(26, [name], value) == [26, |name| + 4, 10, |name|] + name + [18, 0]
  {
    assert Layout.Delimited(10, name) == [10, |name|] + name;
    assert [name][1..] == [];
    assert Layout.Entries(26, [name], value) == Layout.Delimited(26, Layout.Delimited(10, name) + [18, 0]) + [];
  }

  lemma OneListed(keys: seq<Bytes>, k: Bytes)
    requires IsListing(keys, {k})
    ensures keys == [k]
  {
    assert k in keys && (|keys| > 1 ==> keys[0] != keys[1]);
    forall i | 0 <= i < |keys| ensures keys[i] == k {
      assert keys[i] in keys;
    }
  }

  lemma NewObjectIsEmpty(path: seq<nat>, ord: Order)
    ensures SensorBytes.ObjectBytes(SensorMessages.NEW_OBJECT, path, ord) == []
  {
    var es := SensorMessages.SensorEntries(map[]);
    assert IsListing(ord(path + [6], es), es.Keys);
    Layout.FirstListed(ord(path + [6], es), {});
  }

  // ---------------------------------------------------------------- control messages

  ghost predicate ControlNamesAreTexts(objects: map<Bytes, ControlBuilder.ObjectV>) {
    forall name | name in objects :: IsText(name) && forall event | event in objects[name].events :: IsText(event)
  }

  lemma ControlNamesAreValid(objects: map<Bytes, ControlBuilder.ObjectV>)
    requires Ok(Control, MAX_DEPTH, ControlFidelity.MessageMsg(objects))
    ensures ControlNamesAreTexts(objects)
  {
    hide Ok, IsText, ControlFidelity.ObjectMsg;
    var x := ControlFidelity.MessageMsg(objects);
    assert EntriesOf(x, 2) == ControlFidelity.ObjectEntries(objects);
    NestedEntriesOk(Control, MAX_DEPTH, x, 2, ControlObject);
    forall name | name in objects
      ensures IsText(name) && forall event | event in objects[name].events :: IsText(event)
    {
      assert name in EntriesOf(x, 2);
      ValidIffText(name);
      EventsOfObject(objects[name]);
      EntriesOk(ControlObject, MAX_DEPTH - 2, ControlFidelity.ObjectMsg(objects[name]), 4, BoolValue);
      forall event | event in objects[name].events ensures IsText(event) {
        assert event in EntriesOf(ControlFidelity.ObjectMsg(objects[name]), 4);
        ValidIffText(event);
      }
    }
  }

  lemma EventsOfObject(o: ControlBuilder.ObjectV)
    ensures EntriesOf(ControlFidelity.ObjectMsg(o), 4) == ControlFidelity.EventEntries(o.events)
  {
  }

  /** A control message arrives if and only if every name of an object or an event is a text. */
  lemma ControlMessageArrivesIffTexts(objects: map<Bytes, ControlBuilder.ObjectV>, ord: Order, past: Past)
    requires |Serialize(Control, ControlFidelity.MessageMsg(objects), ord)| <= MAX_LEN
    ensures var x := ControlFidelity.MessageMsg(objects);
            FromBytes(Serialize(Control, x, ord), past) == Decoded(Control, x) <==> ControlNamesAreTexts(objects)
  {
    hide Serialize, FromBytes, Ok, ValidUtf8, IsText, ControlFidelity.MessageMsg;
    FromBytesUndoesSerialize(Control, ControlFidelity.MessageMsg(objects), ord, past);
    ControlFidelity.TypeOfMessage(objects);
    if Ok(Control, MAX_DEPTH, ControlFidelity.MessageMsg(objects)) {
      ControlNamesAreValid(objects);
    }
    if ControlNamesAreTexts(objects) {
      forall name | name in objects ensures ValidUtf8(name) && forall e | e in objects[name].events :: ValidUtf8(e) {
        ValidIffText(name);
        forall e | e in objects[name].events ensures ValidUtf8(e) { ValidIffText(e); }
      }
      ControlFidelity.MessageOk(objects);
    }
  }

  // ---------------------------------------------------------------- handshakes

  ghost predicate RobotNamesAreTexts(o: HandshakeBuilder.RobotV) {
    && (forall s | s in o.controls :: IsText(s))
    && (forall s | s in o.joints :: IsText(s))
    && (forall e | e in o.events :: IsText(e))
    && (forall s | s in o.sensors :: IsText(s))
  }

  ghost predicate HandshakeNamesAreTexts(m: HandshakeBuilder.MessageV) {
    forall name | name in m.objects :: IsText(name) && RobotNamesAreTexts(m.objects[name])
  }

  lemma RobotFineIffTexts(o: HandshakeBuilder.RobotV)
    ensures HandshakeFidelity.RobotIsFine(o) <==> RobotNamesAreTexts(o)
  {
    hide ValidUtf8, IsText;
    forall s ensures ValidUtf8(s) <==> IsText(s) { ValidIffText(s); }
  }

  lemma RobotNamesAreValid(o: HandshakeBuilder.RobotV, depth: nat)
    requires Ok(HandshakeObject, depth, HandshakeFidelity.RobotMsg(o))
    ensures HandshakeFidelity.RobotIsFine(o)
  {
    hide Ok, ValidUtf8, HandshakeFidelity.RobotMsg;
    var x := HandshakeFidelity.RobotMsg(o);
    HandshakeFidelity.RobotNames(o, HandshakeBuilder.Controls);
    HandshakeFidelity.RobotNames(o, HandshakeBuilder.Joints);
    HandshakeFidelity.RobotMaps(o);
    StringsOk(HandshakeObject, depth, x, 1);
    StringsOk(HandshakeObject, depth, x, 7);
    EntriesOk(HandshakeObject, depth, x, 3, IntValue);
    EntriesOk(HandshakeObject, depth, x, 4, MessageValue(HandshakeSensors));
    assert EntriesOf(x, 3).Keys == o.events.Keys && EntriesOf(x, 4).Keys == o.sensors.Keys;
  }

  lemma HandshakeNamesAreValid(m: HandshakeBuilder.MessageV)
    requires Ok(Handshake, MAX_DEPTH, HandshakeFidelity.MessageMsg(m))
    ensures HandshakeNamesAreTexts(m)
  {
    hide Ok, IsText, HandshakeFidelity.RobotMsg, HandshakeFidelity.RobotIsFine, RobotNamesAreTexts;
    var x := HandshakeFidelity.MessageMsg(m);
    assert EntriesOf(x, 4) == HandshakeFidelity.RobotEntries(m.objects);
    NestedEntriesOk(Handshake, MAX_DEPTH, x, 4, HandshakeObject);
    forall name | name in m.objects ensures IsText(name) && RobotNamesAreTexts(m.objects[name]) {
      assert name in EntriesOf(x, 4);
      ValidIffText(name);
      RobotNamesAreValid(m.objects[name], MAX_DEPTH - 2);
      RobotFineIffTexts(m.objects[name]);
    }
  }

  /** A handshake arrives if and only if every name in it, of robots, controls, joints, events and
      sensors, is a text. */
  lemma HandshakeArrivesIffTexts(m: HandshakeBuilder.MessageV, ord: Order, past: Past)
    requires |Serialize(Handshake, HandshakeFidelity.MessageMsg(m), ord)| <= MAX_LEN
    ensures var x := HandshakeFidelity.MessageMsg(m);
            FromBytes(Serialize(Handshake, x, ord), past) == Decoded(Handshake, x) <==> HandshakeNamesAreTexts(m)
  {
    hide Serialize, FromBytes, Ok, ValidUtf8, IsText, HandshakeFidelity.MessageMsg, HandshakeFidelity.RobotIsFine,
         RobotNamesAreTexts;
    FromBytesUndoesSerialize(Handshake, HandshakeFidelity.MessageMsg(m), ord, past);
    HandshakeFidelity.TypeOfMessage(m);
    if Ok(Handshake, MAX_DEPTH, HandshakeFidelity.MessageMsg(m)) {
      HandshakeNamesAreValid(m);
    }
    if HandshakeNamesAreTexts(m) {
      forall name | name in m.objects ensures ValidUtf8(name) && HandshakeFidelity.RobotIsFine(m.objects[name]) {
        ValidIffText(name);
        RobotFineIffTexts(m.objects[name]);
      }
      HandshakeFidelity.MessageOk(m);
    }
  }
}
