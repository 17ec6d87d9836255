/** The four messages without objects: what their builders make, its bytes, and what arrives. */
module SmallMessages {
  import opened Wire
  import opened Utf8
  import opened Schema
  import opened Codec
  import RoundTrip
  import opened ParseLaws
  import opened Dispatch
  import opened Layout

  const INIT_MESSAGE := Put(Store(EMPTY, 1, VInt(0)), 2, VInt(1))
  const RESET_MESSAGE := Put(EMPTY, 1, VInt(4))
  const SENSOR_REQUEST := Put(EMPTY, 1, VInt(6))

  /** An error message with text `s`, none if it is empty. */
  function ErrorMsg(s: Bytes): Msg {
    Store(Put(EMPTY, 1, VInt(5)), 3, VString(s))
  }

  class ErrorMessageBuilder {
    var message: Msg
    ghost var text: Bytes

    ghost predicate Valid()
      reads this
    {
      message == ErrorMsg(text)
    }

    constructor ()
      ensures Valid() && text == []
    {
      message, text := Put(EMPTY, 1, VInt(5)), [];
      new;
      assert message.fields - {3} == message.fields;
    }

    /** The last text given is the one that stays. */
    method WithMessage(s: Bytes)
      requires Valid()
      modifies this
      ensures Valid() && text == s
    {
      ghost var was := text;
      message, text := Store(message, 3, VString(s)), s;
      StoreAgain(was, s);
    }
  }

  lemma StoreAgain(was: Bytes, s: Bytes)
    ensures Store(ErrorMsg(was), 3, VString(s)) == ErrorMsg(s)
  {
    assert Store(ErrorMsg(was), 3, VString(s)).fields == ErrorMsg(s).fields;
  }

  lemma TypeBytes(c: Cls, m: Msg, ord: Order)
    requires IsTop(c) || c == Envelope
    requires m.fields.Keys == {1} && m.fields[1].VInt? && m.fields[1].i != 0 && m.unknown == []
    ensures Serialize(c, m, ord) == Enum(8, m.fields[1].i)
  {
    hide FieldBytes, FieldOf, SerializeAt, BytesFrom, Enum;
    FirstFields(c);
    Whole(c, m, [], ord);
    OnlyField(c, 1, 1, m, [], ord);
    IntBytes(c, 1, m, m.fields[1].i, [], ord);
  }

  lemma TypeOnlyOk(c: Cls, t: Int32)
    requires (IsTop(c) || c == Envelope) && t != 0
    ensures Ok(c, MAX_DEPTH, Put(EMPTY, 1, VInt(t)))
  {
    hide Ok, FieldOf;
    FirstFields(c);
    EmptyOk(c, MAX_DEPTH);
    PutOk(c, MAX_DEPTH, EMPTY, 1, VInt(t));
  }

  lemma TypeParses(c: Cls, t: Int32)
    requires (IsTop(c) || c == Envelope) && t != 0
    ensures Parse(c, Enum(8, t)) == Some(Put(EMPTY, 1, VInt(t)))
  {
    hide Ok, ParseInto, Serialize, Enum;
    var ord: Order := *;
    var m := Put(EMPTY, 1, VInt(t));
    assert m.fields.Keys == {1};
    TypeBytes(c, m, ord);
    TypeOnlyOk(c, t);
    EnumIsShort(t);
    RoundTrip.ParseUndoesSerialize(c, m, ord);
  }

  lemma EnumIsShort(t: Int32)
    ensures |Enum(8, t)| <= 11
  {
    TakeEncodedU64(SignExtend(t), []);
  }

  /** The numbers of the seven message types: bytes that hold such a type and nothing else are a message
      of its class, and any other type is refused. */
  lemma TypeSelectsClass(t: Int32, past: Past)
    requires t != 0
    ensures var o, m := FromBytes(Enum(8, t), past), Put(EMPTY, 1, VInt(t));
            o == if t == 1 then Decoded(Handshake, m) else if t == 2 then Decoded(Control, m)
                 else if t == 3 then Decoded(SensorMsg, m) else if t == 4 then Decoded(Reset, m)
                 else if t == 5 then Decoded(Error, m) else if t == 6 then Decoded(SensorRequest, m) else Unknown
    ensures FromBytes([], past) == Decoded(HandshakeInit, EMPTY)
  {
    hide Parse, TypeLeft, TypeOf, Enum, FromBytes;
    assert TypeOf(Put(EMPTY, 1, VInt(t))) == t by { TypeOfPut(t); }
    TypeParses(Envelope, t);
    AcceptedType(Envelope, Enum(8, t), past);
    if 1 <= t <= 6 {
      var c := ClassOf(t).value;
      TypeParses(c, t);
      DispatchIsSound(Enum(8, t), past);
    } else {
      UnknownType(Enum(8, t), past);
    }
    DispatchIsSound([], past);
    EmptyType();
    assert Parse(HandshakeInit, []) == Some(EMPTY) by { NothingToParse(); }
  }

  lemma TypeOfPut(t: Int32)
    ensures TypeOf(Put(EMPTY, 1, VInt(t))) == t
  {
  }

  lemma UnknownType(b: Bytes, past: Past)
    requires ClassOf(TypeLeft(Envelope, b, past)).None?
    ensures FromBytes(b, past) == Unknown
  {
  }

  lemma NothingToParse()
    ensures Parse(HandshakeInit, []) == Some(EMPTY)
  {
  }

  /** What the other three builders make: type 0 is not written, and what arrives reads back with the
      type and the version it was given. */
  lemma SmallMessagesArrive(ord: Order, past: Past)
    ensures Serialize(HandshakeInit, INIT_MESSAGE, ord) == [16, 1]
    ensures FromBytes([16, 1], past) == Decoded(HandshakeInit, INIT_MESSAGE)
    ensures IntOf(INIT_MESSAGE, 1) == 0 && IntOf(INIT_MESSAGE, 2) == 1
    ensures Serialize(Reset, RESET_MESSAGE, ord) == [8, 4]
    ensures FromBytes([8, 4], past) == Decoded(Reset, RESET_MESSAGE) && IntOf(RESET_MESSAGE, 1) == 4
    ensures Serialize(SensorRequest, SENSOR_REQUEST, ord) == [8, 6]
    ensures FromBytes([8, 6], past) == Decoded(SensorRequest, SENSOR_REQUEST) && IntOf(SENSOR_REQUEST, 1) == 6
  {
    hide Serialize, FromBytes, Parse, Ok;
    assert Enum(8, 4) == [8, 4] && Enum(8, 6) == [8, 6];
    TypeSelectsClass(4, past);
    TypeSelectsClass(6, past);
    TypeBytes(Reset, RESET_MESSAGE, ord);
    TypeBytes(SensorRequest, SENSOR_REQUEST, ord);
    InitWritten(ord);
    EmptyOk(HandshakeInit, MAX_DEPTH);
    PutOk(HandshakeInit, MAX_DEPTH, EMPTY, 2, VInt(1));
    assert INIT_MESSAGE == Put(EMPTY, 2, VInt(1));
    FromBytesUndoesSerialize(HandshakeInit, INIT_MESSAGE, ord, past);
  }

  lemma InitWritten(ord: Order)
    ensures Serialize(HandshakeInit, INIT_MESSAGE, ord) == [16, 1]
  {
    hide FieldBytes, SerializeAt, BytesFrom;
    assert INIT_MESSAGE.fields.Keys == {2};
    Whole(HandshakeInit, INIT_MESSAGE, [], ord);
    OnlyField(HandshakeInit, 1, 2, INIT_MESSAGE, [], ord);
    IntBytes(HandshakeInit, 2, INIT_MESSAGE, 1, [], ord);
    SmallEnum(16, 1);
  }

  lemma ErrorWritten(s: Bytes, ord: Order)
    ensures Serialize(Error, ErrorMsg(s), ord) == [8, 5] + if s == [] then [] else Delimited(26, s)
  {
    hide FieldBytes, SerializeAt, BytesFrom, Delimited;
    var m := ErrorMsg(s);
    Whole(Error, m, [], ord);
    NextField(Error, 1, m, [], ord);
    IntBytes(Error, 1, m, 5, [], ord);
    SmallEnum(8, 5);
    SkipField(Error, 2, m, [], ord);
    NextField(Error, 3, m, [], ord);
    StringBytes(Error, 3, m, s, [], ord);
    NothingAbove(Error, 4, m, [], ord);
  }

  /** An error message reads back with its text, and arrives if and only if that is UTF-8. */
  lemma ErrorArrives(s: Bytes, ord: Order, past: Past)
    requires |s| < 0x7FFF_0000
    ensures Serialize(Error, ErrorMsg(s), ord) == [8, 5] + if s == [] then [] else Delimited(26, s)
    ensures FromBytes(Serialize(Error, ErrorMsg(s), ord), past) == Decoded(Error, ErrorMsg(s)) <==> IsText(s)
    ensures IntOf(ErrorMsg(s), 1) == 5 && IntOf(ErrorMsg(s), 2) == 0 && StringOf(ErrorMsg(s), 3) == s
  {
    hide Serialize, FromBytes, IsText, ValidUtf8;
    ErrorWritten(s, ord);
    TakeEncodedU32(|s|, []);
    ValidIffText(s);
    ErrorOk(s);
    FromBytesUndoesSerialize(Error, ErrorMsg(s), ord, past);
  }

  lemma ErrorOk(s: Bytes)
    ensures Ok(Error, MAX_DEPTH, ErrorMsg(s)) <==> ValidUtf8(s)
  {
    hide ValidUtf8, Ok;
    EmptyOk(Error, MAX_DEPTH);
    PutOk(Error, MAX_DEPTH, EMPTY, 1, VInt(5));
    if ValidUtf8(s) {
      StoreOk(Error, MAX_DEPTH, Put(EMPTY, 1, VInt(5)), 3, VString(s));
    } else if Ok(Error, MAX_DEPTH, ErrorMsg(s)) {
      EmptyIsValid();
      FieldIsOk(Error, MAX_DEPTH, ErrorMsg(s), 3);
    }
  }

  lemma EmptyIsValid()
    ensures ValidUtf8([])
  {
  }
}
