/** MessageSerializer: every message is first read as the envelope `Message`, whose field 2 clashes
    with field 2 of the other classes, and then as the class named by its `messageType`. */
module Dispatch {
  import opened Wire
  import opened Schema
  import opened Codec
  import opened RoundTrip
  import opened ParseLaws
  import opened RecordOrder
  import opened PartialParse

  /** The class that a `messageType` selects. */
  function ClassOf(t: Int32): Option<Cls> {
    match t
    case 0 => Some(HandshakeInit)
    case 5 => Some(Error)
    case 4 => Some(Reset)
    case 6 => Some(SensorRequest)
    case 1 => Some(Handshake)
    case 2 => Some(Control)
    case 3 => Some(SensorMsg)
    case _ => None
  }

  /** The seven classes that travel. */
  predicate IsTop(c: Cls) {
    c in {HandshakeInit, Error, Reset, SensorRequest, Handshake, Control, SensorMsg}
  }

  /** The `messageType` that the builder of each class sets. */
  function TypeTag(c: Cls): Int32
    requires IsTop(c)
  {
    match c
    case HandshakeInit => 0
    case Handshake => 1
    case Control => 2
    case SensorMsg => 3
    case Reset => 4
    case Error => 5
    case SensorRequest => 6
  }

  /** Dispatch goes back from the tag of a class to the class, and knows no other tags. */
  lemma ClassOfInvertsTag(t: Int32, c: Cls)
    ensures ClassOf(t) == Some(c) <==> IsTop(c) && t == TypeTag(c)
  {
  }

  function TypeOf(m: Msg): Int32 {
    IntOf(m, 1)
  }

  /** What a read past the end of the buffer makes of the `messageType`. */
  type Past = (Cls, Bytes) -> Int32

  /** The `messageType` after a parse, whether or not it succeeded. */
  function TypeLeft(c: Cls, b: Bytes, past: Past): Int32 {
    TypeStopped(c, b, past(c, b))
  }

  /** Result of `fromBytes`, which ignores whether its parses succeed: a message parsed in full; a
      message of class `c` whose parse failed, of which the type it reports is modelled and the
      rest is not; or the thrown runtime_error. */
  datatype Outcome = Decoded(c: Cls, m: Msg) | Partial(c: Cls, t: Int32) | Unknown

  function FromBytes(b: Bytes, past: Past): Outcome {
    match ClassOf(TypeLeft(Envelope, b, past))
    case None => Unknown
    case Some(c) =>
      match Parse(c, b)
      case None => Partial(c, TypeLeft(c, b, past))
      case Some(m) => Decoded(c, m)
  }

  /** The type that the message returned by `fromBytes` reports. */
  function Reported(o: Outcome): Int32
    requires !o.Unknown?
  {
    match o
    case Decoded(_, m) => TypeOf(m)
    case Partial(_, t) => t
  }

  lemma AcceptedType(c: Cls, b: Bytes, past: Past)
    requires Parse(c, b).Some?
    ensures TypeLeft(c, b, past) == TypeOf(Parse(c, b).value)
  {
    hide StopAt, ParseInto;
    AcceptedStopsAtEnd(c, MAX_DEPTH, EMPTY, b);
  }

  // ---------------------------------------------------------------- envelope soundness

  lemma FirstFields(c: Cls)
    requires IsTop(c) || c == Envelope
    ensures FieldOf(c, 1) == Some(IntField)
    ensures FieldOf(c, 2).None? || FieldOf(c, 2).value == IntField || FieldOf(c, 2).value.MapField?
    ensures c == Envelope ==> FieldOf(c, 2) == Some(IntField)
  {
  }

  lemma NoOneofAbove(c: Cls, n: nat)
    requires (IsTop(c) || c == Envelope) && FieldOf(c, n).Some?
    ensures !IsOneof(FieldOf(c, n).value)
  {
  }

  /** Only a varint numbered 1 touches the type. */
  lemma TypeAfter(c: Cls, depth: nat, m: Msg, r: Record)
    requires (IsTop(c) || c == Envelope) && Apply(c, depth, m, r).Some?
    ensures TypeOf(Apply(c, depth, m, r).value) == if r.num == 1 && r.body.Varint? then ToInt32(r.body.v) else TypeOf(m)
  {
    hide FieldOf, ApplyField, Written;
    FirstFields(c);
    if Recognises(c, r.num, WireType(r.body)) {
      NoOneofAbove(c, r.num);
      RecordWrites(c, FieldOf(c, r.num).value, depth, m, r);
      if r.num == 1 {
        IntWritten(c, depth, m, r);
      }
    }
  }

  lemma IntWritten(c: Cls, depth: nat, m: Msg, r: Record)
    requires r.body.Varint?
    ensures ApplyField(c, IntField, depth, m, r).Some?
    ensures Written(c, IntField, depth, m, r) == VInt(ToInt32(r.body.v))
  {
  }

  lemma EnvelopeAccepts(depth: nat, e: Msg, r: Record)
    ensures Apply(Envelope, depth, e, r).Some?
  {
    hide Store;
  }

  lemma EnvelopeStep(c: Cls, depth: nat, e: Msg, m: Msg, r: Record)
    requires IsTop(c) && TypeOf(e) == TypeOf(m) && Apply(c, depth, m, r).Some?
    ensures var e' := Apply(Envelope, depth, e, r);
            e'.Some? && TypeOf(e'.value) == TypeOf(Apply(c, depth, m, r).value)
  {
    hide TypeOf, Apply;
    EnvelopeAccepts(depth, e, r);
    TypeAfter(c, depth, m, r);
    TypeAfter(Envelope, depth, e, r);
  }

  lemma {:induction false} EnvelopeFollows(c: Cls, depth: nat, e: Msg, m: Msg, rs: seq<Record>)
    requires IsTop(c) && TypeOf(e) == TypeOf(m) && ApplyAll(c, depth, m, rs).Some?
    ensures var e' := ApplyAll(Envelope, depth, e, rs);
            e'.Some? && TypeOf(e'.value) == TypeOf(ApplyAll(c, depth, m, rs).value)
    decreases |rs|
  {
    hide Apply, TypeOf;
    if rs != [] {
      EnvelopeStep(c, depth, e, m, rs[0]);
      EnvelopeFollows(c, depth, Apply(Envelope, depth, e, rs[0]).value, Apply(c, depth, m, rs[0]).value, rs[1..]);
    }
  }

  /** On any bytes that a message class accepts, the envelope is accepted too and reads the same type. */
  lemma EnvelopeIsSound(c: Cls, b: Bytes)
    requires IsTop(c) && Parse(c, b).Some?
    ensures Parse(Envelope, b).Some? && TypeOf(Parse(Envelope, b).value) == TypeOf(Parse(c, b).value)
  {
    hide Tokenise, ApplyAll, TypeOf;
    EnvelopeFollows(c, MAX_DEPTH, EMPTY, EMPTY, Tokenise(MAX_DEPTH, b).value);
  }

  /** Dispatch on arbitrary bytes: a decoded message always has the type of its class, and bytes that a
      class accepts with its own type are decoded as that class, whatever lies past the end. */
  lemma DispatchIsSound(b: Bytes, past: Past)
    ensures FromBytes(b, past).Decoded? ==>
              var Decoded(c, m) := FromBytes(b, past);
              IsTop(c) && Parse(c, b) == Some(m) && ClassOf(TypeOf(m)) == Some(c)
    ensures forall c | IsTop(c) && Parse(c, b).Some? && ClassOf(TypeOf(Parse(c, b).value)) == Some(c) ::
              FromBytes(b, past) == Decoded(c, Parse(c, b).value)
  {
    hide Parse, TypeOf, TypeLeft;
    forall c | IsTop(c) && Parse(c, b).Some?
      ensures TypeLeft(Envelope, b, past) == TypeOf(Parse(c, b).value)
    {
      EnvelopeIsSound(c, b);
      AcceptedType(Envelope, b, past);
    }
  }

  /** What is sent is what arrives, class and whole message and for every map order, if and only if the
      message is well formed and its `messageType` names its class. */
  lemma FromBytesUndoesSerialize(c: Cls, m: Msg, ord: Order, past: Past)
    requires IsTop(c) && |Serialize(c, m, ord)| <= MAX_LEN
    ensures FromBytes(Serialize(c, m, ord), past) == Decoded(c, m) <==>
            Ok(c, MAX_DEPTH, m) && ClassOf(TypeOf(m)) == Some(c)
  {
    hide Serialize, Parse, Ok, TypeOf, FromBytes;
    RoundTripsIffOk(c, m, ord);
    DispatchIsSound(Serialize(c, m, ord), past);
  }

  // ---------------------------------------------------------------- dispatch on bytes that fail to parse

  /** The last messageType among some records; zero if there is none. */
  function LastType(rs: seq<Record>): Int32 {
    if rs == [] then 0
    else
      var r := rs[|rs| - 1];
      if r.num == 1 && r.body.Varint? then ToInt32(r.body.v) else LastType(rs[..|rs| - 1])
  }

  lemma {:induction false} TypeIsLast(c: Cls, depth: nat, rs: seq<Record>)
    requires (IsTop(c) || c == Envelope) && ApplyAll(c, depth, EMPTY, rs).Some?
    ensures TypeOf(ApplyAll(c, depth, EMPTY, rs).value) == LastType(rs)
    decreases |rs|
  {
    hide Apply, TypeOf;
    if rs == [] {
      assert TypeOf(EMPTY) == 0 by { EmptyType(); }
    } else {
      var n := |rs| - 1;
      assert rs == rs[..n] + [rs[n]];
      ApplyAllConcat(c, depth, EMPTY, rs[..n], [rs[n]]);
      TypeIsLast(c, depth, rs[..n]);
      var m := ApplyAll(c, depth, EMPTY, rs[..n]).value;
      ApplyOne(c, depth, m, rs[n]);
      TypeAfter(c, depth, m, rs[n]);
    }
  }

  lemma EmptyType()
    ensures TypeOf(EMPTY) == 0
  {
  }

  /** The type left by any parse is that of the last type record before the first record the class
      cannot read or refuses, unless a read ran past the end. */
  lemma TypeLeftIsLast(c: Cls, b: Bytes, past: Past)
    requires (IsTop(c) || c == Envelope) && !OffTheEnd(Readable(MAX_DEPTH, b).1)
    ensures var rs := Readable(MAX_DEPTH, b).0;
            TypeLeft(c, b, past) == LastType(rs[..Accepted(c, MAX_DEPTH, rs)])
  {
    hide StopAt, Readable, Accepted, ApplyAll, OffTheEnd, TakeRecord, IntOf;
    var rs := Readable(MAX_DEPTH, b).0;
    var k := Accepted(c, MAX_DEPTH, rs);
    StopsAtFirstRefused(c, MAX_DEPTH, EMPTY, b);
    TypeIsLast(c, MAX_DEPTH, rs[..k]);
    if k < |rs| {
      ReadableIsWithin(MAX_DEPTH, StopAt(c, MAX_DEPTH, EMPTY, b).rest);
    }
  }

  lemma {:induction false} EnvelopeRefusesNothing(depth: nat, rs: seq<Record>)
    ensures Accepted(Envelope, depth, rs) == |rs|
  {
    hide Apply;
    if rs != [] {
      EnvelopeAccepts(depth, EMPTY, rs[0]);
      EnvelopeRefusesNothing(depth, rs[1..]);
    }
  }

  /** On any bytes not cut off inside a tag or a type: the class is chosen by the last messageType among
      all readable records, `fromBytes` throws if and only if that names no class, and otherwise the
      message reports the last messageType before the first record that its class refuses. */
  lemma DispatchByLastType(b: Bytes, past: Past)
    requires !OffTheEnd(Readable(MAX_DEPTH, b).1)
    ensures var (rs, o) := (Readable(MAX_DEPTH, b).0, FromBytes(b, past));
            && (o == Unknown <==> ClassOf(LastType(rs)) == None)
            && (o != Unknown ==>
                  && ClassOf(LastType(rs)) == Some(o.c)
                  && Reported(o) == LastType(rs[..Accepted(o.c, MAX_DEPTH, rs)]))
  {
    hide Parse, TypeOf, TypeLeft, Readable, Accepted, LastType, OffTheEnd;
    var rs := Readable(MAX_DEPTH, b).0;
    TypeLeftIsLast(Envelope, b, past);
    EnvelopeRefusesNothing(MAX_DEPTH, rs);
    assert rs[..|rs|] == rs;
    var o := FromBytes(b, past);
    if o != Unknown {
      TypeLeftIsLast(o.c, b, past);
      if o.Decoded? {
        AcceptedType(o.c, b, past);
      }
    }
  }

  /** On bytes that are cut off inside a tag or a type, what is found past the end decides the class: with
      any type there, the outcome is of the class which that type names, or nothing if it names none. */
  lemma CutOffIsOpen(b: Bytes, t: Int32)
    requires OffTheEnd(Readable(MAX_DEPTH, b).1)
    ensures var o := FromBytes(b, (c: Cls, b': Bytes) => t);
            && (o == Unknown <==> t < 0 || t > 6)
            && (o != Unknown ==> ClassOf(t) == Some(o.c))
  {
    hide Readable, OffTheEnd, Accepted, Parse, StopAt, TakeRecord;
    var rs := Readable(MAX_DEPTH, b).0;
    EnvelopeRefusesNothing(MAX_DEPTH, rs);
    StopsAtFirstRefused(Envelope, MAX_DEPTH, EMPTY, b);
  }

  /** Exactly when the message returned reports its own class: when the last type among all readable
      records selects the same class as the last before the first record that class refuses. */
  lemma ReportsItsClassIff(b: Bytes, past: Past)
    requires !OffTheEnd(Readable(MAX_DEPTH, b).1) && ClassOf(LastType(Readable(MAX_DEPTH, b).0)).Some?
    ensures var rs := Readable(MAX_DEPTH, b).0;
            var c := ClassOf(LastType(rs)).value;
            var o := FromBytes(b, past);
            && o != Unknown && o.c == c
            && (ClassOf(Reported(o)) == Some(c) <==> LastType(rs[..Accepted(c, MAX_DEPTH, rs)]) == LastType(rs))
  {
    hide FromBytes, Reported, Readable, Accepted, LastType, OffTheEnd;
    DispatchByLastType(b, past);
    var rs := Readable(MAX_DEPTH, b).0;
    var c := ClassOf(LastType(rs)).value;
    ClassOfInvertsTag(LastType(rs), c);
    ClassOfInvertsTag(Reported(FromBytes(b, past)), c);
  }

  lemma SmallVarintRecord(depth: nat, num: FieldNum, v: U64, rest: Bytes)
    requires num < 16 && v < 128
    ensures TakeRecord(depth, [num * 8, v] + rest) == Took(Record(num, Varint(v)), rest)
  {
    TakePutRecord(depth, Record(num, Varint(v)), rest);
    assert PutRecord(Record(num, Varint(v))) == [num * 8, v];
  }

  /** A map entry cut off inside its first tag. */
  lemma BrokenEntryRefused(depth: nat)
    ensures Apply(SensorMsg, depth, EMPTY, Record(3, Len([255]))) == None
  {
    assert TakeVarint(5, [255]) == Bad by { assert [255][1..] == []; }
    assert Tokenise(depth, [255]) == None;
    assert depth > 0 ==> Tokenise(depth - 1, [255]) == None;
  }

  /** A message that was not parsed in full may report another class's type: these bytes come back as a
      sensor message that says it is a control message. */
  lemma PartialMayDisagree(past: Past)
    ensures FromBytes([8, 2, 26, 1, 255, 8, 3], past) == Partial(SensorMsg, 2)
  {
    hide TakeRecord, Apply, FromBytes, OffTheEnd, LastType;
    var d := MAX_DEPTH;
    var b0: Bytes := [8, 2, 26, 1, 255, 8, 3];
    var b1: Bytes := [26, 1, 255, 8, 3];
    var b2: Bytes := [8, 3];
    var r0, r1, r2 := Record(1, Varint(2)), Record(3, Len([255])), Record(1, Varint(3));
    SmallVarintRecord(d, 1, 2, b1);
    assert b0 == [1 * 8, 2] + b1;
    TakePutRecord(d, r1, b2);
    assert PutRecord(r1) == [26, 1, 255] && b1 == PutRecord(r1) + b2;
    SmallVarintRecord(d, 1, 3, []);
    assert b2 == [1 * 8, 3] + [];
    ReadableCons(d, b2, r2, []);
    ReadableCons(d, b1, r1, b2);
    ReadableCons(d, b0, r0, b1);
    assert [r0] + ([r1] + ([r2] + [])) == [r0, r1, r2];
    assert Readable(d, b0) == ([r0, r1, r2], []);
    AfterBroken(d, r0, r2);
    LastOfThree(r0, r1, r2);
    assert !OffTheEnd([]) by { NotOffTheEnd(); }
    DispatchByLastType(b0, past);
    PartialIfRefused(b0, past);
  }

  lemma ReadableCons(depth: nat, b: Bytes, r: Record, rest: Bytes)
    requires TakeRecord(depth, b) == Took(r, rest) && b != []
    ensures Readable(depth, b) == ([r] + Readable(depth, rest).0, Readable(depth, rest).1)
  {
    hide TakeRecord;
  }

  lemma NotOffTheEnd()
    ensures !OffTheEnd([])
  {
  }

  lemma LastOfThree(r0: Record, r1: Record, r2: Record)
    requires r0 == Record(1, Varint(2)) && r2 == Record(1, Varint(3))
    ensures LastType([r0, r1, r2]) == 3 && LastType([r0, r1, r2][..1]) == 2
  {
    assert [r0, r1, r2][..1] == [r0];
  }

  lemma AfterBroken(depth: nat, r0: Record, r2: Record)
    requires r0.num == 1 && r0.body.Varint?
    ensures Accepted(SensorMsg, depth, [r0, Record(3, Len([255])), r2]) == 1
  {
    hide Apply;
    var r1 := Record(3, Len([255]));
    BrokenEntryRefused(depth);
    assert Apply(SensorMsg, depth, EMPTY, r0).Some? by { TypeRecordAccepted(depth, r0); }
    assert [r0, r1, r2][1..] == [r1, r2];
  }

  lemma TypeRecordAccepted(depth: nat, r: Record)
    requires r.num == 1 && r.body.Varint?
    ensures Apply(SensorMsg, depth, EMPTY, r).Some?
  {
  }

  /** A message parsed in full has had none of its records refused. */
  lemma PartialIfRefused(b: Bytes, past: Past)
    ensures var (rs, o) := (Readable(MAX_DEPTH, b).0, FromBytes(b, past));
            o.Decoded? ==> Accepted(o.c, MAX_DEPTH, rs) == |rs|
  {
    hide ParseInto, StopAt, Readable, Accepted, TakeRecord, ApplyAll, TypeLeft;
    var o := FromBytes(b, past);
    if o.Decoded? {
      AcceptedStopsAtEnd(o.c, MAX_DEPTH, EMPTY, b);
      StopsAtFirstRefused(o.c, MAX_DEPTH, EMPTY, b);
      assert TakeRecord(MAX_DEPTH, []).Bad? by { NothingToRead(); }
    }
  }

  lemma NothingToRead()
    ensures TakeRecord(MAX_DEPTH, []).Bad?
  {
  }
}
