/** SensorMessage.Sensor: thirteen members that share one storage cell, eight of them owned pointers. */
module SensorOneof {
  import opened Wire
  import opened Schema
  import opened Codec
  import RoundTrip
  import opened ParseLaws
  import opened RecordOrder
  import opened PartialParse
  import opened SensorMessages
  import MessageObject

  // ---------------------------------------------------------------- as values

  function CaseOf(r: Reading): Option<Case> {
    match r
    case NoReading => None
    case Scalar(c, _) => Some(c)
    case Flag(_) => Some(Activated)
    case Vector(c, _) => Some(c)
  }

  function VectorOf(r: Reading, c: Case): seq<Double> {
    if r.Vector? && r.c == c then r.arr else []
  }

  /** A vector of the same case is appended to; anything else that is set replaces. */
  function MergeReading(x: Reading, y: Reading): Reading {
    match y
    case NoReading => x
    case Vector(c, ys) => Vector(c, VectorOf(x, c) + ys)
    case _ => y
  }

  function CaseIn(m: Msg): (c: Option<Case>)
    ensures c.None? <==> forall c' :: !Has(m, c')
    ensures c.Some? ==> Has(m, c.value)
  {
    if Has(m, Angle) then Some(Angle)
    else if Has(m, AngularVelocity1d) then Some(AngularVelocity1d)
    else if Has(m, Torque1d) then Some(Torque1d)
    else if Has(m, Position) then Some(Position)
    else if Has(m, Rpy) then Some(Rpy)
    else if Has(m, Activated) then Some(Activated)
    else if Has(m, Acceleration3d) then Some(Acceleration3d)
    else if Has(m, Force3d) then Some(Force3d)
    else if Has(m, Torque3d) then Some(Torque3d)
    else if Has(m, AngularAcceleration3d) then Some(AngularAcceleration3d)
    else if Has(m, Velocity3d) then Some(Velocity3d)
    else if Has(m, AngularVelocity3d) then Some(AngularVelocity3d)
    else if Has(m, Force1d) then Some(Force1d)
    else None
  }

  /** What the getters of a message object show. */
  function ReadingIn(m: Msg): (r: Reading)
    ensures WellTyped(r) && CaseOf(r) == CaseIn(m)
  {
    match CaseIn(m)
    case None => NoReading
    case Some(c) =>
      if IsDouble(c) then Scalar(c, DoubleIn(m, c))
      else if c.Activated? then Flag(BoolOf(m, Number(c)))
      else Vector(c, VectorIn(m, c))
  }

  function CaseAt(n: nat): (c: Option<Case>)
    ensures c.Some? ==> Number(c.value) == n
    ensures c.None? ==> forall c' :: Number(c') != n
  {
    match n
    case 1 => Some(Angle)
    case 2 => Some(AngularVelocity1d)
    case 3 => Some(Torque1d)
    case 4 => Some(Position)
    case 5 => Some(Rpy)
    case 6 => Some(Activated)
    case 7 => Some(Acceleration3d)
    case 8 => Some(Force3d)
    case 9 => Some(Torque3d)
    case 10 => Some(AngularAcceleration3d)
    case 12 => Some(Velocity3d)
    case 13 => Some(AngularVelocity3d)
    case 14 => Some(Force1d)
    case _ => None
  }

  // ---------------------------------------------------------------- what a parse leaves, accepted or not

  /** The bytes start with a tag that some case of the parse loop takes. */
  predicate KnownTag(b: Bytes) {
    var t := TakeTag(b);
    b != [] && t.Took? && Recognises(Sensor, t.value.num, t.value.wireType)
  }

  /** The readable case after a parse.  A member is set as soon as its tag is read, so one whose value
      then turns out malformed counts too. */
  function CaseLeft(b: Bytes): Option<Case> {
    var s := StopAt(Sensor, MAX_DEPTH, EMPTY, b);
    if KnownTag(s.rest) then CaseAt(TakeTag(s.rest).value.num) else CaseIn(s.m)
  }

  /** The bytes are cut off inside a tag, so that the parse reads one past their end. */
  predicate TagOffTheEnd(b: Bytes) {
    var rest := StopAt(Sensor, MAX_DEPTH, EMPTY, b).rest;
    rest != [] && Truncated(5, rest)
  }

  /** What ParseFromString may leave: all of the message if the bytes are accepted; otherwise the
      case is known unless a tag was read past the end, and its value is anything. */
  predicate MayLeave(b: Bytes, left: Reading) {
    && WellTyped(left)
    && (!TagOffTheEnd(b) ==> CaseOf(left) == CaseLeft(b))
    && (Parse(Sensor, b).Some? ==> left == ReadingIn(Parse(Sensor, b).value))
  }

  /** Exactly when: the parse stops at a tag that cannot be read, but could be if more bytes followed. */
  lemma TagOffTheEndIff(b: Bytes)
    ensures var rest := StopAt(Sensor, MAX_DEPTH, EMPTY, b).rest;
            TagOffTheEnd(b) <==> rest != [] && TakeTag(rest).Bad? && exists more :: TakeTag(rest + more).Took?
  {
    hide StopAt;
    var rest := StopAt(Sensor, MAX_DEPTH, EMPTY, b).rest;
    TruncatedIff(5, rest);
    if more :| TakeVarint(5, rest + more).Took? {
      assert TakeTag(rest + more).Took?;
    }
    if more :| TakeTag(rest + more).Took? {
      assert TakeVarint(5, rest + more).Took?;
    }
  }

  lemma SomethingIsLeft(b: Bytes)
    ensures exists left :: MayLeave(b, left)
  {
    hide StopAt, ParseInto, Recognises, FieldOf;
    AcceptedStopsAtEnd(Sensor, MAX_DEPTH, EMPTY, b);
    var m := Parse(Sensor, b);
    if m.Some? {
      assert MayLeave(b, ReadingIn(m.value));
    } else {
      var left := match CaseLeft(b)
        case None => NoReading
        case Some(c) => if IsDouble(c) then Scalar(c, ZERO) else if c.Activated? then Flag(false) else Vector(c, []);
      assert MayLeave(b, left);
    }
  }

  datatype Op =
    | SetDouble(c: Case, d: Double)
    | SetActivated(b: bool)
    | Mutable(c: Case)
    | AssignVector(c: Case, arr: seq<Double>)
    | ClearMember(c: Case)
    | ClearValue
    | MergeFrom(y: Reading)
    | CopyFrom(y: Reading)
    | ParseFrom(bytes: Bytes, left: Reading)

  /** Members are used at their type, and a parse leaves what it may. */
  predicate OpIsTyped(op: Op) {
    match op
    case SetDouble(c, _) => IsDouble(c)
    case Mutable(c) => IsVector(c)
    case AssignVector(c, _) => IsVector(c)
    case MergeFrom(y) => WellTyped(y)
    case CopyFrom(y) => WellTyped(y)
    case ParseFrom(b, left) => MayLeave(b, left)
    case _ => true
  }

  function Do(r: Reading, op: Op): Reading {
    match op
    case SetDouble(c, d) => Scalar(c, d)
    case SetActivated(b) => Flag(b)
    case Mutable(c) => Vector(c, VectorOf(r, c))
    case AssignVector(c, arr) => Vector(c, arr)
    case ClearMember(c) => if CaseOf(r) == Some(c) then NoReading else r
    case ClearValue => NoReading
    case MergeFrom(y) => MergeReading(r, y)
    case CopyFrom(y) => y
    case ParseFrom(_, left) => left
  }

  function DoAll(ops: seq<Op>): Reading {
    if ops == [] then NoReading else Do(DoAll(ops[..|ops| - 1]), ops[|ops| - 1])
  }

  /** The case an operation establishes, if it establishes one. */
  function Establishes(op: Op): Option<Case> {
    match op
    case SetDouble(c, _) => Some(c)
    case SetActivated(_) => Some(Activated)
    case Mutable(c) => Some(c)
    case AssignVector(c, _) => Some(c)
    case MergeFrom(y) => CaseOf(y)
    case CopyFrom(y) => CaseOf(y)
    case ParseFrom(b, left) => if TagOffTheEnd(b) then CaseOf(left) else CaseLeft(b)
    case _ => None
  }

  /** An operation that leaves case `c` as it is. */
  predicate Spares(op: Op, c: Case) {
    match op
    case ClearMember(c') => c' != c
    case MergeFrom(y) => y.NoReading?
    case _ => false
  }

  /** One operation: a case is readable if it was just established, or was readable and spared. */
  lemma CaseAfter(r: Reading, op: Op, c: Case)
    requires OpIsTyped(op)
    ensures CaseOf(Do(r, op)) == Some(c) <==>
            Establishes(op) == Some(c) || (Spares(op, c) && CaseOf(r) == Some(c))
  {
    hide CaseLeft, TagOffTheEnd, Parse;
  }

  /** Over any run, failed parses included, the readable case is the one established last, provided
      nothing cleared it since; with no such operation there is none. */
  lemma {:induction false} LastEstablishedIsReadable(ops: seq<Op>, c: Case)
    requires forall op | op in ops :: OpIsTyped(op)
    ensures CaseOf(DoAll(ops)) == Some(c) <==>
              exists i :: 0 <= i < |ops| && Establishes(ops[i]) == Some(c)
                          && forall j | i < j < |ops| :: Spares(ops[j], c)
  {
    hide Do, Establishes, Spares, CaseOf, OpIsTyped;
    if ops == [] {
      assert CaseOf(NoReading) == None by { NothingReadable(); }
    } else {
      var n := |ops| - 1;
      var before, op := ops[..n], ops[n];
      LastEstablishedIsReadable(before, c);
      CaseAfter(DoAll(before), op, c);
      if Establishes(op) == Some(c) {
        assert Establishes(ops[n]) == Some(c);
      } else if CaseOf(DoAll(ops)) == Some(c) {
        var i :| 0 <= i < n && Establishes(before[i]) == Some(c) && forall j | i < j < n :: Spares(before[j], c);
        assert Establishes(ops[i]) == Some(c);
        assert forall j | i < j < |ops| :: Spares(ops[j], c);
      }
    }
  }

  lemma NothingReadable()
    ensures CaseOf(NoReading) == None
  {
  }

  // ---------------------------------------------------------------- the value that is read

  /** An operation that leaves case `c` readable: as it is, or a vector with something appended. */
  predicate Extends(op: Op, c: Case) {
    || Spares(op, c)
    || op == Mutable(c)
    || (op.MergeFrom? && op.y.Vector? && op.y.c == c)
  }

  /** What merges of vectors append. */
  function AppendedBy(op: Op): seq<Double> {
    if op.MergeFrom? && op.y.Vector? then op.y.arr else []
  }

  function Appended(ops: seq<Op>): seq<Double> {
    if ops == [] then []
    else
      var op := ops[|ops| - 1];
      Appended(ops[..|ops| - 1]) + AppendedBy(op)
  }

  function Grown(r: Reading, c: Case, xs: seq<Double>): Reading {
    if r.Vector? then Vector(c, r.arr + xs) else r
  }

  lemma GrowsBy(r: Reading, op: Op, c: Case, xs: seq<Double>)
    requires OpIsTyped(op) && Extends(op, c) && CaseOf(r) == Some(c) && WellTyped(r)
    ensures Do(Grown(r, c, xs), op) == Grown(r, c, xs + AppendedBy(op))
  {
    assert r.Vector? ==> r.arr + xs + AppendedBy(op) == r.arr + (xs + AppendedBy(op));
    assert r.Vector? ==> r.arr + xs + [] == r.arr + xs;
  }

  /** From where case `c` is readable, nothing but appending happens to it until it is replaced or cleared. */
  lemma {:induction false} StaysAsSet(ops: seq<Op>, k: nat, c: Case)
    requires k <= |ops| && forall op | op in ops :: OpIsTyped(op)
    requires CaseOf(DoAll(ops[..k])) == Some(c) && forall j | k <= j < |ops| :: Extends(ops[j], c)
    ensures WellTyped(DoAll(ops[..k])) && DoAll(ops) == Grown(DoAll(ops[..k]), c, Appended(ops[k..]))
    decreases |ops|
  {
    hide Do, OpIsTyped, Extends, CaseOf, Grown, AppendedBy, WellTyped;
    RunIsTyped(ops[..k]);
    if k == |ops| {
      assert ops[..k] == ops && ops[k..] == [];
      AsIs(DoAll(ops), c);
    } else {
      var n := |ops| - 1;
      var before, later := ops[..n], ops[k..];
      assert before[..k] == ops[..k];
      StaysAsSet(before, k, c);
      assert later[..|later| - 1] == before[k..] && later[|later| - 1] == ops[n];
      GrowsBy(DoAll(ops[..k]), ops[n], c, Appended(before[k..]));
    }
  }

  lemma AsIs(r: Reading, c: Case)
    requires CaseOf(r) == Some(c)
    ensures Grown(r, c, []) == r
  {
  }

  lemma {:induction false} RunIsTyped(ops: seq<Op>)
    requires forall op | op in ops :: OpIsTyped(op)
    ensures WellTyped(DoAll(ops))
  {
    hide Parse, CaseLeft, TagOffTheEnd;
    if ops != [] {
      RunIsTyped(ops[..|ops| - 1]);
      assert OpIsTyped(ops[|ops| - 1]);
    }
  }

  /** Over any run, what is read of a case is what operation `i` set it to, if nothing has replaced or
      cleared it since: the double, the flag, or the vector with all that was appended to it later. */
  lemma ReadsWhatWasSet(ops: seq<Op>, i: nat, c: Case)
    requires i < |ops| && forall op | op in ops :: OpIsTyped(op)
    requires forall j | i < j < |ops| :: Extends(ops[j], c)
    ensures ops[i].SetDouble? && ops[i].c == c ==> DoAll(ops) == Scalar(c, ops[i].d)
    ensures ops[i].SetActivated? && c == Activated ==> DoAll(ops) == Flag(ops[i].b)
    ensures ops[i].AssignVector? && ops[i].c == c ==>
              DoAll(ops) == Vector(c, ops[i].arr + Appended(ops[i + 1..]))
    ensures ops[i].MergeFrom? || ops[i].CopyFrom? ==>
              var y := ops[i].y;
              && (y.Scalar? && y.c == c ==> DoAll(ops) == y)
              && (y.Flag? && c == Activated ==> DoAll(ops) == y)
              && (y.Vector? && y.c == c && (ops[i].CopyFrom? || CaseOf(DoAll(ops[..i])) != Some(c)) ==>
                    DoAll(ops) == Vector(c, y.arr + Appended(ops[i + 1..])))
    ensures ops[i] == Mutable(c) && CaseOf(DoAll(ops[..i])) != Some(c) ==>
              DoAll(ops) == Vector(c, Appended(ops[i + 1..]))
    ensures ops[i].ParseFrom? && Parse(Sensor, ops[i].bytes).Some? ==>
              var m := Parse(Sensor, ops[i].bytes).value;
              CaseIn(m) == Some(c) ==>
                && (IsDouble(c) ==> DoAll(ops) == Scalar(c, DoubleIn(m, c)))
                && (c == Activated ==> DoAll(ops) == Flag(BoolOf(m, 6)))
                && (IsVector(c) ==> DoAll(ops) == Vector(c, VectorIn(m, c) + Appended(ops[i + 1..])))
  {
    hide Parse, CaseIn, DoubleIn, VectorIn, BoolOf, Do, OpIsTyped, CaseOf, Extends, Appended, DoAll, WellTyped;
    var upTo, later := ops[..i + 1], Appended(ops[i + 1..]);
    assert upTo[..i] == ops[..i] && upTo[i] == ops[i];
    assert DoAll(upTo) == Do(DoAll(ops[..i]), ops[i]) by { LastStep(upTo); }
    assert OpIsTyped(ops[i]);
    SetsValue(DoAll(ops[..i]), ops[i], c);
    assert [] + later == later;
    if CaseOf(DoAll(upTo)) == Some(c) {
      StaysAsSet(ops, i + 1, c);
    }
  }

  lemma LastStep(ops: seq<Op>)
    requires ops != []
    ensures DoAll(ops) == Do(DoAll(ops[..|ops| - 1]), ops[|ops| - 1])
  {
  }

  lemma SetsValue(r: Reading, op: Op, c: Case)
    requires OpIsTyped(op)
    ensures op.SetDouble? && op.c == c ==> IsDouble(c) && Do(r, op) == Scalar(c, op.d)
    ensures op.SetActivated? && c == Activated ==> Do(r, op) == Flag(op.b)
    ensures op.AssignVector? && op.c == c ==> IsVector(c) && Do(r, op) == Vector(c, op.arr)
    ensures op.MergeFrom? || op.CopyFrom? ==>
              && (op.y.Scalar? && op.y.c == c ==> IsDouble(c) && Do(r, op) == op.y)
              && (op.y.Flag? && c == Activated ==> Do(r, op) == op.y)
              && (op.y.Vector? && op.y.c == c && (op.CopyFrom? || CaseOf(r) != Some(c)) ==>
                    IsVector(c) && Do(r, op) == op.y)
    ensures op == Mutable(c) && CaseOf(r) != Some(c) ==> IsVector(c) && Do(r, op) == Vector(c, [])
    ensures op.ParseFrom? && Parse(Sensor, op.bytes).Some? ==>
              var m := Parse(Sensor, op.bytes).value;
              CaseIn(m) == Some(c) ==>
                && (IsDouble(c) ==> Do(r, op) == Scalar(c, DoubleIn(m, c)))
                && (c == Activated ==> Do(r, op) == Flag(BoolOf(m, 6)))
                && (IsVector(c) ==> Do(r, op) == Vector(c, VectorIn(m, c)))
    ensures forall d :: CaseOf(Scalar(c, d)) == Some(c)
    ensures forall b :: CaseOf(Flag(b)) == Some(Activated)
    ensures forall xs :: CaseOf(Vector(c, xs)) == Some(c)
  {
    hide Parse, CaseIn, DoubleIn, VectorIn, BoolOf, TagOffTheEnd, CaseLeft;
    assert forall xs: seq<Double> :: [] + xs == xs;
  }

  // ---------------------------------------------------------------- agreement with the codec

  lemma {:induction false} MergeSkips(c: Cls, i: nat, x: Msg, y: Msg)
    requires i >= 1 && forall n | n in y.fields :: n < i
    ensures MergeRest(c, i, x, y) == x.(unknown := x.unknown + y.unknown)
    decreases LAST + 1 - i
  {
    hide FieldOf, MergeVal;
    if i <= LAST { MergeSkips(c, i + 1, x, y); }
  }

  lemma {:induction false} MergeOneField(c: Cls, i: nat, x: Msg, y: Msg, n: nat)
    requires 1 <= i <= n <= LAST && y.fields.Keys == {n} && FieldOf(c, n).Some? && y.unknown == []
    ensures MergeRest(c, i, x, y) == MergeVal(c, FieldOf(c, n).value, n, x, y.fields[n])
    decreases n - i
  {
    hide FieldOf, MergeVal;
    if i < n {
      MergeOneField(c, i + 1, x, y, n);
    } else {
      var m := MergeVal(c, FieldOf(c, n).value, n, x, y.fields[n]);
      MergeSkips(c, n + 1, m, y);
      assert m.unknown + [] == m.unknown;
    }
  }

  lemma MergeVectors(xs: seq<Double>, ys: seq<Double>)
    ensures Merge(Vec3, VectorMsg(xs), VectorMsg(ys)) == VectorMsg(xs + ys)
  {
    if ys == [] {
      MergeSkips(Vec3, 1, VectorMsg(xs), VectorMsg(ys));
      assert xs + ys == xs;
    } else {
      MergeOneField(Vec3, 1, VectorMsg(xs), VectorMsg(ys), 1);
    }
  }

  lemma StoreOneofInReading(x: Reading, c: Case, v: Val)
    requires WellTyped(x)
    ensures StoreOneof(Sensor, ReadingMsg(x), Number(c), v) == Put(EMPTY, Number(c), v)
  {
    hide OneofFields;
    MembersAreOneof();
    assert ReadingMsg(x).fields - OneofFields(Sensor) == map[];
  }

  lemma MembersAreOneof()
    ensures forall c: Case :: Number(c) in OneofFields(Sensor)
    ensures forall c: Case :: IsVector(c) ==> FieldOf(Sensor, Number(c)) == Some(OneofMessage(Vec3))
    ensures forall c: Case :: IsDouble(c) ==> FieldOf(Sensor, Number(c)) == Some(OneofDouble)
    ensures FieldOf(Sensor, Number(Activated)) == Some(OneofBool)
  {
  }

  lemma VectorFieldOf(x: Reading, c: Case)
    requires WellTyped(x) && IsVector(c)
    ensures MsgOf(ReadingMsg(x), Number(c)) == VectorMsg(VectorOf(x, c))
  {
  }

  lemma MergeVectorReading(x: Reading, y: Reading)
    requires WellTyped(x) && WellTyped(y) && y.Vector?
    ensures MergeVal(Sensor, OneofMessage(Vec3), Number(y.c), ReadingMsg(x), VMsg(VectorMsg(y.arr)))
         == ReadingMsg(MergeReading(x, y))
  {
    hide FieldOf, StoreOneof, VectorMsg, ReadingMsg, Merge;
    VectorFieldOf(x, y.c);
    MergeVectors(VectorOf(x, y.c), y.arr);
    StoreOneofInReading(x, y.c, VMsg(VectorMsg(VectorOf(x, y.c) + y.arr)));
    assert ReadingMsg(Vector(y.c, VectorOf(x, y.c) + y.arr))
        == Put(EMPTY, Number(y.c), VMsg(VectorMsg(VectorOf(x, y.c) + y.arr)))
      by { VectorMember(y.c, VectorOf(x, y.c) + y.arr); }
  }

  lemma VectorMember(c: Case, arr: seq<Double>)
    ensures ReadingMsg(Vector(c, arr)) == Put(EMPTY, Number(c), VMsg(VectorMsg(arr)))
  {
  }

  lemma OneKey(y: Reading)
    requires !y.NoReading?
    ensures ReadingMsg(y).fields.Keys == {Number(CaseOf(y).value)}
  {
    hide VectorMsg, Number;
    var n := Number(CaseOf(y).value);
    var v := ReadingMsg(y).fields[n];
    assert ReadingMsg(y) == Put(EMPTY, n, v);
    assert EMPTY.fields[n := v].Keys == {n};
  }

  /** Merging readings is the codec's merge of their messages. */
  lemma MergeReadingIsMerge(x: Reading, y: Reading)
    requires WellTyped(x) && WellTyped(y)
    ensures Merge(Sensor, ReadingMsg(x), ReadingMsg(y)) == ReadingMsg(MergeReading(x, y))
  {
    hide FieldOf, MergeVal, VectorMsg;
    MembersAreOneof();
    if y.NoReading? {
      MergeSkips(Sensor, 1, ReadingMsg(x), ReadingMsg(y));
    } else {
      var c := CaseOf(y).value;
      var n := Number(c);
      OneKey(y);
      MergeOneField(Sensor, 1, ReadingMsg(x), ReadingMsg(y), n);
      if y.Vector? {
        MergeVectorReading(x, y);
      } else {
        MergePlainReading(x, y);
      }
    }
  }

  lemma MergePlainReading(x: Reading, y: Reading)
    requires WellTyped(x) && WellTyped(y) && (y.Scalar? || y.Flag?)
    ensures var n := Number(CaseOf(y).value);
            MergeVal(Sensor, FieldOf(Sensor, n).value, n, ReadingMsg(x), ReadingMsg(y).fields[n]) == ReadingMsg(y)
  {
    hide FieldOf, StoreOneof, VectorMsg, Merge;
    MembersAreOneof();
    var c := CaseOf(y).value;
    StoreOneofInReading(x, c, ReadingMsg(y).fields[Number(c)]);
  }

  function LastRecognised(rs: seq<Record>, otherwise: set<nat>): set<nat> {
    if rs == [] then otherwise
    else
      var r := rs[|rs| - 1];
      if Recognises(Sensor, r.num, WireType(r.body)) then {r.num} else LastRecognised(rs[..|rs| - 1], otherwise)
  }

  /** Parsing establishes the case of its last recognised record. */
  lemma {:induction false} ParseEstablishesLast(depth: nat, m: Msg, rs: seq<Record>)
    requires m.fields.Keys <= OneofFields(Sensor) && ApplyAll(Sensor, depth, m, rs).Some?
    ensures ApplyAll(Sensor, depth, m, rs).value.fields.Keys == LastRecognised(rs, m.fields.Keys)
    decreases |rs|
  {
    hide Apply, OneofFields;
    if rs != [] {
      var n := |rs| - 1;
      RoundTrip.ApplyAllConcat(Sensor, depth, m, rs[..n], [rs[n]]);
      assert rs == rs[..n] + [rs[n]];
      ParseEstablishesLast(depth, m, rs[..n]);
      var m' := ApplyAll(Sensor, depth, m, rs[..n]).value;
      RoundTrip.ApplyOne(Sensor, depth, m', rs[n]);
      StaysOneof(rs[..n], m.fields.Keys);
      RecordEstablishes(depth, m', rs[n]);
    }
  }

  /** After any parse the case left is that of the last tag some case took: that of the record the
      parse stopped at, or else the last recognised one among those it had applied. */
  lemma CaseLeftIsLast(b: Bytes, c: Case)
    ensures var rs := Readable(MAX_DEPTH, b).0;
            var rest := StopAt(Sensor, MAX_DEPTH, EMPTY, b).rest;
            CaseLeft(b) == Some(c) <==>
            if KnownTag(rest) then TakeTag(rest).value.num == Number(c)
            else LastRecognised(rs[..Accepted(Sensor, MAX_DEPTH, rs)], {}) == {Number(c)}
  {
    hide StopAt, Readable, Accepted, ApplyAll, LastRecognised, Recognises, TakeRecord;
    var rs := Readable(MAX_DEPTH, b).0;
    var taken := rs[..Accepted(Sensor, MAX_DEPTH, rs)];
    var s := StopAt(Sensor, MAX_DEPTH, EMPTY, b);
    StopsAtFirstRefused(Sensor, MAX_DEPTH, EMPTY, b);
    if KnownTag(s.rest) {
      var n := TakeTag(s.rest).value.num;
      if CaseAt(n).Some? { NumbersDiffer(CaseAt(n).value, c); }
    } else {
      assert EMPTY.fields.Keys == {};
      ParseEstablishesLast(MAX_DEPTH, EMPTY, taken);
      OneAtMost(taken);
      if CaseIn(s.m) == Some(c) {
        assert Number(c) in s.m.fields.Keys;
      }
      if s.m.fields.Keys == {Number(c)} {
        assert Has(s.m, c);
        NumbersDiffer(c, CaseIn(s.m).value);
      }
    }
  }

  lemma {:induction false} OneAtMost(rs: seq<Record>)
    ensures forall i, j | i in LastRecognised(rs, {}) && j in LastRecognised(rs, {}) :: i == j
  {
    if rs != [] { OneAtMost(rs[..|rs| - 1]); }
  }

  lemma NumbersDiffer(c: Case, c': Case)
    ensures Number(c) == Number(c') ==> c == c'
  {
  }

  lemma {:induction false} StaysOneof(rs: seq<Record>, otherwise: set<nat>)
    requires otherwise <= OneofFields(Sensor)
    ensures LastRecognised(rs, otherwise) <= OneofFields(Sensor)
  {
    if rs != [] { StaysOneof(rs[..|rs| - 1], otherwise); }
  }

  lemma RecordEstablishes(depth: nat, m: Msg, r: Record)
    requires m.fields.Keys <= OneofFields(Sensor) && Apply(Sensor, depth, m, r).Some?
    ensures Apply(Sensor, depth, m, r).value.fields.Keys
         == if Recognises(Sensor, r.num, WireType(r.body)) then {r.num} else m.fields.Keys
  {
    hide OneofFields, ParseInto;
    assert m.fields - OneofFields(Sensor) == map[];
  }

  // ---------------------------------------------------------------- one record of a parse

  /** A sensor that holds nothing but oneof members. */
  lemma OnlyMembers(depth: nat, m: Msg)
    requires Ok(Sensor, depth, m)
    ensures m.fields.Keys <= OneofFields(Sensor)
  {
    hide ValOk;
  }

  lemma OneMemberSet(m: Msg, c: Case, v: Val)
    requires m.fields.Keys <= OneofFields(Sensor)
    ensures StoreOneof(Sensor, m, Number(c), v) == Msg(map[Number(c) := v], m.unknown)
  {
    hide OneofFields;
    assert m.fields - OneofFields(Sensor) == map[];
  }

  lemma OnlyCaseIn(c: Case, v: Val, unknown: seq<Record>)
    ensures CaseIn(Msg(map[Number(c) := v], unknown)) == Some(c)
  {
    var m := Msg(map[Number(c) := v], unknown);
    assert Has(m, c);
    NumbersDiffer(c, CaseIn(m).value);
  }

  lemma DoubleApplied(depth: nat, m: Msg, c: Case, bits: Double)
    requires Ok(Sensor, depth, m) && IsDouble(c)
    ensures var m' := Apply(Sensor, depth, m, Record(Number(c), Fixed64(bits)));
            m'.Some? && ReadingIn(m'.value) == Scalar(c, bits)
  {
    hide Ok, CaseIn, OneofFields, StoreOneof;
    MembersAreOneof();
    OnlyMembers(depth, m);
    OneMemberSet(m, c, VDouble(bits));
    OnlyCaseIn(c, VDouble(bits), m.unknown);
  }

  lemma FlagApplied(depth: nat, m: Msg, v: U64)
    requires Ok(Sensor, depth, m)
    ensures var m' := Apply(Sensor, depth, m, Record(Number(Activated), Varint(v)));
            m'.Some? && ReadingIn(m'.value) == Flag(v != 0)
  {
    hide Ok, CaseIn, OneofFields, StoreOneof;
    MembersAreOneof();
    OnlyMembers(depth, m);
    OneMemberSet(m, Activated, VBool(v != 0));
    OnlyCaseIn(Activated, VBool(v != 0), m.unknown);
  }

  lemma VectorApplied(depth: nat, m: Msg, c: Case, data: Bytes)
    requires Ok(Sensor, depth, m) && IsVector(c)
    ensures var m' := Apply(Sensor, depth, m, Record(Number(c), Len(data)));
            var x := ParseNested(Vec3, depth, VectorMsg(VectorIn(m, c)), data);
            && m'.Some? == x.Some?
            && (x.Some? ==> ReadingIn(m'.value) == Vector(c, DoublesOf(x.value, 1)))
  {
    hide Ok, CaseIn, OneofFields, StoreOneof, ParseNested, VectorMsg;
    MembersAreOneof();
    OnlyMembers(depth, m);
    var y := ParseNested(Vec3, depth, MsgOf(m, Number(c)), data);
    SameVector(depth, m, c, data);
    if y.Some? {
      OneMemberSet(m, c, VMsg(y.value));
      OnlyCaseIn(c, VMsg(y.value), m.unknown);
    }
  }

  /** The doubles a sub-message ends with do not depend on the unknown fields it had. */
  lemma SameVector(depth: nat, m: Msg, c: Case, data: Bytes)
    requires Ok(Sensor, depth, m) && IsVector(c)
    ensures var x := ParseNested(Vec3, depth, VectorMsg(VectorIn(m, c)), data);
            var y := ParseNested(Vec3, depth, MsgOf(m, Number(c)), data);
            x.Some? == y.Some? && (x.Some? ==> DoublesOf(x.value, 1) == DoublesOf(y.value, 1))
  {
    hide ParseInto, VectorMsg, Ok, VectorIn;
    if depth > 0 {
      var x, y := VectorMsg(VectorIn(m, c)), MsgOf(m, Number(c));
      AcceptanceOfBytes(Vec3, depth - 1, x, y, data);
      SubMessagePart(depth, m, c);
      if ParseInto(Vec3, depth - 1, x, data).Some? {
        SamePart(depth - 1, x, y, data);
      }
    }
  }

  lemma SubMessagePart(depth: nat, m: Msg, c: Case)
    requires Ok(Sensor, depth, m) && IsVector(c)
    ensures Part(Vec3, VectorMsg(VectorIn(m, c)), FieldSlot(1)) == Part(Vec3, MsgOf(m, Number(c)), FieldSlot(1))
  {
    hide OneofFields, Ok, FieldOf;
    var y := MsgOf(m, Number(c));
    MembersAreOneof();
    FieldIsOk(Sensor, depth, m, Number(c));
    if Number(c) in m.fields {
      assert Ok(Vec3, depth - 1, y);
      OnlyDoubles(depth - 1, y);
    }
  }

  lemma OnlyDoubles(depth: nat, y: Msg)
    requires Ok(Vec3, depth, y)
    ensures y.fields.Keys <= {1} && (1 in y.fields ==> y.fields[1].VDoubles? && y.fields[1].doubles != [])
  {
    hide OneofFields;
    forall n | n in y.fields ensures n == 1 {
      assert FieldOf(Vec3, n).Some?;
    }
  }

  lemma SamePart(depth: nat, x: Msg, y: Msg, data: Bytes)
    requires Part(Vec3, x, FieldSlot(1)) == Part(Vec3, y, FieldSlot(1))
    requires ParseInto(Vec3, depth, x, data).Some? && ParseInto(Vec3, depth, y, data).Some?
    ensures DoublesOf(ParseInto(Vec3, depth, x, data).value, 1) == DoublesOf(ParseInto(Vec3, depth, y, data).value, 1)
  {
    hide ApplyAll, Tokenise, Part, Select, OneofFields;
    var rs := Tokenise(depth, data).value;
    PartOfParse(Vec3, depth, x, rs, FieldSlot(1));
    PartOfParse(Vec3, depth, y, rs, FieldSlot(1));
    assert InSlot(Vec3, 1, FieldSlot(1)) by { OneofNumber(Vec3, 1); }
    PartKeepsField(Vec3, ApplyAll(Vec3, depth, x, rs).value, 1, FieldSlot(1));
    PartKeepsField(Vec3, ApplyAll(Vec3, depth, y, rs).value, 1, FieldSlot(1));
  }

  /** A message that went on being well formed. */
  lemma StillOk(depth: nat, m: Msg, tag: Tag, ptr: Bytes)
    requires Ok(Sensor, depth, m) && depth >= 1 && 1 <= tag.num < 0x2000_0000
    ensures var t := TakeBody(depth, tag, ptr);
            t.Took? ==>
              WireType(t.value) == tag.wireType &&
              var m' := Apply(Sensor, depth, m, Record(tag.num, t.value));
              m'.Some? ==> Ok(Sensor, depth, m'.value)
  {
    hide Ok, Apply, TakeBody;
    var t := TakeBody(depth, tag, ptr);
    if t.Took? {
      TakenBodyFits(depth, tag, ptr);
      FitsIsShallow(depth, Record(tag.num, t.value));
      RecordKeepsOk(Sensor, depth, m, Record(tag.num, t.value));
    }
  }

  // ---------------------------------------------------------------- the object

  class VectorNode {
    var arr: seq<Double>
    constructor () ensures arr == [] { arr := []; }
  }

  /** The storage all members share. */
  datatype Cell = Junk | DoubleCell(d: Double) | BoolCell(b: bool) | PointerCell(p: VectorNode)

  class SensorObject {
    var oneofCase: Option<Case>
    var cell: Cell
    /** Sub-messages allocated and not yet deleted. */
    ghost var live: set<VectorNode>

    /** The cell holds what the case says, and the one live sub-message is that of a vector case. */
    ghost predicate Valid()
      reads this
    {
      match oneofCase
      case None => live == {}
      case Some(c) =>
        if IsDouble(c) then cell.DoubleCell? && live == {}
        else if c.Activated? then cell.BoolCell? && live == {}
        else cell.PointerCell? && live == {cell.p}
    }

    ghost function Value(): (r: Reading)
      requires Valid()
      reads this, live
      ensures WellTyped(r) && CaseOf(r) == oneofCase
    {
      match oneofCase
      case None => NoReading
      case Some(c) =>
        if IsDouble(c) then Scalar(c, cell.d)
        else if c.Activated? then Flag(cell.b)
        else Vector(c, cell.p.arr)
    }

    constructor ()
      ensures Valid() && Value() == NoReading && live == {}
    {
      oneofCase, cell, live := None, Junk, {};
    }

    /** `delete`: the pointer must be live, and is not live afterwards. */
    method Delete(ghost p: VectorNode)
      requires p in live
      modifies this`live
      ensures live == old(live) - {p}
    {
      live := live - {p};
    }

    method ClearValue()
      requires Valid()
      modifies this
      ensures Valid() && Value() == Do(old(Value()), Op.ClearValue) && live == {}
    {
      if oneofCase.Some? && IsVector(oneofCase.value) {
        Delete(cell.p);
      }
      oneofCase := None;
    }

    method SetDouble(c: Case, d: Double)
      requires Valid() && IsDouble(c)
      modifies this
      ensures Valid() && Value() == Do(old(Value()), Op.SetDouble(c, d)) && live == {}
    {
      if oneofCase != Some(c) {
        ClearValue();
        oneofCase := Some(c);
      }
      cell := DoubleCell(d);
    }

    method SetActivated(b: bool)
      requires Valid()
      modifies this
      ensures Valid() && Value() == Do(old(Value()), Op.SetActivated(b)) && live == {}
    {
      if oneofCase != Some(Activated) {
        ClearValue();
        oneofCase := Some(Activated);
      }
      cell := BoolCell(b);
    }

    method Mutable(c: Case) returns (p: VectorNode)
      requires Valid() && IsVector(c)
      modifies this
      ensures Valid() && Value() == Do(old(Value()), Op.Mutable(c))
      ensures oneofCase == Some(c) && cell == PointerCell(p) && (fresh(p) || p in old(live))
    {
      if oneofCase != Some(c) {
        ClearValue();
        oneofCase := Some(c);
        var node := new VectorNode();
        cell, live := PointerCell(node), {node};
      }
      return cell.p;
    }

    /** mutable_x()->mutable_arr()->Assign(...) */
    method AssignVector(c: Case, arr: seq<Double>)
      requires Valid() && IsVector(c)
      modifies this, live
      ensures Valid() && Value() == Do(old(Value()), Op.AssignVector(c, arr)) && fresh(live - old(live))
    {
      var p := Mutable(c);
      p.arr := arr;
    }

    method ClearMember(c: Case)
      requires Valid()
      modifies this
      ensures Valid() && Value() == Do(old(Value()), Op.ClearMember(c)) && live <= old(live)
    {
      if oneofCase == Some(c) {
        if IsVector(c) { Delete(cell.p); }
        oneofCase := None;
      }
    }

    method MergeFrom(from: SensorObject)
      requires Valid() && from.Valid() && from != this && live !! from.live
      modifies this, live
      ensures Valid() && Value() == Do(old(Value()), Op.MergeFrom(old(from.Value()))) && fresh(live - old(live))
    {
      if from.oneofCase.Some? {
        var c := from.oneofCase.value;
        if IsDouble(c) {
          SetDouble(c, from.cell.d);
        } else if c.Activated? {
          SetActivated(from.cell.b);
        } else {
          var p := Mutable(c);
          p.arr := p.arr + from.cell.p.arr;
        }
      }
    }

    /** Copying an object onto itself leaves it as it is. */
    method CopyFrom(from: SensorObject)
      requires Valid() && from.Valid() && (from != this ==> live !! from.live)
      modifies this, live
      ensures Valid() && Value() == Do(old(Value()), Op.CopyFrom(old(from.Value()))) && fresh(live - old(live))
    {
      if from == this { return; }
      ClearValue();
      MergeFrom(from);
    }

    /** The `case` arms of the parse loop: the member is set, or its sub-message made or kept, as soon as
        the tag is read; a value that cannot be read leaves something behind, and the parse fails. */
    method ParseMember(tag: Tag, ptr: Bytes, ghost m: Msg) returns (ok: bool, rest: Bytes)
      requires Valid() && Value() == ReadingIn(m) && Ok(Sensor, MAX_DEPTH, m)
      requires Recognises(Sensor, tag.num, tag.wireType)
      modifies this, live
      ensures Valid() && fresh(live - old(live)) && CaseOf(Value()) == CaseAt(tag.num)
      ensures var t := TakeBody(MAX_DEPTH, tag, ptr);
              var m' := if t.Took? then Apply(Sensor, MAX_DEPTH, m, Record(tag.num, t.value)) else None;
              ok == m'.Some? && (ok ==> rest == t.rest && Value() == ReadingIn(m'.value))
    {
      hide Ok, Apply, ParseNested, ReadingIn, Recognises;
      RecognisedMembers(tag);
      var c := CaseAt(tag.num).value;
      if IsDouble(c) {
        ok, rest := ParseDouble(c, ptr, m);
      } else if c.Activated? {
        ok, rest := ParseActivated(ptr, m);
      } else {
        ok, rest := ParseVector(c, ptr, m);
      }
    }

    method ParseDouble(c: Case, ptr: Bytes, ghost m: Msg) returns (ok: bool, rest: Bytes)
      requires Valid() && Ok(Sensor, MAX_DEPTH, m) && IsDouble(c)
      modifies this
      ensures Valid() && live == {} && CaseOf(Value()) == Some(c)
      ensures var t := TakeFixed(8, ptr);
              ok == t.Took? &&
              (ok ==> var m' := Apply(Sensor, MAX_DEPTH, m, Record(Number(c), Fixed64(t.value)));
                      rest == t.rest && m'.Some? && Value() == ReadingIn(m'.value))
    {
      hide Ok, Apply, ReadingIn;
      var t := TakeFixed(8, ptr);
      if t.Bad? {
        var scrap: Double := *;
        SetDouble(c, scrap);
        return false, ptr;
      }
      DoubleApplied(MAX_DEPTH, m, c, t.value);
      SetDouble(c, t.value);
      return true, t.rest;
    }

    method ParseActivated(ptr: Bytes, ghost m: Msg) returns (ok: bool, rest: Bytes)
      requires Valid() && Ok(Sensor, MAX_DEPTH, m)
      modifies this
      ensures Valid() && live == {} && CaseOf(Value()) == Some(Activated)
      ensures var t := TakeVarint(10, ptr);
              ok == t.Took? &&
              (ok ==> var v := t.value % 0x1_0000_0000_0000_0000;
                      var m' := Apply(Sensor, MAX_DEPTH, m, Record(Number(Activated), Varint(v)));
                      rest == t.rest && m'.Some? && Value() == ReadingIn(m'.value))
    {
      hide Ok, Apply, ReadingIn;
      var t := TakeVarint(10, ptr);
      if t.Bad? {
        var scrap: bool := *;
        SetActivated(scrap);
        return false, ptr;
      }
      var v := t.value % 0x1_0000_0000_0000_0000;
      FlagApplied(MAX_DEPTH, m, v);
      SetActivated(v != 0);
      return true, t.rest;
    }

    /** The nested parse runs on top of the live sub-message: the old one if the case is the same. */
    method ParseVector(c: Case, ptr: Bytes, ghost m: Msg) returns (ok: bool, rest: Bytes)
      requires Valid() && Value() == ReadingIn(m) && Ok(Sensor, MAX_DEPTH, m) && IsVector(c)
      modifies this, live
      ensures Valid() && fresh(live - old(live)) && CaseOf(Value()) == Some(c)
      ensures var t := TakeLen(ptr);
              var m' := if t.Took? then Apply(Sensor, MAX_DEPTH, m, Record(Number(c), Len(t.value))) else None;
              ok == m'.Some? && (ok ==> rest == t.rest && Value() == ReadingIn(m'.value))
    {
      hide Ok, Apply, ReadingIn, ParseInto, VectorMsg, StopAt;
      VectorOfReading(m, c);
      var p := Mutable(c);
      assert p.arr == VectorIn(m, c);
      var t := TakeLen(ptr);
      if t.Took? {
        VectorApplied(MAX_DEPTH, m, c, t.value);
        var sub := new MessageObject.MessageObject(Vec3, VectorMsg(p.arr));
        var good, _ := sub.InternalParse(t.value, MAX_DEPTH - 1);
        if good {
          p.arr := DoublesOf(sub.value, 1);
          return true, t.rest;
        }
      }
      p.arr := *;
      return false, ptr;
    }

    /** What a tag read past the end of the buffer may do. */
    method Scrap()
      requires Valid()
      modifies this, live
      ensures Valid() && fresh(live - old(live))
    {
      var known: bool := *;
      if !known { return; }
      var c: Case := *;
      if IsDouble(c) {
        var d: Double := *;
        SetDouble(c, d);
      } else if c.Activated? {
        var b: bool := *;
        SetActivated(b);
      } else {
        var arr: seq<Double> := *;
        AssignVector(c, arr);
      }
    }

    /** ParseFromString: clears, then parses record by record.  Accepted or not, the object stays valid,
        so that exactly the sub-message of a vector case is live. */
    method ParseFrom(b: Bytes) returns (ok: bool)
      requires Valid()
      modifies this, live
      ensures Valid() && ok == Parse(Sensor, b).Some? && fresh(live - old(live))
      ensures MayLeave(b, Value()) && Value() == Do(old(Value()), Op.ParseFrom(b, Value()))
    {
      hide Ok, Apply, StopAt, ReadingIn, Recognises, TakeTag, TakeBody, ParseInto;
      AcceptedStopsAtEnd(Sensor, MAX_DEPTH, EMPTY, b);
      EmptyOk(Sensor, MAX_DEPTH);
      NothingRead();
      ClearValue();
      var ptr := b;
      ghost var m := EMPTY;
      while ptr != []
        invariant Valid() && Value() == ReadingIn(m) && Ok(Sensor, MAX_DEPTH, m) && fresh(live - old(live))
        invariant StopAt(Sensor, MAX_DEPTH, m, ptr) == StopAt(Sensor, MAX_DEPTH, EMPTY, b)
        decreases |ptr|
      {
        MessageObject.StopStep(Sensor, MAX_DEPTH, m, ptr);
        var t := TakeTag(ptr);
        if t.Bad? {
          if Truncated(5, ptr) { Scrap(); }
          return false;
        }
        if t.value.num == 0 {
          assert !Recognises(Sensor, 0, t.value.wireType) by { NoFieldZero(t.value.wireType); }
          return false;
        }
        StillOk(MAX_DEPTH, m, t.value, t.rest);
        ghost var u := TakeBody(MAX_DEPTH, t.value, t.rest);
        ghost var m' := if u.Took? then Apply(Sensor, MAX_DEPTH, m, Record(t.value.num, u.value)) else None;
        WholeTag(ptr);
        if Recognises(Sensor, t.value.num, t.value.wireType) {
          var good, rest := ParseMember(t.value, t.rest, m);
          if !good { return false; }
          ptr := rest;
        } else {
          var u := TakeBody(MAX_DEPTH, t.value, t.rest);
          if u.Bad? { return false; }
          UnknownChangesNothing(MAX_DEPTH, m, Record(t.value.num, u.value));
          ptr := u.rest;
        }
        m := m'.value;
      }
      StopAtEnd(m);
      return true;
    }

    /** Getters: the value where the case matches, the default elsewhere. */
    method GetDouble(c: Case) returns (d: Double)
      requires Valid() && IsDouble(c)
      ensures if CaseOf(Value()) == Some(c) then Value() == Scalar(c, d) else d == ZERO
    {
      return if oneofCase == Some(c) then cell.d else ZERO;
    }

    method GetActivated() returns (b: bool)
      requires Valid()
      ensures if CaseOf(Value()) == Some(Activated) then Value() == Flag(b) else !b
    {
      return oneofCase == Some(Activated) && cell.b;
    }

    method GetVector(c: Case) returns (arr: seq<Double>)
      requires Valid() && IsVector(c)
      ensures if CaseOf(Value()) == Some(c) then Value() == Vector(c, arr) else arr == []
    {
      return if oneofCase == Some(c) then cell.p.arr else [];
    }
  }

  // ---------------------------------------------------------------- facts the parse loop needs

  lemma RecognisedMembers(tag: Tag)
    requires Recognises(Sensor, tag.num, tag.wireType)
    ensures CaseAt(tag.num).Some? && 1 <= tag.num <= LAST
    ensures var c := CaseAt(tag.num).value;
            && Number(c) == tag.num
            && tag.wireType == if IsDouble(c) then 1 else if c.Activated? then 0 else 2
  {
  }

  lemma VectorOfReading(m: Msg, c: Case)
    requires Ok(Sensor, MAX_DEPTH, m) && IsVector(c)
    ensures VectorOf(ReadingIn(m), c) == VectorIn(m, c)
  {
    hide VectorIn, Ok;
    OneMemberAtMost(m, MAX_DEPTH);
    if !Has(m, c) {
      assert VectorIn(m, c) == [] by { NotHeld(m, c); }
    }
  }

  lemma NotHeld(m: Msg, c: Case)
    requires !Has(m, c)
    ensures VectorIn(m, c) == []
  {
  }

  lemma NothingRead()
    ensures ReadingIn(EMPTY) == NoReading
  {
  }

  lemma NoFieldZero(wireType: nat)
    ensures !Recognises(Sensor, 0, wireType)
  {
  }

  lemma WholeTag(b: Bytes)
    requires TakeTag(b).Took?
    ensures !Truncated(5, b)
  {
    WholeVarint(5, b);
  }

  lemma UnknownChangesNothing(depth: nat, m: Msg, r: Record)
    requires !Recognises(Sensor, r.num, WireType(r.body))
    ensures Apply(Sensor, depth, m, r).Some? && ReadingIn(Apply(Sensor, depth, m, r).value) == ReadingIn(m)
  {
  }

  lemma StopAtEnd(m: Msg)
    ensures StopAt(Sensor, MAX_DEPTH, m, []) == Stop(m, [])
  {
  }
}
