/** What a parse result depends on: the records of each field in their order, and nothing else. */
module RecordOrder {
  import opened Wire
  import opened Utf8
  import opened Schema
  import opened Codec
  import opened RoundTrip

  // ---------------------------------------------------------------- acceptance

  lemma {:induction false} AcceptanceOfField(c: Cls, k: Kind, depth: nat, m: Msg, m': Msg, r: Record)
    requires Accepts(k, WireType(r.body))
    ensures ApplyField(c, k, depth, m, r).Some? == ApplyField(c, k, depth, m', r).Some?
    decreases KindRank(k), 0, 0
  {
    hide ParseInto, ValidUtf8, TakeInts, TakeDoubles, Store, StoreOneof, Put;
    if (k.MessageField? || k.OneofMessage?) && depth > 0 {
      AcceptanceOfBytes(k.c, depth - 1, MsgOf(m, r.num), MsgOf(m', r.num), r.body.data);
    }
  }

  /** Whether a record is accepted does not depend on what was parsed before it. */
  lemma {:induction false} AcceptanceOfRecord(c: Cls, depth: nat, m: Msg, m': Msg, r: Record)
    ensures Apply(c, depth, m, r).Some? == Apply(c, depth, m', r).Some?
    decreases Rank(c), 1, 0
  {
    hide FieldOf, ApplyField;
    if Recognises(c, r.num, WireType(r.body)) {
      AcceptanceOfField(c, FieldOf(c, r.num).value, depth, m, m', r);
    }
  }

  lemma {:induction false} AcceptanceOfRecords(c: Cls, depth: nat, m: Msg, rs: seq<Record>)
    ensures ApplyAll(c, depth, m, rs).Some? <==> forall r | r in rs :: Apply(c, depth, EMPTY, r).Some?
    decreases Rank(c), 2, |rs|
  {
    hide Apply;
    if rs != [] {
      AcceptanceOfRecord(c, depth, m, EMPTY, rs[0]);
      var m' := Apply(c, depth, m, rs[0]);
      if m'.Some? {
        AcceptanceOfRecords(c, depth, m'.value, rs[1..]);
        assert forall r :: r in rs <==> r == rs[0] || r in rs[1..];
      }
    }
  }

  lemma {:induction false} AcceptanceOfBytes(c: Cls, depth: nat, m: Msg, m': Msg, b: Bytes)
    ensures ParseInto(c, depth, m, b).Some? == ParseInto(c, depth, m', b).Some?
    decreases Rank(c), 3, 0
  {
    hide Apply, ApplyAll, Tokenise;
    var rs := Tokenise(depth, b);
    if rs.Some? {
      AcceptanceOfRecords(c, depth, m, rs.value);
      AcceptanceOfRecords(c, depth, m', rs.value);
    }
  }

  // ---------------------------------------------------------------- slots

  /** Where a record goes: a field of its own, the oneof, or the unknown set. */
  datatype Slot = FieldSlot(n: nat) | OneofSlot | UnknownSlot

  function SlotOf(c: Cls, r: Record): Slot {
    if !Recognises(c, r.num, WireType(r.body)) then UnknownSlot
    else if IsOneof(FieldOf(c, r.num).value) then OneofSlot
    else FieldSlot(r.num)
  }

  predicate InSlot(c: Cls, n: nat, s: Slot) {
    match s
    case FieldSlot(i) => n == i && n !in OneofFields(c)
    case OneofSlot => n in OneofFields(c)
    case UnknownSlot => false
  }

  /** The part of a message that slot `s` holds. */
  function Part(c: Cls, m: Msg, s: Slot): Msg {
    Msg(map n | n in m.fields && InSlot(c, n, s) :: m.fields[n], if s.UnknownSlot? then m.unknown else [])
  }

  function Select(c: Cls, rs: seq<Record>, s: Slot): seq<Record> {
    if rs == [] then []
    else (if SlotOf(c, rs[0]) == s then [rs[0]] else []) + Select(c, rs[1..], s)
  }

  lemma PutPart(c: Cls, m: Msg, n: nat, v: Val, s: Slot)
    requires n !in OneofFields(c)
    ensures Part(c, Put(m, n, v), s) == if s == FieldSlot(n) then Put(Part(c, m, s), n, v) else Part(c, m, s)
  {
    hide OneofFields;
  }

  lemma StorePart(c: Cls, m: Msg, n: nat, v: Val, s: Slot)
    requires n !in OneofFields(c)
    ensures Part(c, Store(m, n, v), s) == if s == FieldSlot(n) then Store(Part(c, m, s), n, v) else Part(c, m, s)
  {
    hide OneofFields, IsDefault;
    if IsDefault(v) {
      assert Part(c, Store(m, n, v), s).fields == Part(c, m, s).fields - {n};
    } else {
      PutPart(c, m, n, v, s);
    }
  }

  lemma StoreOneofPart(c: Cls, m: Msg, n: nat, v: Val, s: Slot)
    requires n in OneofFields(c)
    ensures Part(c, StoreOneof(c, m, n, v), s)
            == if s.OneofSlot? then StoreOneof(c, Part(c, m, s), n, v) else Part(c, m, s)
  {
    hide OneofFields;
  }

  lemma OneofNumber(c: Cls, n: nat)
    ensures n in OneofFields(c) <==> FieldOf(c, n).Some? && IsOneof(FieldOf(c, n).value)
  {
  }

  /** The value that a recognised, accepted record leaves in its field. */
  function Written(c: Cls, k: Kind, depth: nat, m: Msg, r: Record): Val
    requires Accepts(k, WireType(r.body)) && ApplyField(c, k, depth, m, r).Some?
  {
    match k
    case IntField => VInt(ToInt32(r.body.v))
    case BoolField => VBool(r.body.v != 0)
    case DoubleField => VDouble(r.body.bits)
    case StringField => VString(r.body.data)
    case MessageField(c') => VMsg(ParseNested(c', depth, MsgOf(m, r.num), r.body.data).value)
    case PackedInts =>
      VInts(IntsOf(m, r.num) + (if r.body.Len? then TakeInts(r.body.data).value else [ToInt32(r.body.v)]))
    case PackedDoubles =>
      VDoubles(DoublesOf(m, r.num) + (if r.body.Len? then TakeDoubles(r.body.data).value else [r.body.bits]))
    case Strings => VStrings(StringsOf(m, r.num) + [r.body.data])
    case Messages(c') => VMsgs(MsgsOf(m, r.num) + [ParseNested(c', depth, EMPTY, r.body.data).value])
    case MapField(mv) =>
      var e := ParseNested(Entry(mv), depth, EMPTY, r.body.data).value;
      VMap(EntriesOf(m, r.num)[EntryKey(e) := EntryValue(mv, e)])
    case OneofDouble => VDouble(r.body.bits)
    case OneofBool => VBool(r.body.v != 0)
    case OneofMessage(c') => VMsg(ParseNested(c', depth, MsgOf(m, r.num), r.body.data).value)
  }

  /** The getters that a parse of field `n` consults. */
  predicate SameField(m: Msg, m': Msg, n: nat) {
    && MsgOf(m, n) == MsgOf(m', n)
    && IntsOf(m, n) == IntsOf(m', n)
    && DoublesOf(m, n) == DoublesOf(m', n)
    && StringsOf(m, n) == StringsOf(m', n)
    && MsgsOf(m, n) == MsgsOf(m', n)
    && EntriesOf(m, n) == EntriesOf(m', n)
  }

  lemma PartKeepsField(c: Cls, m: Msg, n: nat, s: Slot)
    requires InSlot(c, n, s)
    ensures SameField(m, Part(c, m, s), n)
  {
    hide OneofFields;
  }

  lemma RecordWrites(c: Cls, k: Kind, depth: nat, m: Msg, r: Record)
    requires Accepts(k, WireType(r.body)) && ApplyField(c, k, depth, m, r).Some?
    ensures var v := Written(c, k, depth, m, r);
            ApplyField(c, k, depth, m, r)
            == Some(if IsOneof(k) then StoreOneof(c, m, r.num, v) else Store(m, r.num, v))
  {
    hide ParseInto, ValidUtf8, StoreOneof, OneofFields, TakeInts, TakeDoubles;
    if k.MapField? {
      var e := ParseNested(Entry(k.v), depth, EMPTY, r.body.data).value;
      assert EntryKey(e) in EntriesOf(m, r.num)[EntryKey(e) := EntryValue(k.v, e)];
    }
  }

  lemma WritesTheSame(c: Cls, k: Kind, depth: nat, m: Msg, m': Msg, r: Record)
    requires Accepts(k, WireType(r.body)) && ApplyField(c, k, depth, m, r).Some? && SameField(m, m', r.num)
    ensures ApplyField(c, k, depth, m', r).Some? && Written(c, k, depth, m', r) == Written(c, k, depth, m, r)
  {
    hide ParseInto, ValidUtf8, StoreOneof, Store, OneofFields, TakeInts, TakeDoubles;
  }

  /** A record changes its own slot, as it would if the message held nothing else, and no other slot. */
  lemma RecordStaysInSlot(c: Cls, depth: nat, m: Msg, r: Record, s: Slot)
    requires Apply(c, depth, m, r).Some?
    ensures var m' := Apply(c, depth, m, r).value;
            if SlotOf(c, r) == s then Apply(c, depth, Part(c, m, s), r) == Some(Part(c, m', s))
            else Part(c, m', s) == Part(c, m, s)
  {
    hide FieldOf, OneofFields, ApplyField, Part, Store, StoreOneof, Written;
    var n := r.num;
    OneofNumber(c, n);
    if Recognises(c, n, WireType(r.body)) {
      var k := FieldOf(c, n).value;
      var v := Written(c, k, depth, m, r);
      RecordWrites(c, k, depth, m, r);
      if IsOneof(k) {
        StoreOneofPart(c, m, n, v, s);
      } else {
        StorePart(c, m, n, v, s);
      }
      if SlotOf(c, r) == s {
        PartKeepsField(c, m, n, s);
        WritesTheSame(c, k, depth, m, Part(c, m, s), r);
        RecordWrites(c, k, depth, Part(c, m, s), r);
      }
    } else {
      UnknownPart(c, m, r, s);
    }
  }

  lemma UnknownPart(c: Cls, m: Msg, r: Record, s: Slot)
    ensures Part(c, AddUnknown(m, r), s)
            == if s.UnknownSlot? then AddUnknown(Part(c, m, s), r) else Part(c, m, s)
  {
  }

  /** The final contents of a slot come from its own records alone. */
  lemma {:induction false} PartOfParse(c: Cls, depth: nat, m: Msg, rs: seq<Record>, s: Slot)
    requires ApplyAll(c, depth, m, rs).Some?
    ensures ApplyAll(c, depth, Part(c, m, s), Select(c, rs, s)) == Some(Part(c, ApplyAll(c, depth, m, rs).value, s))
    decreases |rs|
  {
    hide Apply, Part, SlotOf;
    if rs != [] {
      var m' := Apply(c, depth, m, rs[0]).value;
      RecordStaysInSlot(c, depth, m, rs[0], s);
      PartOfParse(c, depth, m', rs[1..], s);
      if SlotOf(c, rs[0]) == s {
        assert Select(c, rs, s)[1..] == Select(c, rs[1..], s);
      } else {
        assert Select(c, rs, s) == Select(c, rs[1..], s);
      }
    }
  }

  lemma {:induction false} Selected(c: Cls, rs: seq<Record>, s: Slot, r: Record)
    ensures r in Select(c, rs, s) <==> r in rs && SlotOf(c, r) == s
  {
    if rs != [] {
      Selected(c, rs[1..], s, r);
    }
  }

  ghost predicate SameKnownOrder(c: Cls, rs: seq<Record>, rs': seq<Record>) {
    forall s: Slot :: !s.UnknownSlot? ==> Select(c, rs, s) == Select(c, rs', s)
  }

  lemma SameAcceptance(c: Cls, depth: nat, m: Msg, rs: seq<Record>, rs': seq<Record>)
    requires SameKnownOrder(c, rs, rs') && ApplyAll(c, depth, m, rs).Some?
    ensures ApplyAll(c, depth, m, rs').Some?
  {
    hide Apply, ApplyAll, SlotOf, Select;
    AcceptanceOfRecords(c, depth, m, rs);
    AcceptanceOfRecords(c, depth, m, rs');
    forall r | r in rs' ensures Apply(c, depth, EMPTY, r).Some? {
      var s := SlotOf(c, r);
      if s.UnknownSlot? {
        UnknownAccepted(c, depth, r);
      } else {
        Selected(c, rs', s, r);
        assert Select(c, rs, s) == Select(c, rs', s);
        Selected(c, rs, s, r);
      }
    }
  }

  lemma UnknownAccepted(c: Cls, depth: nat, r: Record)
    requires SlotOf(c, r).UnknownSlot?
    ensures Apply(c, depth, EMPTY, r).Some?
  {
  }

  /** Field-order independence.  Two record sequences that agree on the order within each field and
      within the oneof are both accepted or both refused, and leave the same known fields; if they
      agree on the unknown records too, the messages are equal. */
  lemma OrderBetweenFieldsIsFree(c: Cls, depth: nat, m: Msg, rs: seq<Record>, rs': seq<Record>)
    requires SameKnownOrder(c, rs, rs')
    ensures ApplyAll(c, depth, m, rs).Some? == ApplyAll(c, depth, m, rs').Some?
    ensures ApplyAll(c, depth, m, rs).Some? ==>
              ApplyAll(c, depth, m, rs).value.fields == ApplyAll(c, depth, m, rs').value.fields
    ensures Select(c, rs, UnknownSlot) == Select(c, rs', UnknownSlot) ==>
              ApplyAll(c, depth, m, rs) == ApplyAll(c, depth, m, rs')
  {
    hide ApplyAll, Select, OneofFields;
    if ApplyAll(c, depth, m, rs').Some? {
      assert SameKnownOrder(c, rs', rs);
      SameAcceptance(c, depth, m, rs', rs);
    }
    if ApplyAll(c, depth, m, rs).Some? {
      SameAcceptance(c, depth, m, rs, rs');
      var x, y := ApplyAll(c, depth, m, rs).value, ApplyAll(c, depth, m, rs').value;
      forall n: nat ensures (n in x.fields <==> n in y.fields) && (n in x.fields ==> x.fields[n] == y.fields[n]) {
        var s := if n in OneofFields(c) then OneofSlot else FieldSlot(n);
        PartOfParse(c, depth, m, rs, s);
        PartOfParse(c, depth, m, rs', s);
        assert Select(c, rs, s) == Select(c, rs', s);
        assert n in x.fields <==> n in Part(c, x, s).fields;
        assert n in y.fields <==> n in Part(c, y, s).fields;
      }
      assert x.fields == y.fields;
      if Select(c, rs, UnknownSlot) == Select(c, rs', UnknownSlot) {
        PartOfParse(c, depth, m, rs, UnknownSlot);
        PartOfParse(c, depth, m, rs', UnknownSlot);
      }
    }
  }

  // ---------------------------------------------------------------- chunking

  function JoinDoubles(rs: seq<Record>): Option<seq<Double>>
    requires forall r | r in rs :: r.body.Len? || r.body.Fixed64?
  {
    if rs == [] then Some([])
    else
      var first := if rs[0].body.Len? then TakeDoubles(rs[0].body.data) else Some([rs[0].body.bits]);
      var rest := JoinDoubles(rs[1..]);
      if first.Some? && rest.Some? then Some(first.value + rest.value) else None
  }

  function JoinInts(rs: seq<Record>): Option<seq<Int32>>
    requires forall r | r in rs :: r.body.Len? || r.body.Varint?
  {
    if rs == [] then Some([])
    else
      var first := if rs[0].body.Len? then TakeInts(rs[0].body.data) else Some([ToInt32(rs[0].body.v)]);
      var rest := JoinInts(rs[1..]);
      if first.Some? && rest.Some? then Some(first.value + rest.value) else None
  }

  lemma Stored(m: Msg, n: nat, ds: seq<Double>, xs: seq<Int32>)
    ensures DoublesOf(Store(m, n, VDoubles(ds)), n) == ds
    ensures IntsOf(Store(m, n, VInts(xs)), n) == xs
  {
  }

  /** Any run of packed and unpacked pieces of a repeated double, well formed or not, acts as the
      concatenation of the pieces. */
  lemma {:induction false} DoublePiecesJoin(c: Cls, depth: nat, n: nat, m: Msg, rs: seq<Record>)
    requires FieldOf(c, n) == Some(PackedDoubles) && rs != []
    requires forall r | r in rs :: r.num == n && (r.body.Len? || r.body.Fixed64?)
    ensures var xs := JoinDoubles(rs);
            ApplyAll(c, depth, m, rs)
            == if xs.Some? then Some(Store(m, n, VDoubles(DoublesOf(m, n) + xs.value))) else None
    decreases |rs|
  {
    hide FieldOf, TakeDoubles, Store, DoublesOf, ParseInto, StoreOneof, ToInt32;
    var r := rs[0];
    assert Apply(c, depth, m, r) == ApplyField(c, PackedDoubles, depth, m, r);
    var m' := Apply(c, depth, m, r);
    if m'.Some? {
      var first := if r.body.Len? then TakeDoubles(r.body.data) else Some([r.body.bits]);
      Stored(m, n, DoublesOf(m, n) + first.value, []);
      if |rs| == 1 {
        assert first.value + [] == first.value;
      } else {
        DoublePiecesJoin(c, depth, n, m'.value, rs[1..]);
        var rest := JoinDoubles(rs[1..]);
        if rest.Some? {
          assert DoublesOf(m, n) + first.value + rest.value == DoublesOf(m, n) + (first.value + rest.value);
          StoreTwice(m, n, VDoubles(DoublesOf(m, n) + first.value),
                     VDoubles(DoublesOf(m, n) + first.value + rest.value));
        }
      }
    }
  }

  /** The same for a repeated enum. */
  lemma {:induction false} IntPiecesJoin(c: Cls, depth: nat, n: nat, m: Msg, rs: seq<Record>)
    requires FieldOf(c, n) == Some(PackedInts) && rs != []
    requires forall r | r in rs :: r.num == n && (r.body.Len? || r.body.Varint?)
    ensures var xs := JoinInts(rs);
            ApplyAll(c, depth, m, rs)
            == if xs.Some? then Some(Store(m, n, VInts(IntsOf(m, n) + xs.value))) else None
    decreases |rs|
  {
    hide FieldOf, TakeInts, Store, IntsOf, ParseInto, StoreOneof, ToInt32;
    var r := rs[0];
    assert Apply(c, depth, m, r) == ApplyField(c, PackedInts, depth, m, r);
    var m' := Apply(c, depth, m, r);
    if m'.Some? {
      var first := if r.body.Len? then TakeInts(r.body.data) else Some([ToInt32(r.body.v)]);
      Stored(m, n, [], IntsOf(m, n) + first.value);
      if |rs| == 1 {
        assert first.value + [] == first.value;
      } else {
        IntPiecesJoin(c, depth, n, m'.value, rs[1..]);
        var rest := JoinInts(rs[1..]);
        if rest.Some? {
          assert IntsOf(m, n) + first.value + rest.value == IntsOf(m, n) + (first.value + rest.value);
          StoreTwice(m, n, VInts(IntsOf(m, n) + first.value), VInts(IntsOf(m, n) + first.value + rest.value));
        }
      }
    }
  }

  lemma StoreTwice(m: Msg, n: nat, v: Val, w: Val)
    ensures Store(Store(m, n, v), n, w) == Store(m, n, w)
  {
    hide IsDefault;
    assert m.fields[n := v][n := w] == m.fields[n := w];
    assert (m.fields - {n})[n := w] == m.fields[n := w];
    assert m.fields[n := v] - {n} == m.fields - {n};
    assert (m.fields - {n}) - {n} == m.fields - {n};
  }

  /** However the doubles `xs` were cut into pieces, they parse as the one packed run the serializer writes. */
  lemma DoubleChunkingIsInvisible(c: Cls, depth: nat, n: FieldNum, m: Msg, rs: seq<Record>, xs: seq<Double>)
    requires FieldOf(c, n) == Some(PackedDoubles) && rs != []
    requires forall r | r in rs :: r.num == n && (r.body.Len? || r.body.Fixed64?)
    requires JoinDoubles(rs) == Some(xs)
    ensures ApplyAll(c, depth, m, rs) == ApplyAll(c, depth, m, [Record(n, Len(PutDoubles(xs)))])
  {
    hide FieldOf, TakeDoubles;
    var run := [Record(n, Len(PutDoubles(xs)))];
    TakePutDoubles(xs);
    assert run[1..] == [] && xs + [] == xs;
    assert JoinDoubles(run) == Some(xs);
    DoublePiecesJoin(c, depth, n, m, rs);
    DoublePiecesJoin(c, depth, n, m, run);
  }

  lemma IntChunkingIsInvisible(c: Cls, depth: nat, n: FieldNum, m: Msg, rs: seq<Record>, xs: seq<Int32>)
    requires FieldOf(c, n) == Some(PackedInts) && rs != []
    requires forall r | r in rs :: r.num == n && (r.body.Len? || r.body.Varint?)
    requires JoinInts(rs) == Some(xs)
    ensures ApplyAll(c, depth, m, rs) == ApplyAll(c, depth, m, [Record(n, Len(PutInts(xs)))])
  {
    hide FieldOf, TakeInts;
    var run := [Record(n, Len(PutInts(xs)))];
    TakePutInts(xs);
    assert run[1..] == [] && xs + [] == xs;
    assert JoinInts(run) == Some(xs);
    IntPiecesJoin(c, depth, n, m, rs);
    IntPiecesJoin(c, depth, n, m, run);
  }

  // ---------------------------------------------------------------- the same on bytes, however written

  /** Parsing goes on: after any accepted bytes, canonical or not, more bytes are parsed on top of them. */
  lemma ParseGoesOn(c: Cls, depth: nat, m: Msg, a: Bytes, b: Bytes)
    requires ParseInto(c, depth, m, a).Some?
    ensures ParseInto(c, depth, m, a + b) == ParseInto(c, depth, ParseInto(c, depth, m, a).value, b)
  {
    hide Tokenise, ApplyAll;
    TokeniseExtends(depth, a, b);
    var rs := Tokenise(depth, a).value;
    if Tokenise(depth, b).Some? {
      ApplyAllConcat(c, depth, m, rs, Tokenise(depth, b).value);
    }
  }

  /** Bytes that hold the same records of each field in the same order are accepted or refused together,
      with the same known fields; and with the same unknown records they give the same message. */
  lemma BytesInAnyFieldOrder(c: Cls, depth: nat, m: Msg, b: Bytes, b': Bytes)
    requires Tokenise(depth, b).Some? && Tokenise(depth, b').Some?
    requires SameKnownOrder(c, Tokenise(depth, b).value, Tokenise(depth, b').value)
    ensures ParseInto(c, depth, m, b).Some? == ParseInto(c, depth, m, b').Some?
    ensures ParseInto(c, depth, m, b).Some? ==>
              ParseInto(c, depth, m, b).value.fields == ParseInto(c, depth, m, b').value.fields
    ensures Select(c, Tokenise(depth, b).value, UnknownSlot) == Select(c, Tokenise(depth, b').value, UnknownSlot) ==>
              ParseInto(c, depth, m, b) == ParseInto(c, depth, m, b')
  {
    hide Tokenise, ApplyAll, SameKnownOrder;
    OrderBetweenFieldsIsFree(c, depth, m, Tokenise(depth, b).value, Tokenise(depth, b').value);
  }

  lemma {:induction false} SelectConcat(c: Cls, a: seq<Record>, b: seq<Record>, s: Slot)
    ensures Select(c, a + b, s) == Select(c, a, s) + Select(c, b, s)
  {
    hide SlotOf;
    if a == [] {
      assert a + b == b;
    } else {
      assert (a + b)[1..] == a[1..] + b;
      SelectConcat(c, a[1..], b, s);
    }
  }

  ghost predicate Apart(c: Cls, a: seq<Record>, b: seq<Record>) {
    forall r, r' :: r in a && r' in b && SlotOf(c, r) == SlotOf(c, r') ==> SlotOf(c, r).UnknownSlot?
  }

  /** Two pieces of a message that have no field in common may be sent in either order. */
  lemma PiecesCommute(c: Cls, depth: nat, m: Msg, a: Bytes, b: Bytes)
    requires Tokenise(depth, a).Some? && Tokenise(depth, b).Some?
    requires Apart(c, Tokenise(depth, a).value, Tokenise(depth, b).value)
    ensures ParseInto(c, depth, m, a + b).Some? == ParseInto(c, depth, m, b + a).Some?
    ensures ParseInto(c, depth, m, a + b).Some? ==>
              ParseInto(c, depth, m, a + b).value.fields == ParseInto(c, depth, m, b + a).value.fields
  {
    hide Tokenise, ParseInto, SlotOf, Select;
    var rs, rs' := Tokenise(depth, a).value, Tokenise(depth, b).value;
    TokeniseExtends(depth, a, b);
    TokeniseExtends(depth, b, a);
    forall s: Slot | !s.UnknownSlot? ensures Select(c, rs + rs', s) == Select(c, rs' + rs, s) {
      SelectConcat(c, rs, rs', s);
      SelectConcat(c, rs', rs, s);
      if Select(c, rs, s) != [] && Select(c, rs', s) != [] {
        Selected(c, rs, s, Select(c, rs, s)[0]);
        Selected(c, rs', s, Select(c, rs', s)[0]);
      }
    }
    BytesInAnyFieldOrder(c, depth, m, a + b, b + a);
  }

  /** However the doubles were cut into pieces, and however those were written, they parse as the bytes
      of the serializer's packed run. */
  lemma DoubleBytesChunked(c: Cls, depth: nat, n: FieldNum, m: Msg, b: Bytes, xs: seq<Double>)
    requires FieldOf(c, n) == Some(PackedDoubles) && Tokenise(depth, b).Some? && b != []
    requires forall r | r in Tokenise(depth, b).value :: r.num == n && (r.body.Len? || r.body.Fixed64?)
    requires JoinDoubles(Tokenise(depth, b).value) == Some(xs)
    requires |PutRecords([Record(n, Len(PutDoubles(xs)))])| <= MAX_LEN
    ensures ParseInto(c, depth, m, b) == ParseInto(c, depth, m, PutRecords([Record(n, Len(PutDoubles(xs)))]))
  {
    hide FieldOf, JoinDoubles, ApplyAll, PutRecords, PutDoubles;
    NotEmpty(depth, b);
    DoubleChunkingIsInvisible(c, depth, n, m, Tokenise(depth, b).value, xs);
    ParseRecords(c, depth, m, [Record(n, Len(PutDoubles(xs)))]);
  }

  lemma IntBytesChunked(c: Cls, depth: nat, n: FieldNum, m: Msg, b: Bytes, xs: seq<Int32>)
    requires FieldOf(c, n) == Some(PackedInts) && Tokenise(depth, b).Some? && b != []
    requires forall r | r in Tokenise(depth, b).value :: r.num == n && (r.body.Len? || r.body.Varint?)
    requires JoinInts(Tokenise(depth, b).value) == Some(xs)
    requires |PutRecords([Record(n, Len(PutInts(xs)))])| <= MAX_LEN
    ensures ParseInto(c, depth, m, b) == ParseInto(c, depth, m, PutRecords([Record(n, Len(PutInts(xs)))]))
  {
    hide FieldOf, JoinInts, ApplyAll, PutRecords, PutInts;
    NotEmpty(depth, b);
    IntChunkingIsInvisible(c, depth, n, m, Tokenise(depth, b).value, xs);
    ParseRecords(c, depth, m, [Record(n, Len(PutInts(xs)))]);
  }

  lemma NotEmpty(depth: nat, b: Bytes)
    requires b != [] && Tokenise(depth, b).Some?
    ensures Tokenise(depth, b).value != []
  {
    hide TakeRecord;
  }
}
