/** What holds of every parse, on any bytes. */
module ParseLaws {
  import opened Wire
  import opened Utf8
  import opened Schema
  import opened Codec
  import opened RoundTrip

  // ---------------------------------------------------------------- parsed messages are well formed

  lemma PutOk(c: Cls, depth: nat, m: Msg, n: nat, v: Val)
    requires Ok(c, depth, m) && FieldOf(c, n).Some?
    requires !IsOneof(FieldOf(c, n).value) && ValOk(FieldOf(c, n).value, depth, v)
    ensures Ok(c, depth, Put(m, n, v))
  {
    hide FieldOf, ValOk, Recognises;
    assert n !in OneofFields(c);
  }

  lemma StoreOk(c: Cls, depth: nat, m: Msg, n: nat, v: Val)
    requires Ok(c, depth, m) && FieldOf(c, n).Some? && !IsOneof(FieldOf(c, n).value)
    requires IsDefault(v) || ValOk(FieldOf(c, n).value, depth, v)
    ensures Ok(c, depth, Store(m, n, v))
  {
    hide FieldOf, ValOk, Recognises, IsDefault;
    if !IsDefault(v) {
      PutOk(c, depth, m, n, v);
    }
  }

  lemma DoublesOk(depth: nat, xs: seq<Double>)
    ensures IsDefault(VDoubles(xs)) || ValOk(PackedDoubles, depth, VDoubles(xs))
  {
  }

  lemma StoreOneofOk(c: Cls, depth: nat, m: Msg, n: nat, v: Val)
    requires Ok(c, depth, m) && FieldOf(c, n).Some?
    requires IsOneof(FieldOf(c, n).value) && ValOk(FieldOf(c, n).value, depth, v)
    ensures Ok(c, depth, StoreOneof(c, m, n, v))
  {
    hide FieldOf, ValOk, Recognises;
    assert n in OneofFields(c);
  }

  lemma {:induction false} FieldKeepsOk(c: Cls, k: Kind, depth: nat, m: Msg, r: Record)
    requires depth >= Rank(c) && Ok(c, depth, m)
    requires FieldOf(c, r.num) == Some(k) && Accepts(k, WireType(r.body))
    ensures var m' := ApplyField(c, k, depth, m, r); m'.Some? ==> Ok(c, depth, m'.value)
    decreases KindRank(k), 0, 0
  {
    hide FieldOf, ValidUtf8, ParseInto, Ok, Store, StoreOneof, Put, OneofFields;
    var n := r.num;
    assert n in m.fields ==> ValOk(k, depth, m.fields[n]) by { FieldIsOk(c, depth, m, n); }
    var m' := ApplyField(c, k, depth, m, r);
    match k
    case IntField => StoreOk(c, depth, m, n, VInt(ToInt32(r.body.v)));
    case BoolField => StoreOk(c, depth, m, n, VBool(r.body.v != 0));
    case DoubleField => StoreOk(c, depth, m, n, VDouble(r.body.bits));
    case StringField =>
      if m'.Some? { StoreOk(c, depth, m, n, VString(r.body.data)); }
    case MessageField(c') =>
      if m'.Some? {
        NestedKeepsOk(c', depth, MsgOf(m, n), r.body.data);
        PutOk(c, depth, m, n, VMsg(ParseNested(c', depth, MsgOf(m, n), r.body.data).value));
      }
    case PackedInts =>
      if m'.Some? {
        var xs := (if r.body.Len? then TakeInts(r.body.data) else Some([ToInt32(r.body.v)])).value;
        StoreOk(c, depth, m, n, VInts(IntsOf(m, n) + xs));
      }
    case PackedDoubles =>
      if m'.Some? {
        var xs := (if r.body.Len? then TakeDoubles(r.body.data) else Some([r.body.bits])).value;
        StoreOk(c, depth, m, n, VDoubles(DoublesOf(m, n) + xs));
      }
    case Strings =>
      if m'.Some? { StoreOk(c, depth, m, n, VStrings(StringsOf(m, n) + [r.body.data])); }
    case Messages(c') =>
      if m'.Some? {
        NestedKeepsOk(c', depth, EMPTY, r.body.data);
        StoreOk(c, depth, m, n, VMsgs(MsgsOf(m, n) + [ParseNested(c', depth, EMPTY, r.body.data).value]));
      }
    case MapField(mv) =>
      if m'.Some? {
        ParsedEntryOk(mv, depth, r.body.data);
        var e := ParseNested(Entry(mv), depth, EMPTY, r.body.data).value;
        InsertOk(mv, depth, EntriesOf(m, n), EntryKey(e), EntryValue(mv, e));
        PutOk(c, depth, m, n, VMap(EntriesOf(m, n)[EntryKey(e) := EntryValue(mv, e)]));
      }
    case OneofDouble => StoreOneofOk(c, depth, m, n, VDouble(r.body.bits));
    case OneofBool => StoreOneofOk(c, depth, m, n, VBool(r.body.v != 0));
    case OneofMessage(c') =>
      if m'.Some? {
        NestedKeepsOk(c', depth, MsgOf(m, n), r.body.data);
        StoreOneofOk(c, depth, m, n, VMsg(ParseNested(c', depth, MsgOf(m, n), r.body.data).value));
      }
  }

  lemma InsertOk(mv: MapValue, depth: nat, es: map<Bytes, Val>, key: Bytes, v: Val)
    requires es == map[] || ValOk(MapField(mv), depth, VMap(es))
    requires depth > 0 && ValidUtf8(key) && EntryOk(mv, depth - 1, v)
    ensures ValOk(MapField(mv), depth, VMap(es[key := v]))
  {
    hide ValidUtf8, EntryOk;
    assert key in es[key := v];
  }

  lemma FieldIsOk(c: Cls, depth: nat, m: Msg, n: nat)
    requires Ok(c, depth, m)
    ensures n in m.fields ==> FieldOf(c, n).Some? && ValOk(FieldOf(c, n).value, depth, m.fields[n])
  {
  }

  lemma EmptyOk(c: Cls, depth: nat)
    ensures Ok(c, depth, EMPTY)
  {
  }

  lemma {:induction false} NestedKeepsOk(c: Cls, depth: nat, m: Msg, b: Bytes)
    requires depth > Rank(c) && (m == EMPTY || NestedOk(c, depth, m))
    ensures var m' := ParseNested(c, depth, m, b); m'.Some? ==> NestedOk(c, depth, m'.value)
    decreases Rank(c), 5, 0
  {
    hide Ok, ParseInto;
    EmptyOk(c, depth - 1);
    ParseKeepsOk(c, depth - 1, m, b);
  }

  /** A parsed map entry has a valid key and a value of the map's type, whatever the bytes left out. */
  lemma {:induction false} ParsedEntryOk(mv: MapValue, depth: nat, b: Bytes)
    requires depth > ValueRank(mv)
    ensures var e := ParseNested(Entry(mv), depth, EMPTY, b);
            e.Some? ==> ValidUtf8(EntryKey(e.value)) && EntryOk(mv, depth - 1, EntryValue(mv, e.value))
    decreases ValueRank(mv), 6, 0
  {
    hide FieldOf, ParseInto, Ok;
    NestedKeepsOk(Entry(mv), depth, EMPTY, b);
    var e := ParseNested(Entry(mv), depth, EMPTY, b);
    if e.Some? {
      EntryFields(mv);
      FieldIsOk(Entry(mv), depth - 1, e.value, 1);
      FieldIsOk(Entry(mv), depth - 1, e.value, 2);
      if mv.MessageValue? {
        EmptyOk(mv.c, depth - 2);
      }
    }
  }

  lemma {:induction false} RecordKeepsOk(c: Cls, depth: nat, m: Msg, r: Record)
    requires depth >= Rank(c) && Ok(c, depth, m) && Shallow(depth, r)
    ensures var m' := Apply(c, depth, m, r); m'.Some? ==> Ok(c, depth, m'.value)
    decreases Rank(c), 1, 0
  {
    hide Ok, ApplyField, FieldOf;
    if Recognises(c, r.num, WireType(r.body)) {
      FieldKeepsOk(c, FieldOf(c, r.num).value, depth, m, r);
    } else {
      AddUnknownOk(c, depth, m, r);
    }
  }

  lemma AddUnknownOk(c: Cls, depth: nat, m: Msg, r: Record)
    requires Ok(c, depth, m) && Shallow(depth, r) && !Recognises(c, r.num, WireType(r.body))
    ensures Ok(c, depth, AddUnknown(m, r))
  {
    hide FieldOf, ValOk, Recognises;
  }

  lemma {:induction false} RecordsKeepOk(c: Cls, depth: nat, m: Msg, rs: seq<Record>)
    requires depth >= Rank(c) && Ok(c, depth, m) && forall r | r in rs :: Shallow(depth, r)
    ensures var m' := ApplyAll(c, depth, m, rs); m'.Some? ==> Ok(c, depth, m'.value)
    decreases Rank(c), 2, |rs|
  {
    hide Ok, Apply, Shallow;
    if rs != [] {
      RecordKeepsOk(c, depth, m, rs[0]);
      var m' := Apply(c, depth, m, rs[0]);
      if m'.Some? {
        RecordsKeepOk(c, depth, m'.value, rs[1..]);
      }
    }
  }

  /** Parsing keeps a message well formed: known fields typed and never at a default, strings valid,
      one oneof member at most, and only unrecognised records in the unknown set. */
  lemma {:induction false} ParseKeepsOk(c: Cls, depth: nat, m: Msg, b: Bytes)
    requires depth >= Rank(c) && Ok(c, depth, m)
    ensures var m' := ParseInto(c, depth, m, b); m'.Some? ==> Ok(c, depth, m'.value)
    decreases Rank(c), 3, 0
  {
    hide Ok, ApplyAll, Tokenise, Shallow, Fits;
    var rs := Tokenise(depth, b);
    if rs.Some? {
      TokensFit(depth, b);
      forall r | r in rs.value ensures Shallow(depth, r) {
        FitsIsShallow(depth, r);
      }
      RecordsKeepOk(c, depth, m, rs.value);
    }
  }

  /** Normal form: what is parsed from any accepted bytes, however they were written, survives
      being written and parsed again. */
  lemma ReparseOfParsed(c: Cls, b: Bytes, ord: Order)
    requires Rank(c) <= MAX_DEPTH && Parse(c, b).Some?
    requires |Serialize(c, Parse(c, b).value, ord)| <= MAX_LEN
    ensures Ok(c, MAX_DEPTH, Parse(c, b).value)
    ensures Parse(c, Serialize(c, Parse(c, b).value, ord)) == Parse(c, b)
  {
    hide Ok, ParseInto, Serialize;
    EmptyOk(c, MAX_DEPTH);
    ParseKeepsOk(c, MAX_DEPTH, EMPTY, b);
    ParseUndoesSerialize(c, Parse(c, b).value, ord);
  }

  /** Exactly which messages come back when written and parsed: the well-formed ones.  A message with
      a string that is not UTF-8, say, is written but not accepted. */
  lemma RoundTripsIffOk(c: Cls, m: Msg, ord: Order)
    requires Rank(c) <= MAX_DEPTH && |Serialize(c, m, ord)| <= MAX_LEN
    ensures Parse(c, Serialize(c, m, ord)) == Some(m) <==> Ok(c, MAX_DEPTH, m)
  {
    hide Ok, ParseInto, Serialize;
    if Ok(c, MAX_DEPTH, m) {
      ParseUndoesSerialize(c, m, ord);
    }
    EmptyOk(c, MAX_DEPTH);
    ParseKeepsOk(c, MAX_DEPTH, EMPTY, Serialize(c, m, ord));
  }
}
