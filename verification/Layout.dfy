/** The bytes of a field, written out by hand: what the files *Bytes.dfy put messages together from. */
module Layout {
  import opened Wire
  import opened Schema
  import opened Codec

  /** A length-delimited value behind its tag. */
  function Delimited(tag: Byte, data: Bytes): Bytes {
    [tag] + EncodeVarint(|data|) + data
  }

  /** An enum, negative ones as 64-bit two's complement. */
  function Enum(tag: Byte, i: Int32): Bytes {
    [tag] + EncodeVarint(if i < 0 then i + 0x1_0000_0000_0000_0000 else i)
  }

  function EnumUnlessZero(tag: Byte, i: Int32): Bytes {
    if i == 0 then [] else Enum(tag, i)
  }

  function DoubleUnlessZero(tag: Byte, d: Double): Bytes {
    if d == [0, 0, 0, 0, 0, 0, 0, 0] then [] else [tag] + d
  }

  function Joined(pieces: seq<Bytes>): Bytes {
    if pieces == [] then [] else pieces[0] + Joined(pieces[1..])
  }

  /** A packed run of doubles; nothing where there are none. */
  function Doubles(tag: Byte, xs: seq<Double>): Bytes {
    if xs == [] then [] else Delimited(tag, Joined(xs))
  }

  function Varints(xs: seq<Int32>): Bytes {
    if xs == [] then []
    else
      var i: int := xs[0];
      EncodeVarint(if i < 0 then i + 0x1_0000_0000_0000_0000 else i) + Varints(xs[1..])
  }

  /** A packed run of enums. */
  function Enums(tag: Byte, xs: seq<Int32>): Bytes {
    if xs == [] then [] else Delimited(tag, Varints(xs))
  }

  /** Strings or messages of a repeated field, one by one. */
  function Each(tag: Byte, items: seq<Bytes>): Bytes {
    if items == [] then [] else Delimited(tag, items[0]) + Each(tag, items[1..])
  }

  /** The entries of a map, in the order of `keys`: the key behind tag 10, and the bytes of its value,
      which may depend on how many keys are left. */
  function Entries(tag: Byte, keys: seq<Bytes>, value: (Bytes, nat) -> Bytes): Bytes {
    if keys == [] then []
    else Delimited(tag, Delimited(10, keys[0]) + value(keys[0], |keys|)) + Entries(tag, keys[1..], value)
  }

  // ---------------------------------------------------------------- records as bytes

  lemma SmallTag(n: FieldNum, wireType: nat)
    requires n < 16 && wireType < 8
    ensures PutTag(n, wireType) == [n * 8 + wireType]
  {
  }

  lemma LenRecord(n: FieldNum, data: Bytes)
    requires n < 16
    ensures PutRecord(Record(n, Len(data))) == Delimited(n * 8 + 2, data)
  {
    SmallTag(n, 2);
  }

  lemma VarintRecord(n: FieldNum, i: Int32)
    requires n < 16
    ensures PutRecord(Record(n, Varint(SignExtend(i)))) == Enum(n * 8, i)
  {
    SmallTag(n, 0);
  }

  lemma OneRecord(r: Record)
    ensures PutRecords([r]) == PutRecord(r)
  {
    hide PutRecord;
    assert [r][1..] == [];
    assert PutRecord(r) + [] == PutRecord(r);
  }

  lemma {:induction false} JoinedDoubles(xs: seq<Double>)
    ensures PutDoubles(xs) == Joined(xs)
  {
    if xs != [] { JoinedDoubles(xs[1..]); }
  }

  lemma {:induction false} JoinedVarints(xs: seq<Int32>)
    ensures PutInts(xs) == Varints(xs)
  {
    hide EncodeVarint;
    if xs != [] { JoinedVarints(xs[1..]); }
  }

  lemma {:induction false} StringsBytes(n: FieldNum, ss: seq<Bytes>)
    requires n < 16
    ensures PutRecords(StringRecords(n, ss)) == Each(n * 8 + 2, ss)
  {
    hide Delimited, PutRecord;
    if ss != [] {
      var first := [Record(n, Len(ss[0]))];
      LenRecord(n, ss[0]);
      OneRecord(first[0]);
      StringsBytes(n, ss[1..]);
      PutRecordsConcat(first, StringRecords(n, ss[1..]));
    }
  }

  /** The messages are written as these bytes, wherever they stand. */
  ghost predicate AreWrittenAs(c: Cls, ms: seq<Msg>, ord: Order, items: seq<Bytes>) {
    |items| == |ms| && forall i, p | 0 <= i < |ms| :: SerializeAt(c, ms[i], p, ord) == items[i]
  }

  lemma {:induction false} MessagesBytes(c: Cls, n: FieldNum, ms: seq<Msg>, path: seq<nat>, ord: Order,
                                         items: seq<Bytes>)
    requires n < 16 && AreWrittenAs(c, ms, ord, items)
    ensures PutRecords(MsgRecords(c, n, ms, path, ord)) == Each(n * 8 + 2, items)
    decreases |ms|
  {
    hide Delimited, PutRecord, SerializeAt;
    if ms != [] {
      var first := [Record(n, Len(items[0]))];
      assert SerializeAt(c, ms[0], path + [|ms|], ord) == items[0];
      LenRecord(n, items[0]);
      OneRecord(first[0]);
      MessagesBytes(c, n, ms[1..], path, ord, items[1..]);
      PutRecordsConcat(first, MsgRecords(c, n, ms[1..], path, ord));
    }
  }

  /** The bytes of an entry's value, for each number of keys left. */
  ghost predicate ValuesAre(mv: MapValue, es: map<Bytes, Val>, path: seq<nat>, ord: Order,
                            value: (Bytes, nat) -> Bytes) {
    forall key, i: nat | key in es ::
      PutRecords(ValRecords(ValueKind(mv), 2, es[key], path + [i], ord)) == value(key, i)
  }

  lemma {:induction false} EntriesBytes(mv: MapValue, n: FieldNum, es: map<Bytes, Val>, keys: seq<Bytes>,
                                        path: seq<nat>, ord: Order, value: (Bytes, nat) -> Bytes)
    requires n < 16 && (forall k | k in keys :: k in es) && ValuesAre(mv, es, path, ord, value)
    ensures PutRecords(EntryRecords(mv, n, es, keys, path, ord)) == Entries(n * 8 + 2, keys, value)
    decreases |keys|
  {
    hide Delimited, PutRecord, ValRecords;
    if keys != [] {
      var key, rest := keys[0], ValRecords(ValueKind(mv), 2, es[keys[0]], path + [|keys|], ord);
      assert PutRecords(rest) == value(key, |keys|);
      PutRecordsConcat([Record(1, Len(key))], rest);
      LenRecord(1, key);
      OneRecord(Record(1, Len(key)));
      var entry := Delimited(10, key) + value(key, |keys|);
      assert EntryBytes(mv, key, es[key], path + [|keys|], ord) == entry;
      LenRecord(n, entry);
      OneRecord(Record(n, Len(entry)));
      EntriesBytes(mv, n, es, keys[1..], path, ord, value);
      PutRecordsConcat([Record(n, Len(entry))], EntryRecords(mv, n, es, keys[1..], path, ord));
    }
  }

  // ---------------------------------------------------------------- fields as bytes

  /** Field `n` holds `v`, where absent means the default. */
  predicate Holds(m: Msg, n: nat, v: Val) {
    if IsDefault(v) then n !in m.fields else n in m.fields && m.fields[n] == v
  }

  lemma Stored(m: Msg, n: nat, v: Val)
    ensures Holds(Store(m, n, v), n, v)
    ensures forall k, w | k != n :: Holds(Store(m, n, v), k, w) == Holds(m, k, w)
    ensures Store(m, n, v).fields.Keys <= m.fields.Keys + {n} && Store(m, n, v).unknown == m.unknown
  {
    hide IsDefault;
  }

  function FieldBytes(c: Cls, n: FieldNum, m: Msg, path: seq<nat>, ord: Order): Bytes {
    PutRecords(FieldRecords(c, n, m, path, ord))
  }

  function BytesFrom(c: Cls, n: FieldNum, m: Msg, path: seq<nat>, ord: Order): Bytes {
    PutRecords(RecordsFrom(c, n, m, path, ord))
  }

  lemma NextField(c: Cls, n: FieldNum, m: Msg, path: seq<nat>, ord: Order)
    requires n <= LAST
    ensures BytesFrom(c, n, m, path, ord) == FieldBytes(c, n, m, path, ord) + BytesFrom(c, n + 1, m, path, ord)
  {
    PutRecordsConcat(FieldRecords(c, n, m, path, ord), RecordsFrom(c, n + 1, m, path, ord));
  }

  lemma SkipField(c: Cls, n: FieldNum, m: Msg, path: seq<nat>, ord: Order)
    requires n <= LAST && n !in m.fields
    ensures BytesFrom(c, n, m, path, ord) == BytesFrom(c, n + 1, m, path, ord)
  {
    hide FieldOf;
    NextField(c, n, m, path, ord);
    assert FieldRecords(c, n, m, path, ord) == [];
  }

  lemma {:induction false} NothingAbove(c: Cls, n: FieldNum, m: Msg, path: seq<nat>, ord: Order)
    requires m.unknown == [] && forall k | k in m.fields :: k < n
    ensures BytesFrom(c, n, m, path, ord) == []
    decreases LAST + 1 - n
  {
    hide FieldOf;
    if n <= LAST {
      SkipField(c, n, m, path, ord);
      NothingAbove(c, n + 1, m, path, ord);
    }
  }

  /** A message with one field. */
  lemma {:induction false} OnlyField(c: Cls, i: FieldNum, n: FieldNum, m: Msg, path: seq<nat>, ord: Order)
    requires i <= n <= LAST && m.fields.Keys == {n} && m.unknown == []
    ensures BytesFrom(c, i, m, path, ord) == FieldBytes(c, n, m, path, ord)
    decreases n - i
  {
    hide FieldRecords, RecordsFrom;
    if i < n {
      SkipField(c, i, m, path, ord);
      OnlyField(c, i + 1, n, m, path, ord);
    } else {
      NextField(c, n, m, path, ord);
      NothingAbove(c, n + 1, m, path, ord);
    }
  }

  lemma Whole(c: Cls, m: Msg, path: seq<nat>, ord: Order)
    ensures SerializeAt(c, m, path, ord) == BytesFrom(c, 1, m, path, ord)
  {
  }

  lemma EmptyBytes(c: Cls, path: seq<nat>, ord: Order)
    ensures SerializeAt(c, EMPTY, path, ord) == []
  {
    NothingAbove(c, 1, EMPTY, path, ord);
  }

  lemma Held(c: Cls, k: Kind, n: FieldNum, m: Msg, v: Val, path: seq<nat>, ord: Order)
    requires FieldOf(c, n) == Some(k) && Holds(m, n, v)
    ensures FieldRecords(c, n, m, path, ord) == if IsDefault(v) then [] else ValRecords(k, n, v, path + [n], ord)
  {
    hide FieldOf, IsDefault, ValRecords;
  }

  lemma IntBytes(c: Cls, n: FieldNum, m: Msg, i: Int32, path: seq<nat>, ord: Order)
    requires n < 16 && FieldOf(c, n) == Some(IntField) && Holds(m, n, VInt(i))
    ensures FieldBytes(c, n, m, path, ord) == EnumUnlessZero(n * 8, i)
  {
    hide FieldOf, PutRecord, Enum;
    Held(c, IntField, n, m, VInt(i), path, ord);
    VarintRecord(n, i);
    OneRecord(Record(n, Varint(SignExtend(i))));
  }

  lemma DoubleBytes(c: Cls, n: FieldNum, m: Msg, d: Double, path: seq<nat>, ord: Order)
    requires n < 15 && FieldOf(c, n) == Some(DoubleField) && Holds(m, n, VDouble(d))
    ensures FieldBytes(c, n, m, path, ord) == DoubleUnlessZero(n * 8 + 1, d)
  {
    hide FieldOf;
    Held(c, DoubleField, n, m, VDouble(d), path, ord);
    SmallTag(n, 1);
    OneRecord(Record(n, Fixed64(d)));
  }

  lemma OneDouble(c: Cls, d: Double, path: seq<nat>, ord: Order)
    requires FieldOf(c, 1) == Some(DoubleField)
    ensures SerializeAt(c, Store(EMPTY, 1, VDouble(d)), path, ord) == DoubleUnlessZero(9, d)
  {
    hide FieldOf, FieldBytes, SerializeAt, BytesFrom;
    var m := Store(EMPTY, 1, VDouble(d));
    Whole(c, m, path, ord);
    if d == ZERO {
      NothingAbove(c, 1, m, path, ord);
    } else {
      assert m.fields.Keys == {1};
      OnlyField(c, 1, 1, m, path, ord);
      DoubleBytes(c, 1, m, d, path, ord);
    }
  }

  lemma OnePacked(c: Cls, xs: seq<Double>, path: seq<nat>, ord: Order)
    requires FieldOf(c, 1) == Some(PackedDoubles)
    ensures SerializeAt(c, Store(EMPTY, 1, VDoubles(xs)), path, ord) == Doubles(10, xs)
  {
    hide FieldOf, FieldBytes, SerializeAt, BytesFrom, Delimited;
    var m := Store(EMPTY, 1, VDoubles(xs));
    Whole(c, m, path, ord);
    if xs == [] {
      NothingAbove(c, 1, m, path, ord);
    } else {
      assert m.fields.Keys == {1};
      OnlyField(c, 1, 1, m, path, ord);
      PackedBytes(c, 1, m, xs, path, ord);
    }
  }

  lemma OneList(c: Cls, xs: seq<Int32>, path: seq<nat>, ord: Order)
    requires FieldOf(c, 1) == Some(PackedInts)
    ensures SerializeAt(c, Store(EMPTY, 1, VInts(xs)), path, ord) == Enums(10, xs)
  {
    hide FieldOf, FieldBytes, SerializeAt, BytesFrom, Delimited;
    var m := Store(EMPTY, 1, VInts(xs));
    Whole(c, m, path, ord);
    if xs == [] {
      NothingAbove(c, 1, m, path, ord);
    } else {
      assert m.fields.Keys == {1};
      OnlyField(c, 1, 1, m, path, ord);
      PackedIntsBytes(c, 1, m, xs, path, ord);
    }
  }

  lemma SmallEnum(tag: Byte, i: Int32)
    requires 0 < i < 128
    ensures EnumUnlessZero(tag, i) == [tag, i]
  {
  }

  lemma StringBytes(c: Cls, n: FieldNum, m: Msg, s: Bytes, path: seq<nat>, ord: Order)
    requires n < 16 && FieldOf(c, n) == Some(StringField) && Holds(m, n, VString(s))
    ensures FieldBytes(c, n, m, path, ord) == if s == [] then [] else Delimited(n * 8 + 2, s)
  {
    hide FieldOf, PutRecord, Delimited;
    Held(c, StringField, n, m, VString(s), path, ord);
    LenRecord(n, s);
    OneRecord(Record(n, Len(s)));
  }

  lemma PackedBytes(c: Cls, n: FieldNum, m: Msg, xs: seq<Double>, path: seq<nat>, ord: Order)
    requires n < 16 && FieldOf(c, n) == Some(PackedDoubles) && Holds(m, n, VDoubles(xs))
    ensures FieldBytes(c, n, m, path, ord) == Doubles(n * 8 + 2, xs)
  {
    hide FieldOf, PutRecord, Delimited, PutDoubles;
    Held(c, PackedDoubles, n, m, VDoubles(xs), path, ord);
    JoinedDoubles(xs);
    LenRecord(n, PutDoubles(xs));
    OneRecord(Record(n, Len(PutDoubles(xs))));
  }

  lemma PackedIntsBytes(c: Cls, n: FieldNum, m: Msg, xs: seq<Int32>, path: seq<nat>, ord: Order)
    requires n < 16 && FieldOf(c, n) == Some(PackedInts) && Holds(m, n, VInts(xs))
    ensures FieldBytes(c, n, m, path, ord) == Enums(n * 8 + 2, xs)
  {
    hide FieldOf, PutRecord, Delimited, PutInts;
    Held(c, PackedInts, n, m, VInts(xs), path, ord);
    JoinedVarints(xs);
    LenRecord(n, PutInts(xs));
    OneRecord(Record(n, Len(PutInts(xs))));
  }

  lemma StringListBytes(c: Cls, n: FieldNum, m: Msg, ss: seq<Bytes>, path: seq<nat>, ord: Order)
    requires n < 16 && FieldOf(c, n) == Some(Strings) && Holds(m, n, VStrings(ss))
    ensures FieldBytes(c, n, m, path, ord) == Each(n * 8 + 2, ss)
  {
    hide FieldOf, PutRecord, Delimited;
    Held(c, Strings, n, m, VStrings(ss), path, ord);
    StringsBytes(n, ss);
  }

  lemma MessageListBytes(c: Cls, n: FieldNum, m: Msg, c': Cls, ms: seq<Msg>, path: seq<nat>, ord: Order,
                         items: seq<Bytes>)
    requires n < 16 && FieldOf(c, n) == Some(Messages(c')) && Holds(m, n, VMsgs(ms))
    requires AreWrittenAs(c', ms, ord, items)
    ensures FieldBytes(c, n, m, path, ord) == Each(n * 8 + 2, items)
  {
    hide FieldOf, PutRecord, Delimited, SerializeAt, AreWrittenAs;
    Held(c, Messages(c'), n, m, VMsgs(ms), path, ord);
    MessagesBytes(c', n, ms, path + [n], ord, items);
  }

  lemma OneMessageList(c: Cls, c': Cls, ms: seq<Msg>, path: seq<nat>, ord: Order, items: seq<Bytes>)
    requires FieldOf(c, 1) == Some(Messages(c')) && AreWrittenAs(c', ms, ord, items)
    ensures SerializeAt(c, Store(EMPTY, 1, VMsgs(ms)), path, ord) == Each(10, items)
  {
    hide FieldOf, FieldBytes, SerializeAt, BytesFrom, Delimited;
    var m := Store(EMPTY, 1, VMsgs(ms));
    Whole(c, m, path, ord);
    if ms == [] {
      NothingAbove(c, 1, m, path, ord);
    } else {
      assert m.fields.Keys == {1};
      OnlyField(c, 1, 1, m, path, ord);
      MessageListBytes(c, 1, m, c', ms, path, ord, items);
    }
  }

  lemma MessageBytes(c: Cls, k: Kind, n: FieldNum, m: Msg, x: Msg, path: seq<nat>, ord: Order)
    requires n < 16 && FieldOf(c, n) == Some(k) && (k.MessageField? || k.OneofMessage?) && Holds(m, n, VMsg(x))
    ensures FieldBytes(c, n, m, path, ord) == Delimited(n * 8 + 2, SerializeAt(k.c, x, path + [n], ord))
  {
    hide FieldOf, PutRecord, Delimited, SerializeAt;
    Held(c, k, n, m, VMsg(x), path, ord);
    LenRecord(n, SerializeAt(k.c, x, path + [n], ord));
    OneRecord(Record(n, Len(SerializeAt(k.c, x, path + [n], ord))));
  }

  lemma MapBytes(c: Cls, n: FieldNum, m: Msg, mv: MapValue, es: map<Bytes, Val>, path: seq<nat>, ord: Order,
                 value: (Bytes, nat) -> Bytes)
    requires n < 16 && FieldOf(c, n) == Some(MapField(mv)) && Holds(m, n, VMap(es))
    requires ValuesAre(mv, es, path + [n], ord, value)
    ensures FieldBytes(c, n, m, path, ord) == Entries(n * 8 + 2, ord(path + [n], es), value)
  {
    hide FieldOf, PutRecord, Delimited, ValRecords, ValuesAre;
    Held(c, MapField(mv), n, m, VMap(es), path, ord);
    var keys := ord(path + [n], es);
    assert IsListing(keys, es.Keys);
    if es == map[] {
      FirstListed(keys, es.Keys);
    } else {
      MapValRecords(n, mv, es, path + [n], ord);
      EntriesBytes(mv, n, es, keys, path + [n], ord, value);
    }
  }

  lemma FirstListed(keys: seq<Bytes>, s: set<Bytes>)
    requires IsListing(keys, s)
    ensures keys == [] || keys[0] in s
  {
  }

  lemma MapValRecords(n: FieldNum, mv: MapValue, es: map<Bytes, Val>, path: seq<nat>, ord: Order)
    ensures ValRecords(MapField(mv), n, VMap(es), path, ord) == EntryRecords(mv, n, es, ord(path, es), path, ord)
  {
  }
}
