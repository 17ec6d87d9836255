/** The size pass and the serializer that trusts it.  `ByteSizeLong` computes sizes by formula and
    leaves them in the objects; `_InternalSerialize` writes every nested length prefix and every
    packed enum length from those caches, never from the bytes it is about to write. */
module SizeCache {
  import opened Wire
  import opened Schema
  import opened Codec
  import opened RoundTrip

  /** The cached sizes of one object and of the objects inside it. */
  datatype Cache = Cache(size: nat, fields: map<nat, FieldCache>)
  datatype FieldCache =
    | NoCache
    | PackedSize(n: nat)
    | One(c: Cache)
    | Many(cs: seq<Cache>)
    | Keyed(es: map<Bytes, Cache>)

  const FRESH := Cache(0, map[])

  // ---------------------------------------------------------------- sizes by formula

  function VarintSize(v: nat): nat {
    if v < 128 then 1 else 1 + VarintSize(v / 128)
  }

  /** VarintSize32SignExtended: a negative int32 takes ten bytes. */
  function IntSize(i: Int32): nat {
    if i < 0 then 10 else VarintSize(i)
  }

  /** Length prefix and payload. */
  function LenSize(n: nat): nat {
    VarintSize(n) + n
  }

  function IntsSize(xs: seq<Int32>): nat {
    if xs == [] then 0 else IntSize(xs[0]) + IntsSize(xs[1..])
  }

  function StringsSize(ss: seq<Bytes>): nat {
    if ss == [] then 0 else 1 + LenSize(|ss[0]|) + StringsSize(ss[1..])
  }

  function RecordSize(r: Record): nat
    decreases r, 1
  {
    VarintSize(r.num * 8) +
    match r.body
    case Varint(v) => VarintSize(v)
    case Fixed64(_) => 8
    case Len(data) => LenSize(|data|)
    case Group(fields) => RecordsSize(fields) + VarintSize(r.num * 8)
    case Fixed32(_) => 4
  }

  function RecordsSize(rs: seq<Record>): nat
    decreases rs, 0
  {
    if rs == [] then 0 else RecordSize(rs[0]) + RecordsSize(rs[1..])
  }

  /** Size of a field's value, tags included.  Every known field number fits a one-byte tag. */
  ghost function ValSize(k: Kind, v: Val): nat
    decreases KindRank(k), 1, 0
  {
    match (k, v)
    case (IntField, VInt(i)) => 1 + IntSize(i)
    case (BoolField, VBool(_)) => 2
    case (OneofBool, VBool(_)) => 2
    case (DoubleField, VDouble(_)) => 9
    case (OneofDouble, VDouble(_)) => 9
    case (StringField, VString(s)) => 1 + LenSize(|s|)
    case (MessageField(c), VMsg(x)) => 1 + LenSize(Size(c, x))
    case (OneofMessage(c), VMsg(x)) => 1 + LenSize(Size(c, x))
    case (PackedInts, VInts(xs)) => if xs == [] then 0 else 1 + LenSize(IntsSize(xs))
    case (PackedDoubles, VDoubles(xs)) => if xs == [] then 0 else 1 + LenSize(8 * |xs|)
    case (Strings, VStrings(ss)) => StringsSize(ss)
    case (Messages(c), VMsgs(ms)) => MsgsSize(c, ms)
    case (MapField(mv), VMap(es)) => EntriesSize(mv, es)
    case _ => 0
  }

  ghost function MsgsSize(c: Cls, ms: seq<Msg>): nat
    decreases Rank(c) + 1, 0, |ms|
  {
    if ms == [] then 0 else 1 + LenSize(Size(c, ms[0])) + MsgsSize(c, ms[1..])
  }

  ghost function EntrySize(mv: MapValue, key: Bytes, v: Val): nat
    decreases ValueRank(mv), 2, 0
  {
    1 + LenSize(|key|) + ValSize(ValueKind(mv), v)
  }

  /** Sum over the entries of a map, in no particular order. */
  ghost function EntriesSize(mv: MapValue, es: map<Bytes, Val>): nat
    decreases ValueRank(mv) + 1, 0, |es|
  {
    if es == map[] then 0
    else
      var key :| key in es;
      1 + LenSize(EntrySize(mv, key, es[key])) + EntriesSize(mv, es - {key})
  }

  ghost function SizeFrom(c: Cls, n: nat, m: Msg): nat
    decreases Rank(c), 3, LAST + 1 - n
  {
    if n > LAST then RecordsSize(m.unknown)
    else
      var k := FieldOf(c, n);
      (if k.Some? && n in m.fields then ValSize(k.value, m.fields[n]) else 0) + SizeFrom(c, n + 1, m)
  }

  /** ByteSizeLong. */
  ghost function Size(c: Cls, m: Msg): nat
    decreases Rank(c), 4, 0
  {
    SizeFrom(c, 1, m)
  }

  // ---------------------------------------------------------------- what the size pass leaves behind

  ghost function FieldCacheOf(k: Kind, v: Val): FieldCache
    decreases KindRank(k), 1
  {
    match (k, v)
    case (MessageField(c), VMsg(x)) => One(CacheOf(c, x))
    case (OneofMessage(c), VMsg(x)) => One(CacheOf(c, x))
    case (PackedInts, VInts(xs)) => PackedSize(IntsSize(xs))
    case (Messages(c), VMsgs(ms)) => Many(seq(|ms|, i requires 0 <= i < |ms| => CacheOf(c, ms[i])))
    case (MapField(MessageValue(c)), VMap(es)) =>
      Keyed(map key | key in es && es[key].VMsg? :: CacheOf(c, es[key].m))
    case _ => NoCache
  }

  ghost function CacheOf(c: Cls, m: Msg): Cache
    decreases Rank(c), 4
  {
    Cache(Size(c, m), map n | n in m.fields && FieldOf(c, n).Some? :: FieldCacheOf(FieldOf(c, n).value, m.fields[n]))
  }

  // ---------------------------------------------------------------- writing from the caches

  function OneIn(fc: FieldCache): Cache {
    if fc.One? then fc.c else FRESH
  }

  function ItemIn(fc: FieldCache, i: nat): Cache {
    if fc.Many? && i < |fc.cs| then fc.cs[i] else FRESH
  }

  function EntryIn(fc: FieldCache, key: Bytes): Cache {
    if fc.Keyed? && key in fc.es then fc.es[key] else FRESH
  }

  /** InternalWriteMessage: tag, cached size, body. */
  function WriteMessage(c: Cls, n: FieldNum, x: Msg, cache: Cache, path: seq<nat>, ord: Order): Bytes
    decreases Rank(c), 5, 0
  {
    PutTag(n, 2) + EncodeVarint(cache.size) + Write(c, x, cache, path, ord)
  }

  function WriteVal(k: Kind, n: FieldNum, v: Val, fc: FieldCache, path: seq<nat>, ord: Order): Bytes
    decreases KindRank(k), 1, 0
  {
    match (k, v)
    case (MessageField(c), VMsg(x)) => WriteMessage(c, n, x, OneIn(fc), path, ord)
    case (OneofMessage(c), VMsg(x)) => WriteMessage(c, n, x, OneIn(fc), path, ord)
    case (PackedInts, VInts(xs)) =>
      var size := if fc.PackedSize? then fc.n else 0;
      if size > 0 then PutTag(n, 2) + EncodeVarint(size) + PutInts(xs) else []
    case (Messages(c), VMsgs(ms)) => WriteMsgs(c, n, ms, 0, fc, path, ord)
    case (MapField(mv), VMap(es)) => WriteEntries(mv, n, es, ord(path, es), fc, path, ord)
    case _ => PutRecords(ValRecords(k, n, v, path, ord))
  }

  function WriteMsgs(c: Cls, n: FieldNum, ms: seq<Msg>, i: nat, fc: FieldCache, path: seq<nat>, ord: Order): Bytes
    requires i <= |ms|
    decreases Rank(c) + 1, 0, |ms| - i
  {
    if i == |ms| then []
    else WriteMessage(c, n, ms[i], ItemIn(fc, i), path + [|ms| - i], ord) + WriteMsgs(c, n, ms, i + 1, fc, path, ord)
  }

  /** The prefix of an entry adds the cached size of its value to that of its key. */
  function WriteEntry(mv: MapValue, n: FieldNum, key: Bytes, v: Val, cache: Cache, path: seq<nat>, ord: Order): Bytes
    decreases ValueRank(mv), 6, 0
  {
    if mv.MessageValue? && v.VMsg? then
      PutTag(n, 2) + EncodeVarint(1 + LenSize(|key|) + 1 + LenSize(cache.size))
      + (PutTag(1, 2) + PutLen(key)) + WriteMessage(mv.c, 2, v.m, cache, path, ord)
    else PutRecord(Record(n, Len(EntryBytes(mv, key, v, path, ord))))
  }

  function WriteEntries(mv: MapValue, n: FieldNum, es: map<Bytes, Val>, keys: seq<Bytes>, fc: FieldCache,
                        path: seq<nat>, ord: Order): Bytes
    requires forall k | k in keys :: k in es
    decreases ValueRank(mv) + 1, 0, |keys|
  {
    if keys == [] then []
    else WriteEntry(mv, n, keys[0], es[keys[0]], EntryIn(fc, keys[0]), path + [|keys|], ord)
         + WriteEntries(mv, n, es, keys[1..], fc, path, ord)
  }

  function WriteField(c: Cls, n: FieldNum, m: Msg, cache: Cache, path: seq<nat>, ord: Order): Bytes
    decreases Rank(c), 2, 0
  {
    var k := FieldOf(c, n);
    var fc := if n in cache.fields then cache.fields[n] else NoCache;
    if k.Some? && n in m.fields then WriteVal(k.value, n, m.fields[n], fc, path + [n], ord) else []
  }

  function WriteFrom(c: Cls, n: FieldNum, m: Msg, cache: Cache, path: seq<nat>, ord: Order): Bytes
    decreases Rank(c), 3, LAST + 1 - n
  {
    if n > LAST then PutRecords(m.unknown)
    else WriteField(c, n, m, cache, path, ord) + WriteFrom(c, n + 1, m, cache, path, ord)
  }

  /** _InternalSerialize. */
  function Write(c: Cls, m: Msg, cache: Cache, path: seq<nat>, ord: Order): Bytes
    decreases Rank(c), 4, 0
  {
    WriteFrom(c, 1, m, cache, path, ord)
  }

  // ---------------------------------------------------------------- formulas are lengths

  lemma {:induction false} VarintSizeIsLength(v: nat)
    ensures VarintSize(v) == |EncodeVarint(v)|
  {
    if v >= 128 { VarintSizeIsLength(v / 128); }
  }

  lemma {:induction false} TagSizeIsLength(num: FieldNum, wireType: nat)
    requires wireType < 8
    ensures |PutTag(num, wireType)| == VarintSize(num * 8)
    ensures num < 16 ==> |PutTag(num, wireType)| == 1
  {
    VarintSizeIsLength(num * 8);
    if num >= 16 { SameVarintSize(num * 8, num * 8 + wireType); }
    VarintSizeIsLength(num * 8 + wireType);
  }

  lemma {:induction false} SameVarintSize(a: nat, b: nat)
    requires a % 8 == 0 && a <= b < a + 8
    ensures VarintSize(a) == VarintSize(b)
  {
  }

  lemma {:induction false} LongVarint(v: nat, k: nat)
    requires v >= Pow128(k)
    ensures |EncodeVarint(v)| > k
  {
    if k > 0 {
      assert v >= 128 by { PowPositive(k - 1); }
      LongVarint(v / 128, k - 1);
    }
  }

  lemma {:induction false} PowPositive(k: nat)
    ensures Pow128(k) >= 1
  {
    if k > 0 { PowPositive(k - 1); }
  }

  lemma {:induction false} IntSizeIsLength(i: Int32)
    ensures IntSize(i) == |EncodeVarint(SignExtend(i))|
  {
    VarintSizeIsLength(SignExtend(i));
    if i < 0 {
      assert Pow128(4) == 0x1000_0000;
      assert Pow128(9) == 0x1000_0000 * 0x8_0000_0000 by { assert Pow128(5) == 0x8_0000_0000; }
      LongVarint(SignExtend(i), 9);
      TakeEncodedU64(SignExtend(i), []);
    }
  }

  lemma {:induction false} IntsSizeIsLength(xs: seq<Int32>)
    ensures IntsSize(xs) == |PutInts(xs)|
  {
    if xs != [] {
      IntSizeIsLength(xs[0]);
      IntsSizeIsLength(xs[1..]);
    }
  }

  lemma LenSizeIsLength(data: Bytes)
    ensures LenSize(|data|) == |PutLen(data)|
  {
    VarintSizeIsLength(|data|);
  }

  lemma {:induction false} RecordSizeIsLength(r: Record)
    ensures RecordSize(r) == |PutRecord(r)|
    decreases r, 1
  {
    TagSizeIsLength(r.num, WireType(r.body));
    match r.body
    case Varint(v) => VarintSizeIsLength(v);
    case Len(data) => LenSizeIsLength(data);
    case Group(fields) =>
      RecordsSizeIsLength(fields);
      TagSizeIsLength(r.num, 4);
    case _ =>
  }

  lemma {:induction false} RecordsSizeIsLength(rs: seq<Record>)
    ensures RecordsSize(rs) == |PutRecords(rs)|
    decreases rs, 0
  {
    if rs != [] {
      RecordSizeIsLength(rs[0]);
      RecordsSizeIsLength(rs[1..]);
    }
  }

  /** A known field's length-delimited record. */
  lemma LenRecordSize(n: FieldNum, data: Bytes)
    requires n < 16
    ensures |PutRecord(Record(n, Len(data)))| == 1 + LenSize(|data|)
  {
    TagSizeIsLength(n, 2);
    LenSizeIsLength(data);
  }

  lemma PutOneRecord(r: Record)
    ensures PutRecords([r]) == PutRecord(r)
  {
    assert [r][1..] == [];
    assert PutRecord(r) + [] == PutRecord(r);
  }

  lemma {:induction false} StringsSizeIsLength(n: FieldNum, ss: seq<Bytes>)
    requires n < 16
    ensures |PutRecords(StringRecords(n, ss))| == StringsSize(ss)
  {
    if ss != [] {
      LenRecordSize(n, ss[0]);
      StringsSizeIsLength(n, ss[1..]);
      assert StringRecords(n, ss)[1..] == StringRecords(n, ss[1..]);
    }
  }

  lemma {:induction false} MsgsSizeIsLength(c: Cls, n: FieldNum, ms: seq<Msg>, path: seq<nat>, ord: Order)
    requires n < 16
    ensures |PutRecords(MsgRecords(c, n, ms, path, ord))| == MsgsSize(c, ms)
    decreases Rank(c) + 1, 0, |ms|
  {
    hide Size, SerializeAt, LenSize, EncodeVarint;
    if ms != [] {
      SizeIsLength(c, ms[0], path + [|ms|], ord);
      LenRecordSize(n, SerializeAt(c, ms[0], path + [|ms|], ord));
      MsgsSizeIsLength(c, n, ms[1..], path, ord);
      assert MsgRecords(c, n, ms, path, ord)[1..] == MsgRecords(c, n, ms[1..], path, ord);
    }
  }

  /** The sum over a map may start with any key. */
  lemma {:induction false} AnyKeyFirst(mv: MapValue, es: map<Bytes, Val>, key: Bytes)
    requires key in es
    ensures EntriesSize(mv, es) == 1 + LenSize(EntrySize(mv, key, es[key])) + EntriesSize(mv, es - {key})
    decreases |es|
  {
    hide EntrySize, LenSize;
    var first :| first in es
      && EntriesSize(mv, es) == 1 + LenSize(EntrySize(mv, first, es[first])) + EntriesSize(mv, es - {first});
    if first != key {
      AnyKeyFirst(mv, es - {first}, key);
      AnyKeyFirst(mv, es - {key}, first);
      assert (es - {first}) - {key} == (es - {key}) - {first};
    }
  }

  lemma {:induction false} EntrySizeIsLength(mv: MapValue, key: Bytes, v: Val, path: seq<nat>, ord: Order)
    ensures |EntryBytes(mv, key, v, path, ord)| == EntrySize(mv, key, v)
    decreases ValueRank(mv), 3, 0
  {
    var r, vs := Record(1, Len(key)), ValRecords(ValueKind(mv), 2, v, path, ord);
    LenRecordSize(1, key);
    PutOneRecord(r);
    PutRecordsConcat([r], vs);
    ValSizeIsLength(ValueKind(mv), 2, v, path, ord);
  }

  lemma {:induction false} EntriesSizeIsLength(mv: MapValue, n: FieldNum, es: map<Bytes, Val>, keys: seq<Bytes>,
                                               path: seq<nat>, ord: Order)
    requires n < 16 && (forall k | k in keys :: k in es) && IsListing(keys, Chosen(es, keys).Keys)
    ensures |PutRecords(EntryRecords(mv, n, es, keys, path, ord))| == EntriesSize(mv, Chosen(es, keys))
    decreases ValueRank(mv) + 1, 0, |keys|
  {
    hide EntrySize, LenSize;
    if keys != [] {
      var k := keys[0];
      EntrySizeIsLength(mv, k, es[k], path + [|keys|], ord);
      LenRecordSize(n, EntryBytes(mv, k, es[k], path + [|keys|], ord));
      assert Chosen(es, keys[1..]) == Chosen(es, keys) - {k};
      EntriesSizeIsLength(mv, n, es, keys[1..], path, ord);
      AnyKeyFirst(mv, Chosen(es, keys), k);
      assert EntryRecords(mv, n, es, keys, path, ord)[1..] == EntryRecords(mv, n, es, keys[1..], path, ord);
    }
  }

  lemma {:induction false} ValSizeIsLength(k: Kind, n: FieldNum, v: Val, path: seq<nat>, ord: Order)
    requires n < 16
    ensures |PutRecords(ValRecords(k, n, v, path, ord))| == ValSize(k, v)
    decreases KindRank(k), 1, 0
  {
    hide FieldOf, EntriesSize, MsgsSize, Size, SerializeAt, LenSize;
    var rs := ValRecords(k, n, v, path, ord);
    if |rs| == 1 {
      assert rs == [rs[0]];
      PutOneRecord(rs[0]);
      TagSizeIsLength(n, WireType(rs[0].body));
    }
    match (k, v)
    case (IntField, VInt(i)) => IntSizeIsLength(i);
    case (StringField, VString(s)) => LenSizeIsLength(s);
    case (MessageField(c), VMsg(x)) =>
      SizeIsLength(c, x, path, ord);
      LenSizeIsLength(SerializeAt(c, x, path, ord));
    case (OneofMessage(c), VMsg(x)) =>
      SizeIsLength(c, x, path, ord);
      LenSizeIsLength(SerializeAt(c, x, path, ord));
    case (PackedInts, VInts(xs)) =>
      IntsSizeIsLength(xs);
      LenSizeIsLength(PutInts(xs));
    case (PackedDoubles, VDoubles(xs)) => LenSizeIsLength(PutDoubles(xs));
    case (Strings, VStrings(ss)) => StringsSizeIsLength(n, ss);
    case (Messages(c), VMsgs(ms)) => MsgsSizeIsLength(c, n, ms, path, ord);
    case (MapField(mv), VMap(es)) =>
      var keys := ord(path, es);
      assert IsListing(keys, es.Keys);
      assert Chosen(es, keys) == es;
      EntriesSizeIsLength(mv, n, es, keys, path, ord);
    case _ =>
  }

  lemma {:induction false} FieldSizeIsLength(c: Cls, n: FieldNum, m: Msg, path: seq<nat>, ord: Order)
    requires n <= LAST
    ensures |PutRecords(FieldRecords(c, n, m, path, ord))|
            == if FieldOf(c, n).Some? && n in m.fields then ValSize(FieldOf(c, n).value, m.fields[n]) else 0
    decreases Rank(c), 2, 0
  {
    hide FieldOf, ValSize, ValRecords, PutRecord;
    if FieldOf(c, n).Some? && n in m.fields {
      ValSizeIsLength(FieldOf(c, n).value, n, m.fields[n], path + [n], ord);
    }
  }

  lemma {:induction false} SizeFromIsLength(c: Cls, n: FieldNum, m: Msg, path: seq<nat>, ord: Order)
    ensures |PutRecords(RecordsFrom(c, n, m, path, ord))| == SizeFrom(c, n, m)
    decreases Rank(c), 3, LAST + 1 - n
  {
    hide FieldOf, FieldRecords, ValSize, RecordsSize, PutRecords;
    if n > LAST {
      RecordsSizeIsLength(m.unknown);
    } else {
      PutRecordsConcat(FieldRecords(c, n, m, path, ord), RecordsFrom(c, n + 1, m, path, ord));
      FieldSizeIsLength(c, n, m, path, ord);
      SizeFromIsLength(c, n + 1, m, path, ord);
    }
  }

  /** The size pass predicts the length of the output, for every iteration order of every map. */
  lemma {:induction false} SizeIsLength(c: Cls, m: Msg, path: seq<nat>, ord: Order)
    ensures |SerializeAt(c, m, path, ord)| == Size(c, m)
    decreases Rank(c), 4, 0
  {
    SizeFromIsLength(c, 1, m, path, ord);
  }

  // ---------------------------------------------------------------- cached prefixes are right

  lemma {:induction false} MessageFromCache(c: Cls, n: FieldNum, x: Msg, path: seq<nat>, ord: Order)
    ensures WriteMessage(c, n, x, CacheOf(c, x), path, ord) == PutRecord(Record(n, Len(SerializeAt(c, x, path, ord))))
    decreases Rank(c), 6, 0
  {
    hide Write, SerializeAt, FieldOf, FieldCacheOf, EncodeVarint, Size;
    SizeIsLength(c, x, path, ord);
    WriteFromCache(c, x, path, ord);
    assert CacheOf(c, x).size == |SerializeAt(c, x, path, ord)|;
    assert PutLen(SerializeAt(c, x, path, ord)) == EncodeVarint(CacheOf(c, x).size) + SerializeAt(c, x, path, ord);
  }

  lemma {:induction false} MsgsFromCache(c: Cls, n: FieldNum, ms: seq<Msg>, i: nat, path: seq<nat>, ord: Order)
    requires i <= |ms|
    ensures WriteMsgs(c, n, ms, i, FieldCacheOf(Messages(c), VMsgs(ms)), path, ord)
         == PutRecords(MsgRecords(c, n, ms[i..], path, ord))
    decreases Rank(c) + 1, 0, |ms| - i
  {
    hide WriteMessage, SerializeAt, CacheOf;
    var fc := FieldCacheOf(Messages(c), VMsgs(ms));
    if i < |ms| {
      assert ItemIn(fc, i) == CacheOf(c, ms[i]);
      MessageFromCache(c, n, ms[i], path + [|ms| - i], ord);
      MsgsFromCache(c, n, ms, i + 1, path, ord);
      assert ms[i..][1..] == ms[i + 1..];
      assert MsgRecords(c, n, ms[i..], path, ord)[1..] == MsgRecords(c, n, ms[i + 1..], path, ord);
    }
  }

  lemma MessageEntryBytes(c: Cls, key: Bytes, x: Msg, path: seq<nat>, ord: Order)
    ensures var w := Record(2, Len(SerializeAt(c, x, path, ord)));
            && EntryBytes(MessageValue(c), key, VMsg(x), path, ord) == PutTag(1, 2) + PutLen(key) + PutRecord(w)
            && |EntryBytes(MessageValue(c), key, VMsg(x), path, ord)| == 1 + LenSize(|key|) + 1 + LenSize(Size(c, x))
  {
    hide SerializeAt, Size, LenSize;
    var r, w := Record(1, Len(key)), Record(2, Len(SerializeAt(c, x, path, ord)));
    PutRecordsConcat([r], [w]);
    PutOneRecord(r);
    PutOneRecord(w);
    LenRecordSize(1, key);
    LenRecordSize(2, w.body.data);
    SizeIsLength(c, x, path, ord);
  }

  lemma {:induction false} EntryFromCache(mv: MapValue, n: FieldNum, key: Bytes, v: Val, path: seq<nat>, ord: Order)
    requires n < 16
    ensures WriteEntry(mv, n, key, v, if mv.MessageValue? && v.VMsg? then CacheOf(mv.c, v.m) else FRESH, path, ord)
         == PutRecord(Record(n, Len(EntryBytes(mv, key, v, path, ord))))
    decreases ValueRank(mv), 7, 0
  {
    hide WriteMessage, SerializeAt, CacheOf, LenSize, EntryBytes, EncodeVarint, Size;
    if mv.MessageValue? && v.VMsg? {
      MessageFromCache(mv.c, 2, v.m, path, ord);
      MessageEntryBytes(mv.c, key, v.m, path, ord);
      CachedSize(mv.c, v.m);
    }
  }

  lemma CachedSize(c: Cls, m: Msg)
    ensures CacheOf(c, m).size == Size(c, m)
  {
  }

  lemma {:induction false} EntriesFromCache(mv: MapValue, n: FieldNum, es: map<Bytes, Val>, keys: seq<Bytes>,
                                            path: seq<nat>, ord: Order)
    requires n < 16 && forall k | k in keys :: k in es
    ensures WriteEntries(mv, n, es, keys, FieldCacheOf(MapField(mv), VMap(es)), path, ord)
         == PutRecords(EntryRecords(mv, n, es, keys, path, ord))
    decreases ValueRank(mv) + 1, 0, |keys|
  {
    hide WriteEntry, EntryBytes, CacheOf;
    if keys != [] {
      var fc := FieldCacheOf(MapField(mv), VMap(es));
      EntryFromCache(mv, n, keys[0], es[keys[0]], path + [|keys|], ord);
      EntriesFromCache(mv, n, es, keys[1..], path, ord);
      assert EntryRecords(mv, n, es, keys, path, ord)[1..] == EntryRecords(mv, n, es, keys[1..], path, ord);
      assert EntryIn(fc, keys[0])
          == if mv.MessageValue? && es[keys[0]].VMsg? then CacheOf(mv.c, es[keys[0]].m) else FRESH;
    }
  }

  lemma {:induction false} ValFromCache(k: Kind, n: FieldNum, v: Val, path: seq<nat>, ord: Order)
    requires n < 16
    ensures WriteVal(k, n, v, FieldCacheOf(k, v), path, ord) == PutRecords(ValRecords(k, n, v, path, ord))
    decreases KindRank(k), 1, 0
  {
    hide WriteMessage, SerializeAt, WriteMsgs, WriteEntries, CacheOf;
    var rs := ValRecords(k, n, v, path, ord);
    if |rs| == 1 {
      assert rs == [rs[0]];
      PutOneRecord(rs[0]);
    }
    match (k, v)
    case (MessageField(c), VMsg(x)) => MessageFromCache(c, n, x, path, ord);
    case (OneofMessage(c), VMsg(x)) => MessageFromCache(c, n, x, path, ord);
    case (PackedInts, VInts(xs)) =>
      IntsSizeIsLength(xs);
      if xs != [] { IntSizeIsLength(xs[0]); }
    case (Messages(c), VMsgs(ms)) =>
      MsgsFromCache(c, n, ms, 0, path, ord);
      assert ms[0..] == ms;
    case (MapField(mv), VMap(es)) =>
      var keys := ord(path, es);
      assert IsListing(keys, es.Keys);
      EntriesFromCache(mv, n, es, keys, path, ord);
    case _ =>
  }

  lemma CachedField(c: Cls, m: Msg, n: nat)
    requires n in m.fields && FieldOf(c, n).Some?
    ensures n in CacheOf(c, m).fields && CacheOf(c, m).fields[n] == FieldCacheOf(FieldOf(c, n).value, m.fields[n])
  {
    hide FieldOf, FieldCacheOf;
  }

  lemma {:induction false} FieldsFromCache(c: Cls, n: FieldNum, m: Msg, path: seq<nat>, ord: Order)
    ensures WriteFrom(c, n, m, CacheOf(c, m), path, ord) == PutRecords(RecordsFrom(c, n, m, path, ord))
    decreases Rank(c), 3, LAST + 1 - n
  {
    hide FieldOf, WriteVal, FieldCacheOf, ValRecords, CacheOf, PutRecord;
    if n <= LAST {
      FieldsFromCache(c, n + 1, m, path, ord);
      PutRecordsConcat(FieldRecords(c, n, m, path, ord), RecordsFrom(c, n + 1, m, path, ord));
      var k := FieldOf(c, n);
      if k.Some? && n in m.fields {
        CachedField(c, m, n);
        ValFromCache(k.value, n, m.fields[n], path + [n], ord);
      }
    }
  }

  /** Right after the size pass, the serializer that trusts the caches writes exactly the message:
      every cached length prefix, at every depth, is the length of the bytes it announces. */
  lemma {:induction false} WriteFromCache(c: Cls, m: Msg, path: seq<nat>, ord: Order)
    ensures Write(c, m, CacheOf(c, m), path, ord) == SerializeAt(c, m, path, ord)
    ensures |Write(c, m, CacheOf(c, m), path, ord)| == CacheOf(c, m).size
    decreases Rank(c), 4, 0
  {
    hide FieldOf;
    FieldsFromCache(c, 1, m, path, ord);
    SizeIsLength(c, m, path, ord);
  }
}
