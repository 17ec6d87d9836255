/** Parsing what the serializer wrote.  The one induction is `ParseSerialized`: written bytes,
    parsed on top of any message, merge the written message into it. */
module RoundTrip {
  import opened Wire
  import opened Utf8
  import opened Schema
  import opened Codec

  function Bind(c: Cls, depth: nat, m: Option<Msg>, rs: seq<Record>): Option<Msg> {
    if m.Some? then ApplyAll(c, depth, m.value, rs) else None
  }

  lemma {:induction false} ApplyAllConcat(c: Cls, depth: nat, m: Msg, a: seq<Record>, b: seq<Record>)
    ensures ApplyAll(c, depth, m, a + b) == Bind(c, depth, ApplyAll(c, depth, m, a), b)
    decreases |a|
  {
    if a == [] {
      assert a + b == b;
    } else {
      assert (a + b)[0] == a[0] && (a + b)[1..] == a[1..] + b;
      var m' := Apply(c, depth, m, a[0]);
      if m'.Some? {
        ApplyAllConcat(c, depth, m'.value, a[1..], b);
      }
    }
  }

  lemma ApplyOne(c: Cls, depth: nat, m: Msg, r: Record)
    ensures ApplyAll(c, depth, m, [r]) == Apply(c, depth, m, r)
  {
    assert [r][1..] == [];
  }

  lemma ApplyCons(c: Cls, depth: nat, m: Msg, rs: seq<Record>, m': Msg)
    requires rs != [] && Apply(c, depth, m, rs[0]) == Some(m')
    ensures ApplyAll(c, depth, m, rs) == ApplyAll(c, depth, m', rs[1..])
  {
  }

  lemma PutTwice(m: Msg, n: nat, v: Val, w: Val)
    ensures Put(Put(m, n, v), n, w) == Put(m, n, w)
  {
    assert m.fields[n := v][n := w] == m.fields[n := w];
  }

  lemma {:induction false} TakePutInts(xs: seq<Int32>)
    ensures TakeInts(PutInts(xs)) == Some(xs)
  {
    if xs != [] {
      TakeEncodedU64(SignExtend(xs[0]), PutInts(xs[1..]));
      SignExtendSurvives(xs[0]);
      TakePutInts(xs[1..]);
      assert xs == [xs[0]] + xs[1..];
    }
  }

  lemma {:induction false} TakePutDoubles(xs: seq<Double>)
    ensures TakeDoubles(PutDoubles(xs)) == Some(xs)
  {
    if xs != [] {
      var b := PutDoubles(xs);
      assert b[..8] == xs[0] && b[8..] == PutDoubles(xs[1..]);
      TakePutDoubles(xs[1..]);
      assert xs == [xs[0]] + xs[1..];
    }
  }

  // ---------------------------------------------------------------- everything written fits

  lemma {:induction false} NoGroups(k: Kind, n: FieldNum, v: Val, path: seq<nat>, ord: Order)
    ensures forall r | r in ValRecords(k, n, v, path, ord) :: r.num == n && Accepts(k, WireType(r.body))
  {
    match (k, v)
    case (Strings, VStrings(ss)) => NoGroupsInStrings(n, ss);
    case (Messages(c), VMsgs(ms)) => NoGroupsInMsgs(c, n, ms, path, ord);
    case (MapField(mv), VMap(es)) => NoGroupsInEntries(mv, n, es, ord(path, es), path, ord);
    case _ =>
  }

  lemma {:induction false} NoGroupsInStrings(n: FieldNum, ss: seq<Bytes>)
    ensures forall r | r in StringRecords(n, ss) :: r.num == n && r.body.Len?
  {
    if ss != [] { NoGroupsInStrings(n, ss[1..]); }
  }

  lemma {:induction false} NoGroupsInMsgs(c: Cls, n: FieldNum, ms: seq<Msg>, path: seq<nat>, ord: Order)
    ensures forall r | r in MsgRecords(c, n, ms, path, ord) :: r.num == n && r.body.Len?
    decreases |ms|
  {
    if ms != [] { NoGroupsInMsgs(c, n, ms[1..], path, ord); }
  }

  lemma {:induction false} NoGroupsInEntries(mv: MapValue, n: FieldNum, es: map<Bytes, Val>, keys: seq<Bytes>,
                                             path: seq<nat>, ord: Order)
    requires forall k | k in keys :: k in es
    ensures forall r | r in EntryRecords(mv, n, es, keys, path, ord) :: r.num == n && r.body.Len?
    decreases |keys|
  {
    if keys != [] { NoGroupsInEntries(mv, n, es, keys[1..], path, ord); }
  }

  lemma {:induction false} WrittenIsShallow(c: Cls, depth: nat, n: FieldNum, m: Msg, path: seq<nat>, ord: Order)
    requires Ok(c, depth, m)
    ensures forall r | r in RecordsFrom(c, n, m, path, ord) :: Shallow(depth, r)
    decreases LAST + 1 - n
  {
    hide FieldOf, ValOk, ValRecords;
    if n <= LAST {
      WrittenIsShallow(c, depth, n + 1, m, path, ord);
      var k := FieldOf(c, n);
      if k.Some? && n in m.fields {
        NoGroups(k.value, n, m.fields[n], path + [n], ord);
      }
    }
  }

  lemma ShortRecordsFit(depth: nat, rs: seq<Record>)
    requires forall r | r in rs :: Shallow(depth, r)
    requires |PutRecords(rs)| <= MAX_LEN
    ensures forall r | r in rs :: Fits(depth, r)
  {
    forall r | r in rs ensures Fits(depth, r) {
      PutRecordsBounds(rs, r);
      ShortFits(depth, r);
    }
  }

  /** Parsing written records is applying them. */
  lemma ParseRecords(c: Cls, depth: nat, m: Msg, rs: seq<Record>)
    requires forall r | r in rs :: Shallow(depth, r)
    requires |PutRecords(rs)| <= MAX_LEN
    ensures ParseInto(c, depth, m, PutRecords(rs)) == ApplyAll(c, depth, m, rs)
  {
    ShortRecordsFit(depth, rs);
    TokenisePut(depth, rs, []);
    assert PutRecords(rs) + [] == PutRecords(rs);
    assert rs + [] == rs;
  }

  // ---------------------------------------------------------------- written fields merge

  lemma {:induction false} StringsApply(c: Cls, depth: nat, n: FieldNum, acc: Msg, ss: seq<Bytes>)
    requires FieldOf(c, n) == Some(Strings) && forall s | s in ss :: ValidUtf8(s)
    ensures ApplyAll(c, depth, acc, StringRecords(n, ss))
            == Some(if ss == [] then acc else Put(acc, n, VStrings(StringsOf(acc, n) + ss)))
    decreases |ss|
  {
    hide FieldOf, ValidUtf8;
    if ss != [] {
      var acc' := Put(acc, n, VStrings(StringsOf(acc, n) + [ss[0]]));
      var rs := StringRecords(n, ss);
      ApplyCons(c, depth, acc, rs, acc');
      assert rs[1..] == StringRecords(n, ss[1..]);
      StringsApply(c, depth, n, acc', ss[1..]);
      assert StringsOf(acc', n) + ss[1..] == StringsOf(acc, n) + ss;
      assert |ss| == 1 ==> StringsOf(acc', n) == StringsOf(acc, n) + ss;
      PutTwice(acc, n, acc'.fields[n], VStrings(StringsOf(acc, n) + ss));
    }
  }

  lemma {:induction false} MsgApplies(c: Cls, depth: nat, n: FieldNum, acc: Msg, c': Cls, x: Msg, path: seq<nat>,
                                      ord: Order)
    requires FieldOf(c, n) == Some(Messages(c')) && NestedOk(c', depth, x)
    requires |SerializeAt(c', x, path, ord)| <= MAX_LEN
    ensures Apply(c, depth, acc, Record(n, Len(SerializeAt(c', x, path, ord))))
            == Some(Put(acc, n, VMsgs(MsgsOf(acc, n) + [x])))
    decreases Rank(c'), 6, 0
  {
    hide FieldOf, ParseInto, SerializeAt, Ok, Merge;
    ParseSerialized(c', depth - 1, EMPTY, x, path, ord);
    MergeIntoEmpty(c', depth - 1, x);
    var r := Record(n, Len(SerializeAt(c', x, path, ord)));
    assert Apply(c, depth, acc, r) == ApplyField(c, Messages(c'), depth, acc, r);
    assert ParseNested(c', depth, EMPTY, r.body.data) == Some(x);
  }

  lemma {:induction false} MsgsApply(c: Cls, depth: nat, n: FieldNum, acc: Msg, c': Cls, ms: seq<Msg>,
                                     path: seq<nat>, ord: Order)
    requires FieldOf(c, n) == Some(Messages(c')) && forall x | x in ms :: NestedOk(c', depth, x)
    requires |PutRecords(MsgRecords(c', n, ms, path, ord))| <= MAX_LEN
    ensures ApplyAll(c, depth, acc, MsgRecords(c', n, ms, path, ord))
            == Some(if ms == [] then acc else Put(acc, n, VMsgs(MsgsOf(acc, n) + ms)))
    decreases Rank(c') + 1, 0, |ms|
  {
    hide FieldOf, Apply, SerializeAt, NestedOk;
    if ms != [] {
      var rs := MsgRecords(c', n, ms, path, ord);
      PutRecordsBounds(rs, rs[0]);
      MsgApplies(c, depth, n, acc, c', ms[0], path + [|ms|], ord);
      var acc' := Put(acc, n, VMsgs(MsgsOf(acc, n) + [ms[0]]));
      ApplyCons(c, depth, acc, rs, acc');
      assert rs[1..] == MsgRecords(c', n, ms[1..], path, ord);
      PutRecordsConcat([rs[0]], rs[1..]);
      MsgsApply(c, depth, n, acc', c', ms[1..], path, ord);
      assert MsgsOf(acc', n) + ms[1..] == MsgsOf(acc, n) + ms;
      assert |ms| == 1 ==> MsgsOf(acc', n) == MsgsOf(acc, n) + ms;
      PutTwice(acc, n, acc'.fields[n], VMsgs(MsgsOf(acc, n) + ms));
    }
  }

  lemma EntryFields(mv: MapValue)
    ensures FieldOf(Entry(mv), 1) == Some(StringField)
    ensures FieldOf(Entry(mv), 2) == Some(ValueKind(mv))
  {
  }

  /** The two records of an entry, applied to an empty entry. */
  lemma {:induction false} EntryRecordsApply(mv: MapValue, depth: nat, key: Bytes, v: Val, path: seq<nat>, ord: Order)
    requires ValidUtf8(key) && EntryOk(mv, depth, v)
    requires |EntryBytes(mv, key, v, path, ord)| <= MAX_LEN
    ensures |ValRecords(ValueKind(mv), 2, v, path, ord)| == 1
    ensures var r := ValRecords(ValueKind(mv), 2, v, path, ord)[0];
            var e := Apply(Entry(mv), depth, Store(EMPTY, 1, VString(key)), r);
            e.Some? && EntryKey(e.value) == key && EntryValue(mv, e.value) == v
    decreases ValueRank(mv), 6, 0
  {
    hide FieldOf, ParseInto, ValidUtf8, SerializeAt, Merge, Ok;
    EntryFields(mv);
    var k, vs := ValueKind(mv), ValRecords(ValueKind(mv), 2, v, path, ord);
    var m1 := Store(EMPTY, 1, VString(key));
    match mv
    case IntValue => SignExtendSurvives(v.i);
    case BoolValue =>
    case MessageValue(c) =>
      var rs := [Record(1, Len(key))] + vs;
      PutRecordsBounds(rs, rs[1]);
      ParseSerialized(c, depth - 1, EMPTY, v.m, path, ord);
      MergeIntoEmpty(c, depth - 1, v.m);
      assert Apply(Entry(mv), depth, m1, vs[0]) == ApplyField(Entry(mv), k, depth, m1, vs[0]);
      assert ParseNested(c, depth, MsgOf(m1, 2), vs[0].body.data) == Some(v.m);
  }

  /** An entry comes back with its key and value, defaults included. */
  lemma {:induction false} EntryRoundTrip(mv: MapValue, depth: nat, key: Bytes, v: Val, path: seq<nat>, ord: Order)
    requires ValidUtf8(key) && EntryOk(mv, depth, v)
    requires |EntryBytes(mv, key, v, path, ord)| <= MAX_LEN
    ensures var e := ParseInto(Entry(mv), depth, EMPTY, EntryBytes(mv, key, v, path, ord));
            e.Some? && EntryKey(e.value) == key && EntryValue(mv, e.value) == v
    decreases ValueRank(mv), 7, 0
  {
    hide ParseInto, ValidUtf8, SerializeAt, Merge, EntryKey, EntryValue, EntryOk;
    var r1 := Record(1, Len(key));
    var vs := ValRecords(ValueKind(mv), 2, v, path, ord);
    EntryRecordsApply(mv, depth, key, v, path, ord);
    NoGroups(ValueKind(mv), 2, v, path, ord);
    ParseRecords(Entry(mv), depth, EMPTY, [r1] + vs);
    ApplyAllConcat(Entry(mv), depth, EMPTY, [r1], vs);
    ApplyOne(Entry(mv), depth, EMPTY, r1);
    assert vs == [vs[0]];
    ApplyOne(Entry(mv), depth, Store(EMPTY, 1, VString(key)), vs[0]);
  }

  function Chosen(es: map<Bytes, Val>, keys: seq<Bytes>): map<Bytes, Val>
    requires forall k | k in keys :: k in es
  {
    map k | k in keys :: es[k]
  }

  lemma {:induction false} EntryApplies(c: Cls, depth: nat, n: FieldNum, acc: Msg, mv: MapValue, key: Bytes, v: Val,
                                        path: seq<nat>, ord: Order)
    requires FieldOf(c, n) == Some(MapField(mv)) && depth > 0
    requires ValidUtf8(key) && EntryOk(mv, depth - 1, v) && |EntryBytes(mv, key, v, path, ord)| <= MAX_LEN
    ensures Apply(c, depth, acc, Record(n, Len(EntryBytes(mv, key, v, path, ord))))
            == Some(Put(acc, n, VMap(EntriesOf(acc, n)[key := v])))
    decreases ValueRank(mv), 8, 0
  {
    hide FieldOf, ParseInto, ValidUtf8, EntryOk, EntryBytes, EntryKey, EntryValue;
    EntryRoundTrip(mv, depth - 1, key, v, path, ord);
    var r := Record(n, Len(EntryBytes(mv, key, v, path, ord)));
    assert Apply(c, depth, acc, r) == ApplyField(c, MapField(mv), depth, acc, r);
  }

  lemma ChosenFirst(have: map<Bytes, Val>, es: map<Bytes, Val>, keys: seq<Bytes>)
    requires keys != [] && forall k | k in keys :: k in es
    ensures have[keys[0] := es[keys[0]]] + Chosen(es, keys[1..]) == have + Chosen(es, keys)
    ensures |keys| == 1 ==> have[keys[0] := es[keys[0]]] == have + Chosen(es, keys)
  {
  }

  lemma {:induction false} EntriesApply(c: Cls, depth: nat, n: FieldNum, acc: Msg, mv: MapValue, es: map<Bytes, Val>,
                                        keys: seq<Bytes>, path: seq<nat>, ord: Order)
    requires FieldOf(c, n) == Some(MapField(mv)) && depth > 0
    requires forall k | k in keys :: k in es && ValidUtf8(k) && EntryOk(mv, depth - 1, es[k])
    requires |PutRecords(EntryRecords(mv, n, es, keys, path, ord))| <= MAX_LEN
    ensures ApplyAll(c, depth, acc, EntryRecords(mv, n, es, keys, path, ord))
            == Some(if keys == [] then acc else Put(acc, n, VMap(EntriesOf(acc, n) + Chosen(es, keys))))
    decreases ValueRank(mv) + 1, 0, |keys|
  {
    hide FieldOf, Apply, ValidUtf8, EntryOk, EntryBytes, Chosen;
    if keys != [] {
      var rs := EntryRecords(mv, n, es, keys, path, ord);
      PutRecordsBounds(rs, rs[0]);
      EntryApplies(c, depth, n, acc, mv, keys[0], es[keys[0]], path + [|keys|], ord);
      var acc' := Put(acc, n, VMap(EntriesOf(acc, n)[keys[0] := es[keys[0]]]));
      ApplyCons(c, depth, acc, rs, acc');
      PutRecordsConcat([rs[0]], rs[1..]);
      assert rs[1..] == EntryRecords(mv, n, es, keys[1..], path, ord);
      EntriesApply(c, depth, n, acc', mv, es, keys[1..], path, ord);
      ChosenFirst(EntriesOf(acc, n), es, keys);
      PutTwice(acc, n, acc'.fields[n], VMap(EntriesOf(acc, n) + Chosen(es, keys)));
    }
  }

  lemma {:induction false} MessageApplies(c: Cls, k: Kind, depth: nat, n: FieldNum, acc: Msg, x: Msg, path: seq<nat>,
                                          ord: Order)
    requires FieldOf(c, n) == Some(k) && (k.MessageField? || k.OneofMessage?) && NestedOk(k.c, depth, x)
    requires |SerializeAt(k.c, x, path, ord)| <= MAX_LEN
    ensures Apply(c, depth, acc, Record(n, Len(SerializeAt(k.c, x, path, ord))))
            == Some(MergeVal(c, k, n, acc, VMsg(x)))
    decreases KindRank(k), 0, 0
  {
    hide FieldOf, ParseInto, ValidUtf8, SerializeAt, Ok, Merge, StoreOneof;
    ParseSerialized(k.c, depth - 1, MsgOf(acc, n), x, path, ord);
    var r := Record(n, Len(SerializeAt(k.c, x, path, ord)));
    assert Apply(c, depth, acc, r) == ApplyField(c, k, depth, acc, r);
    assert ParseNested(k.c, depth, MsgOf(acc, n), r.body.data) == Some(Merge(k.c, MsgOf(acc, n), x));
    match k
    case MessageField(_) =>
    case OneofMessage(_) =>
  }

  lemma PackedApplies(c: Cls, k: Kind, depth: nat, n: FieldNum, acc: Msg, v: Val)
    requires FieldOf(c, n) == Some(k) && ValOk(k, depth, v) && (k.PackedInts? || k.PackedDoubles?)
    ensures Apply(c, depth, acc, Record(n, Len(if k.PackedInts? then PutInts(v.ints) else PutDoubles(v.doubles))))
         == Some(MergeVal(c, k, n, acc, v))
  {
    hide FieldOf, TakeInts, TakeDoubles, PutInts, PutDoubles;
    if k.PackedInts? { TakePutInts(v.ints); } else { TakePutDoubles(v.doubles); }
  }

  lemma {:induction false} ValApply(c: Cls, k: Kind, depth: nat, n: FieldNum, acc: Msg, v: Val, path: seq<nat>,
                                    ord: Order)
    requires FieldOf(c, n) == Some(k) && ValOk(k, depth, v)
    requires |PutRecords(ValRecords(k, n, v, path, ord))| <= MAX_LEN
    ensures ApplyAll(c, depth, acc, ValRecords(k, n, v, path, ord)) == Some(MergeVal(c, k, n, acc, v))
    decreases KindRank(k), 1, 0
  {
    hide FieldOf, ParseInto, ValidUtf8, SerializeAt, Ok, Merge, StoreOneof, ApplyAll, TakeInts, TakeDoubles, PutInts;
    var rs := ValRecords(k, n, v, path, ord);
    if |rs| == 1 {
      assert rs == [rs[0]];
      ApplyOne(c, depth, acc, rs[0]);
      PutRecordsBounds(rs, rs[0]);
    }
    match k
    case Strings => StringsApply(c, depth, n, acc, v.strings);
    case Messages(c') => MsgsApply(c, depth, n, acc, c', v.msgs, path, ord);
    case MapField(mv) =>
      var keys := ord(path, v.entries);
      assert IsListing(keys, v.entries.Keys);
      assert keys != [] by { var key :| key in v.entries; }
      EntriesApply(c, depth, n, acc, mv, v.entries, keys, path, ord);
      assert Chosen(v.entries, keys) == v.entries;
    case MessageField(_) => MessageApplies(c, k, depth, n, acc, v.m, path, ord);
    case OneofMessage(_) => MessageApplies(c, k, depth, n, acc, v.m, path, ord);
    case PackedInts => PackedApplies(c, k, depth, n, acc, v);
    case PackedDoubles => PackedApplies(c, k, depth, n, acc, v);
    case IntField => SignExtendSurvives(v.i);
    case _ =>
  }

  lemma {:induction false} FieldsApply(c: Cls, depth: nat, n: FieldNum, acc: Msg, y: Msg, path: seq<nat>, ord: Order)
    requires Ok(c, depth, y)
    requires |PutRecords(RecordsFrom(c, n, y, path, ord))| <= MAX_LEN
    ensures ApplyAll(c, depth, acc, RecordsFrom(c, n, y, path, ord)) == Some(MergeRest(c, n, acc, y))
    decreases Rank(c), 4, LAST + 1 - n
  {
    hide FieldOf, ValOk, ValRecords, MergeVal, PutRecords, Shallow;
    if n > LAST {
      UnknownApply(c, depth, acc, y.unknown);
    } else {
      var a, b := FieldRecords(c, n, y, path, ord), RecordsFrom(c, n + 1, y, path, ord);
      PutRecordsConcat(a, b);
      ApplyAllConcat(c, depth, acc, a, b);
      var k := FieldOf(c, n);
      if k.Some? && n in y.fields {
        ValApply(c, k.value, depth, n, acc, y.fields[n], path + [n], ord);
      }
      FieldsApply(c, depth, n + 1, MergeField(c, n, acc, y), y, path, ord);
    }
  }

  lemma {:induction false} UnknownApply(c: Cls, depth: nat, acc: Msg, rs: seq<Record>)
    requires forall r | r in rs :: !Recognises(c, r.num, WireType(r.body))
    ensures ApplyAll(c, depth, acc, rs) == Some(acc.(unknown := acc.unknown + rs))
    decreases |rs|
  {
    if rs == [] {
      assert acc.unknown + rs == acc.unknown;
    } else {
      UnknownApply(c, depth, AddUnknown(acc, rs[0]), rs[1..]);
      assert acc.unknown + [rs[0]] + rs[1..] == acc.unknown + rs;
    }
  }

  /** Bytes written for `y`, parsed on top of any message `x`, give the merge of `y` into `x`. */
  lemma {:induction false} ParseSerialized(c: Cls, depth: nat, x: Msg, y: Msg, path: seq<nat>, ord: Order)
    requires Ok(c, depth, y)
    requires |SerializeAt(c, y, path, ord)| <= MAX_LEN
    ensures ParseInto(c, depth, x, SerializeAt(c, y, path, ord)) == Some(Merge(c, x, y))
    decreases Rank(c), 5, 0
  {
    hide RecordsFrom, Ok, ApplyAll, MergeRest, Tokenise, PutRecords;
    WrittenIsShallow(c, depth, 1, y, path, ord);
    ParseRecords(c, depth, x, RecordsFrom(c, 1, y, path, ord));
    FieldsApply(c, depth, 1, x, y, path, ord);
  }

  // ---------------------------------------------------------------- merging into an empty message copies

  function Below(y: Msg, n: nat): Msg {
    Msg(map i | i in y.fields && i < n :: y.fields[i], [])
  }

  lemma BelowNext(y: Msg, n: nat)
    requires n in y.fields
    ensures Put(Below(y, n), n, y.fields[n]) == Below(y, n + 1)
  {
    assert Below(y, n).fields[n := y.fields[n]] == Below(y, n + 1).fields;
  }

  /** No other member of a oneof is set, so setting one clears nothing. */
  lemma OneofBelow(c: Cls, n: nat, y: Msg)
    requires Typed(c, y) && n in y.fields && IsOneof(FieldOf(c, n).value)
    ensures StoreOneof(c, Below(y, n), n, y.fields[n]) == Put(Below(y, n), n, y.fields[n])
  {
    hide FieldOf, TypedVal;
    assert n in OneofFields(c);
    assert Below(y, n).fields - OneofFields(c) == Below(y, n).fields;
  }

  lemma {:induction false} MergeValIntoAbsent(c: Cls, k: Kind, n: nat, acc: Msg, v: Val)
    requires TypedVal(k, v) && n !in acc.fields
    requires IsOneof(k) ==> StoreOneof(c, acc, n, v) == Put(acc, n, v)
    ensures MergeVal(c, k, n, acc, v) == Put(acc, n, v)
    decreases KindRank(k), 0, 0
  {
    hide FieldOf, Merge, OneofFields, StoreOneof, Typed, TypedEntry;
    match k
    case MessageField(c') => CopyByMerge(c', v.m);
    case OneofMessage(c') => CopyByMerge(c', v.m);
    case PackedInts => assert [] + v.ints == v.ints;
    case PackedDoubles => assert [] + v.doubles == v.doubles;
    case Strings => assert [] + v.strings == v.strings;
    case Messages(_) => assert [] + v.msgs == v.msgs;
    case MapField(_) => assert map[] + v.entries == v.entries;
    case _ =>
  }

  lemma {:induction false} MergeValIntoBelow(c: Cls, n: nat, y: Msg)
    requires Typed(c, y) && n in y.fields
    ensures MergeVal(c, FieldOf(c, n).value, n, Below(y, n), y.fields[n]) == Below(y, n + 1)
    decreases Rank(c), 1, 0
  {
    hide FieldOf, TypedVal, MergeVal, StoreOneof;
    BelowNext(y, n);
    if IsOneof(FieldOf(c, n).value) {
      OneofBelow(c, n, y);
    }
    MergeValIntoAbsent(c, FieldOf(c, n).value, n, Below(y, n), y.fields[n]);
  }

  lemma {:induction false} MergeRestFromBelow(c: Cls, n: nat, y: Msg)
    requires Typed(c, y) && n >= 1
    ensures MergeRest(c, n, Below(y, n), y) == y
    decreases Rank(c), 2, LAST + 1 - n
  {
    hide FieldOf, TypedVal, MergeVal;
    if n > LAST {
      assert Below(y, n).fields == y.fields;
      assert [] + y.unknown == y.unknown;
    } else {
      if n in y.fields {
        MergeValIntoBelow(c, n, y);
      } else {
        assert Below(y, n) == Below(y, n + 1);
      }
      MergeRestFromBelow(c, n + 1, y);
    }
  }

  /** Merging into an empty message copies; `CopyFrom` relies on it. */
  lemma {:induction false} CopyByMerge(c: Cls, y: Msg)
    requires Typed(c, y)
    ensures Merge(c, EMPTY, y) == y
    decreases Rank(c), 3, 0
  {
    hide FieldOf, TypedVal, MergeRest;
    assert Below(y, 1) == EMPTY by {
      assert 0 !in y.fields;
    }
    MergeRestFromBelow(c, 1, y);
  }

  lemma {:induction false} OkIsTyped(c: Cls, depth: nat, m: Msg)
    requires Ok(c, depth, m)
    ensures Typed(c, m)
    decreases Rank(c), 2, 0
  {
    hide FieldOf, ValOk, TypedVal, Recognises, Shallow;
    forall n | n in m.fields ensures TypedVal(FieldOf(c, n).value, m.fields[n]) {
      ValIsTyped(FieldOf(c, n).value, depth, m.fields[n]);
    }
  }

  lemma {:induction false} ValIsTyped(k: Kind, depth: nat, v: Val)
    requires ValOk(k, depth, v)
    ensures TypedVal(k, v)
    decreases KindRank(k), 1, 0
  {
    hide Ok, Typed, ValidUtf8;
    match k
    case MessageField(c) => OkIsTyped(c, depth - 1, v.m);
    case OneofMessage(c) => OkIsTyped(c, depth - 1, v.m);
    case Messages(c) =>
      forall x | x in v.msgs ensures Typed(c, x) {
        assert NestedOk(c, depth, x);
        OkIsTyped(c, depth - 1, x);
      }
    case MapField(mv) =>
      forall key | key in v.entries ensures TypedEntry(mv, v.entries[key]) {
        EntryIsTyped(mv, depth - 1, v.entries[key]);
      }
    case _ =>
  }

  lemma {:induction false} EntryIsTyped(mv: MapValue, depth: nat, v: Val)
    requires EntryOk(mv, depth, v)
    ensures TypedEntry(mv, v)
    decreases ValueRank(mv), 1, 0
  {
    hide Ok, Typed;
    if mv.MessageValue? {
      OkIsTyped(mv.c, depth - 1, v.m);
    }
  }

  lemma MergeIntoEmpty(c: Cls, depth: nat, y: Msg)
    requires Ok(c, depth, y)
    ensures Merge(c, EMPTY, y) == y
  {
    hide Ok, Merge, Typed;
    OkIsTyped(c, depth, y);
    CopyByMerge(c, y);
  }

  // ---------------------------------------------------------------- main results

  /** Full round trip, for every class and every iteration order of every nested map: an equal
      message comes back, with field presence, oneof case and unknown fields. */
  lemma ParseUndoesSerialize(c: Cls, m: Msg, ord: Order)
    requires Ok(c, MAX_DEPTH, m) && |Serialize(c, m, ord)| <= MAX_LEN
    ensures Parse(c, Serialize(c, m, ord)) == Some(m)
  {
    ParseSerialized(c, MAX_DEPTH, EMPTY, m, [], ord);
    MergeIntoEmpty(c, MAX_DEPTH, m);
  }

  /** What a written message tokenises to, and what applying that does. */
  lemma WrittenRecords(c: Cls, x: Msg, y: Msg, ord: Order, rest: Bytes)
    requires Ok(c, MAX_DEPTH, y) && |Serialize(c, y, ord)| <= MAX_LEN
    ensures var rs := RecordsFrom(c, 1, y, [], ord);
            && Tokenise(MAX_DEPTH, Serialize(c, y, ord) + rest) == PrependAll(rs, Tokenise(MAX_DEPTH, rest))
            && ApplyAll(c, MAX_DEPTH, x, rs) == Some(Merge(c, x, y))
  {
    hide Tokenise, RecordsFrom, Ok, ApplyAll, PutRecords, Shallow, Fits;
    var rs := RecordsFrom(c, 1, y, [], ord);
    WrittenIsShallow(c, MAX_DEPTH, 1, y, [], ord);
    ShortRecordsFit(MAX_DEPTH, rs);
    TokenisePut(MAX_DEPTH, rs, rest);
    FieldsApply(c, MAX_DEPTH, 1, x, y, [], ord);
  }

  /** Concatenation is merge. */
  lemma ParseOfConcatenationMerges(c: Cls, x: Msg, y: Msg, ord: Order, ord': Order)
    requires Ok(c, MAX_DEPTH, x) && Ok(c, MAX_DEPTH, y)
    requires |Serialize(c, x, ord)| <= MAX_LEN && |Serialize(c, y, ord')| <= MAX_LEN
    ensures Parse(c, Serialize(c, x, ord) + Serialize(c, y, ord')) == Some(Merge(c, x, y))
  {
    hide RecordsFrom, Ok, Apply, Serialize, Merge, TakeRecord;
    var rs, rs' := RecordsFrom(c, 1, x, [], ord), RecordsFrom(c, 1, y, [], ord');
    WrittenRecords(c, EMPTY, x, ord, Serialize(c, y, ord'));
    WrittenRecords(c, x, y, ord', []);
    assert Serialize(c, y, ord') + [] == Serialize(c, y, ord') && rs' + [] == rs';
    MergeIntoEmpty(c, MAX_DEPTH, x);
    ApplyAllConcat(c, MAX_DEPTH, EMPTY, rs, rs');
  }
}
