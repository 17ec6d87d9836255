/** The generated message class: an object whose parse loop, merge, size pass and serializer work in
    place, each proved against the specification functions of Codec and SizeCache. */
module MessageObject {
  import opened Wire
  import opened Utf8
  import opened Schema
  import opened Codec
  import opened RoundTrip
  import opened PartialParse
  import opened SizeCache

  // ---------------------------------------------------------------- parse loop

  /** The loop body, from its tag: what follows stops where the whole does. */
  lemma StopStep(c: Cls, depth: nat, m: Msg, b: Bytes)
    requires b != []
    ensures var t := TakeTag(b);
            var u := if t.Took? && t.value.num != 0 then TakeBody(depth, t.value, t.rest) else Bad;
            var m' := if u.Took? then Apply(c, depth, m, Record(t.value.num, u.value)) else None;
            StopAt(c, depth, m, b) == if m'.Some? then StopAt(c, depth, m'.value, u.rest) else Stop(m, b)
  {
    hide Apply, TakeBody, TakeTag;
  }

  /** ExpectTag: a one-byte tag recognised without decoding it. */
  lemma ExpectedTag(num: FieldNum, wireType: nat, b: Bytes)
    requires num <= LAST && wireType < 8 && b != [] && b[0] == num * 8 + wireType
    ensures TakeTag(b) == Took(Tag(num, wireType), b[1..])
  {
  }

  /** The caches of the fields numbered below `n`. */
  ghost function CachesBelow(c: Cls, m: Msg, n: nat): map<nat, FieldCache> {
    map i | i in m.fields && i < n && FieldOf(c, i).Some? :: FieldCacheOf(FieldOf(c, i).value, m.fields[i])
  }

  lemma NoCaches(c: Cls, m: Msg)
    ensures CachesBelow(c, m, 1) == map[]
  {
    hide FieldCacheOf;
  }

  lemma CachesNext(c: Cls, m: Msg, n: nat)
    ensures CachesBelow(c, m, n + 1)
         == if n in m.fields && FieldOf(c, n).Some?
            then CachesBelow(c, m, n)[n := FieldCacheOf(FieldOf(c, n).value, m.fields[n])]
            else CachesBelow(c, m, n)
  {
    hide FieldOf, FieldCacheOf;
  }

  lemma AllCaches(c: Cls, m: Msg)
    ensures CacheOf(c, m) == Cache(Size(c, m), CachesBelow(c, m, LAST + 1))
  {
    hide FieldOf, FieldCacheOf, Size;
  }

  lemma WrittenAfterSizing(c: Cls, m: Msg, ord: Order)
    ensures Size(c, m) == |Serialize(c, m, ord)|
    ensures Write(c, m, CacheOf(c, m), [], ord) == Serialize(c, m, ord)
  {
    WriteFromCache(c, m, [], ord);
    SizeIsLength(c, m, [], ord);
  }

  lemma Regroup(a: Bytes, b: Bytes, c: Bytes)
    ensures (a + b) + c == a + (b + c)
  {
  }

  /** `keys` are the entries still to be sized, each once. */
  ghost predicate Remaining(es: map<Bytes, Val>, keys: seq<Bytes>) {
    (forall k :: k in keys ==> k in es) && forall i, j :: 0 <= i < j < |keys| ==> keys[i] != keys[j]
  }

  /** `subs` holds the caches of the message values already sized. */
  ghost predicate Sized(c: Cls, es: map<Bytes, Val>, keys: seq<Bytes>, subs: map<Bytes, Cache>) {
    && (forall key :: key in subs <==> key in es && key !in keys && es[key].VMsg?)
    && forall key :: key in subs ==> subs[key] == CacheOf(c, es[key].m)
  }

  lemma SizeNext(mv: MapValue, es: map<Bytes, Val>, keys: seq<Bytes>)
    requires Remaining(es, keys) && keys != []
    ensures Remaining(es, keys[1..])
    ensures EntriesSize(mv, Chosen(es, keys))
         == 1 + LenSize(EntrySize(mv, keys[0], es[keys[0]])) + EntriesSize(mv, Chosen(es, keys[1..]))
  {
    hide EntrySize, LenSize, EntriesSize;
    AnyKeyFirst(mv, Chosen(es, keys), keys[0]);
    assert Chosen(es, keys) - {keys[0]} == Chosen(es, keys[1..]);
  }

  lemma CacheNext(c: Cls, es: map<Bytes, Val>, keys: seq<Bytes>, subs: map<Bytes, Cache>, sub: Cache)
    requires Remaining(es, keys) && keys != [] && Sized(c, es, keys, subs)
    requires es[keys[0]].VMsg? ==> sub == CacheOf(c, es[keys[0]].m)
    ensures Sized(c, es, keys[1..], if es[keys[0]].VMsg? then subs[keys[0] := sub] else subs)
  {
    hide CacheOf;
  }

  lemma AllListed(mv: MapValue, es: map<Bytes, Val>, keys: seq<Bytes>)
    requires IsListing(keys, es.Keys)
    ensures Remaining(es, keys) && Chosen(es, keys) == es && |keys| == |es|
    ensures mv.MessageValue? ==> Sized(mv.c, es, keys, map[])
  {
    KeyCount(keys, es.Keys);
  }

  lemma {:induction false} KeyCount(keys: seq<Bytes>, s: set<Bytes>)
    requires IsListing(keys, s)
    ensures |keys| == |s|
  {
    if keys == [] {
      assert forall k :: k !in s;
    } else {
      KeyCount(keys[1..], s - {keys[0]});
    }
  }

  lemma NothingLeft(mv: MapValue, es: map<Bytes, Val>, subs: map<Bytes, Cache>)
    requires mv.MessageValue? ==> Sized(mv.c, es, [], subs)
    ensures mv.MessageValue? ==> subs == map key | key in es && es[key].VMsg? :: CacheOf(mv.c, es[key].m)
    ensures EntriesSize(mv, Chosen(es, [])) == 0
  {
  }

  /** The kinds whose elements are parsed in an inner do-while loop. */
  predicate IsBatched(k: Kind) {
    k.Strings? || k.Messages? || k.MapField?
  }

  class MessageObject {
    const cls: Cls
    var value: Msg
    var cache: Cache

    constructor (cls: Cls, value: Msg)
      ensures this.cls == cls && this.value == value && this.cache == FRESH
    {
      this.cls, this.value, this.cache := cls, value, FRESH;
    }

    /** ParseMessage into the object held by field `n`, or into a new one. */
    method ParseSub(c: Cls, start: Msg, data: Bytes, depth: nat) returns (ok: bool, x: Msg)
      ensures ok == ParseNested(c, depth, start, data).Some?
      ensures ok ==> Some(x) == ParseNested(c, depth, start, data)
      decreases Rank(c), 4, 0
    {
      x := start;
      if depth == 0 { return false, x; }
      var sub := new MessageObject(c, start);
      var rest;
      ok, rest := sub.InternalParse(data, depth - 1);
      x := sub.value;
    }

    /** One `case` of the parse loop: reads the payload behind a recognised tag and stores it. */
    method ParseField(k: Kind, tag: Tag, ptr: Bytes, depth: nat) returns (ok: bool, rest: Bytes)
      requires FieldOf(cls, tag.num) == Some(k) && Accepts(k, tag.wireType)
      modifies this
      ensures var t := TakeBody(depth, tag, ptr);
              var m := if t.Took? then Apply(cls, depth, old(value), Record(tag.num, t.value)) else None;
              ok == m.Some? && (ok ==> rest == t.rest && value == m.value)
      ensures !ok && Travels(cls) ==> IntOf(value, 1) == IntOf(old(value), 1)
      ensures ok ==> |rest| < |ptr|
      decreases KindRank(k), 0, 0
    {
      var n := tag.num;
      rest := ptr;
      if tag.wireType == 0 {
        var t := TakeVarint(10, ptr);
        if t.Bad? { return false, ptr; }
        var v := t.value % 0x1_0000_0000_0000_0000;
        rest := t.rest;
        match k
        case IntField => value := Store(value, n, VInt(ToInt32(v)));
        case BoolField => value := Store(value, n, VBool(v != 0));
        case PackedInts => value := Store(value, n, VInts(IntsOf(value, n) + [ToInt32(v)]));
        case OneofBool => value := StoreOneof(cls, value, n, VBool(v != 0));
      } else if tag.wireType == 1 {
        var t := TakeFixed(8, ptr);
        if t.Bad? { return false, ptr; }
        rest := t.rest;
        match k
        case DoubleField => value := Store(value, n, VDouble(t.value));
        case PackedDoubles => value := Store(value, n, VDoubles(DoublesOf(value, n) + [t.value]));
        case OneofDouble => value := StoreOneof(cls, value, n, VDouble(t.value));
      } else {
        var t := TakeLen(ptr);
        if t.Bad? { return false, ptr; }
        var data := t.value;
        rest := t.rest;
        match k
        case StringField =>
          if !ValidUtf8(data) { return false, ptr; }
          value := Store(value, n, VString(data));
        case Strings =>
          if !ValidUtf8(data) { return false, ptr; }
          value := Store(value, n, VStrings(StringsOf(value, n) + [data]));
        case PackedInts =>
          var xs := TakeInts(data);
          if xs.None? { return false, ptr; }
          value := Store(value, n, VInts(IntsOf(value, n) + xs.value));
        case PackedDoubles =>
          var xs := TakeDoubles(data);
          if xs.None? { return false, ptr; }
          value := Store(value, n, VDoubles(DoublesOf(value, n) + xs.value));
        case MessageField(c) =>
          var good, x := ParseSub(c, MsgOf(value, n), data, depth);
          if !good { return false, ptr; }
          value := Put(value, n, VMsg(x));
        case Messages(c) =>
          var good, x := ParseSub(c, EMPTY, data, depth);
          if !good { return false, ptr; }
          value := Store(value, n, VMsgs(MsgsOf(value, n) + [x]));
        case MapField(mv) =>
          var good, e := ParseSub(Entry(mv), EMPTY, data, depth);
          if !good { return false, ptr; }
          value := Put(value, n, VMap(EntriesOf(value, n)[EntryKey(e) := EntryValue(mv, e)]));
        case OneofMessage(c) =>
          var good, x := ParseSub(c, MsgOf(value, n), data, depth);
          if !good { return false, ptr; }
          value := StoreOneof(cls, value, n, VMsg(x));
      }
      return true, rest;
    }

    /** _InternalParse.  The inner loop keeps parsing elements of one field while the next byte is
        that field's tag and the buffer at hand has more (`DataAvailable`, which may say no before the
        end); the result is that of reading one tag and value at a time.  `rest` is where it stopped: a
        failed parse has taken in every record before that. */
    method InternalParse(buffer: Bytes, depth: nat) returns (ok: bool, rest: Bytes)
      modifies this
      ensures ok == ParseInto(cls, depth, old(value), buffer).Some?
      ensures ok ==> Some(value) == ParseInto(cls, depth, old(value), buffer)
      ensures rest == StopAt(cls, depth, old(value), buffer).rest
      ensures !ok && Travels(cls) ==> IntOf(value, 1) == IntOf(StopAt(cls, depth, old(value), buffer).m, 1)
      decreases Rank(cls), 3, 0
    {
      AcceptedStopsAtEnd(cls, depth, value, buffer);
      var ptr := buffer;
      while ptr != []
        invariant StopAt(cls, depth, value, ptr) == StopAt(cls, depth, old(value), buffer)
        decreases |ptr|
      {
        rest := ptr;
        StopStep(cls, depth, value, ptr);
        var t := TakeTag(ptr);
        if t.Bad? || t.value.num == 0 { return false, rest; }
        var tag := t.value;
        ptr := t.rest;
        if Recognises(cls, tag.num, tag.wireType) {
          var k := FieldOf(cls, tag.num).value;
          var again := true;
          ghost var start := |rest|;
          while again
            invariant |ptr| < start
            invariant again ==>
                        rest != [] && StopAt(cls, depth, value, rest) == StopAt(cls, depth, old(value), buffer)
                        && TakeTag(rest) == Took(tag, ptr)
            invariant !again ==> StopAt(cls, depth, value, ptr) == StopAt(cls, depth, old(value), buffer)
            decreases again, |ptr|
          {
            StopStep(cls, depth, value, rest);
            var good;
            good, ptr := ParseField(k, tag, ptr, depth);
            if !good { return false, rest; }
            var more: bool := *;
            again := IsBatched(k) && more && ptr != [] && ptr[0] == tag.num * 8 + tag.wireType;
            if again {
              ExpectedTag(tag.num, tag.wireType, ptr);
              rest := ptr;
              ptr := ptr[1..];
            }
          }
        } else {
          var u := TakeBody(depth, tag, ptr);
          if u.Bad? { return false, rest; }
          value := AddUnknown(value, Record(tag.num, u.value));
          ptr := u.rest;
        }
      }
      return true, [];
    }

    /** ParseFromString.  `past` is what a read past the end makes of an int in field 1. */
    method ParseFromString(bytes: Bytes, past: Int32) returns (ok: bool)
      modifies this
      ensures ok == Parse(cls, bytes).Some?
      ensures ok ==> Some(value) == Parse(cls, bytes)
      ensures !ok && Travels(cls) ==> IntOf(value, 1) == TypeStopped(cls, bytes, past)
    {
      Clear();
      var rest;
      ok, rest := InternalParse(bytes, MAX_DEPTH);
      if !ok && OffTheEnd(rest) {
        value := Store(value, 1, VInt(past));
      }
    }

    // -------------------------------------------------------------- merge and copy

    method Clear()
      modifies this
      ensures value == EMPTY && cache == old(cache)
    {
      value := EMPTY;
    }

    method MergeFrom(from: MessageObject)
      requires from != this && from.cls == cls
      modifies this
      ensures value == Merge(cls, old(value), from.value) && cache == old(cache)
    {
      hide MergeField, FieldOf;
      var n := 1;
      while n <= LAST
        invariant 1 <= n <= LAST + 1
        invariant MergeRest(cls, n, value, from.value) == Merge(cls, old(value), from.value)
        invariant cache == old(cache)
      {
        value := MergeField(cls, n, value, from.value);
        n := n + 1;
      }
      value := value.(unknown := value.unknown + from.value.unknown);
    }

    /** A copy is equal to its original, also when an object is copied onto itself. */
    method CopyFrom(from: MessageObject)
      requires from.cls == cls && Typed(cls, from.value)
      modifies this
      ensures value == old(from.value)
    {
      if from == this { return; }
      Clear();
      MergeFrom(from);
      CopyByMerge(cls, from.value);
    }

    // -------------------------------------------------------------- size pass

    method SizeOfSub(c: Cls, x: Msg, path: seq<nat>, ord: Order) returns (size: nat, sub: Cache)
      ensures size == Size(c, x) && sub == CacheOf(c, x)
      decreases Rank(c), 5, 0
    {
      var m := new MessageObject(c, x);
      size := m.ByteSizeLong(path, ord);
      sub := m.cache;
    }

    method SizeOfInts(xs: seq<Int32>) returns (size: nat)
      ensures size == IntsSize(xs)
    {
      size := 0;
      for i := 0 to |xs|
        invariant size + IntsSize(xs[i..]) == IntsSize(xs)
      {
        size := size + IntSize(xs[i]);
        assert xs[i..][1..] == xs[i + 1..];
      }
    }

    method SizeOfStrings(ss: seq<Bytes>) returns (size: nat)
      ensures size == StringsSize(ss)
    {
      size := |ss|;
      for i := 0 to |ss|
        invariant size + StringsSize(ss[i..]) == StringsSize(ss) + (|ss| - i)
      {
        size := size + LenSize(|ss[i]|);
        assert ss[i..][1..] == ss[i + 1..];
      }
    }

    method SizeOfMsgs(c: Cls, ms: seq<Msg>, path: seq<nat>, ord: Order) returns (size: nat, subs: seq<Cache>)
      ensures size == MsgsSize(c, ms)
      ensures |subs| == |ms| && forall i | 0 <= i < |ms| :: subs[i] == CacheOf(c, ms[i])
      decreases Rank(c) + 1, 0, 0
    {
      hide Size, CacheOf, LenSize;
      size, subs := |ms|, [];
      for i := 0 to |ms|
        invariant size + MsgsSize(c, ms[i..]) == MsgsSize(c, ms) + (|ms| - i)
        invariant |subs| == i && forall j | 0 <= j < i :: subs[j] == CacheOf(c, ms[j])
      {
        var s, sub := SizeOfSub(c, ms[i], path, ord);
        size, subs := size + LenSize(s), subs + [sub];
        assert ms[i..][1..] == ms[i + 1..];
      }
    }

    method SizeOfEntry(mv: MapValue, key: Bytes, v: Val, path: seq<nat>, ord: Order) returns (size: nat, sub: Cache)
      ensures size == EntrySize(mv, key, v)
      ensures mv.MessageValue? && v.VMsg? ==> sub == CacheOf(mv.c, v.m)
      decreases ValueRank(mv), 6, 0
    {
      hide Size, CacheOf, FieldCacheOf, LenSize, MsgsSize, EntriesSize, IntSize;
      var s: nat;
      sub := FRESH;
      if mv.MessageValue? && v.VMsg? {
        s, sub := SizeOfSub(mv.c, v.m, path, ord);
        s := 1 + LenSize(s);
      } else {
        var fc;
        s, fc := SizeOfVal(ValueKind(mv), v, path, ord);
      }
      size := 1 + LenSize(|key|) + s;
    }

    method SizeOfEntries(mv: MapValue, es: map<Bytes, Val>, path: seq<nat>, ord: Order)
      returns (size: nat, subs: map<Bytes, Cache>)
      ensures size == EntriesSize(mv, es)
      ensures mv.MessageValue? ==> subs == map key | key in es && es[key].VMsg? :: CacheOf(mv.c, es[key].m)
      decreases ValueRank(mv) + 1, 0, 0
    {
      hide CacheOf, EntrySize, EntriesSize, LenSize, Sized, Chosen;
      var keys := ord(path, es);
      AllListed(mv, es, keys);
      size, subs := |es|, map[];
      while keys != []
        invariant Remaining(es, keys)
        invariant size + EntriesSize(mv, Chosen(es, keys)) == EntriesSize(mv, es) + |keys|
        invariant mv.MessageValue? ==> Sized(mv.c, es, keys, subs)
        decreases |keys|
      {
        SizeNext(mv, es, keys);
        var key := keys[0];
        var s, sub := SizeOfEntry(mv, key, es[key], path, ord);
        if mv.MessageValue? { CacheNext(mv.c, es, keys, subs, sub); }
        if es[key].VMsg? { subs := subs[key := sub]; }
        size := size + LenSize(s);
        keys := keys[1..];
      }
      NothingLeft(mv, es, subs);
    }

    method SizeOfVal(k: Kind, v: Val, path: seq<nat>, ord: Order) returns (size: nat, fc: FieldCache)
      ensures size == ValSize(k, v) && fc == FieldCacheOf(k, v)
      decreases KindRank(k), 1, 0
    {
      hide Rank, Size, CacheOf, LenSize, EntrySize;
      size, fc := 0, NoCache;
      match (k, v)
      case (IntField, VInt(i)) => size := 1 + IntSize(i);
      case (BoolField, VBool(_)) => size := 2;
      case (OneofBool, VBool(_)) => size := 2;
      case (DoubleField, VDouble(_)) => size := 9;
      case (OneofDouble, VDouble(_)) => size := 9;
      case (StringField, VString(s)) => size := 1 + LenSize(|s|);
      case (MessageField(c), VMsg(x)) =>
        var s, sub := SizeOfSub(c, x, path, ord);
        size, fc := 1 + LenSize(s), One(sub);
      case (OneofMessage(c), VMsg(x)) =>
        var s, sub := SizeOfSub(c, x, path, ord);
        size, fc := 1 + LenSize(s), One(sub);
      case (PackedInts, VInts(xs)) =>
        var s := SizeOfInts(xs);
        size, fc := if s > 0 then 1 + LenSize(s) else 0, PackedSize(s);
      case (PackedDoubles, VDoubles(xs)) => size := if |xs| > 0 then 1 + LenSize(8 * |xs|) else 0;
      case (Strings, VStrings(ss)) => size := SizeOfStrings(ss);
      case (Messages(c), VMsgs(ms)) =>
        var s, subs := SizeOfMsgs(c, ms, path, ord);
        size, fc := s, Many(subs);
      case (MapField(mv), VMap(es)) =>
        var s, subs := SizeOfEntries(mv, es, path, ord);
        size := s;
        if mv.MessageValue? { fc := Keyed(subs); }
      case _ =>
    }

    /** ByteSizeLong: the size, and as a side effect the caches of this object and all inside it. */
    method ByteSizeLong(path: seq<nat>, ord: Order) returns (total: nat)
      modifies this`cache
      ensures total == Size(cls, value) && cache == CacheOf(cls, value)
      decreases Rank(cls), 4, 0
    {
      hide FieldOf, ValSize, FieldCacheOf, RecordsSize, CachesBelow, CacheOf, Rank, KindRank;
      total := 0;
      var fields: map<nat, FieldCache> := map[];
      NoCaches(cls, value);
      var n := 1;
      while n <= LAST
        invariant 1 <= n <= LAST + 1
        invariant total + SizeFrom(cls, n, value) == Size(cls, value)
        invariant fields == CachesBelow(cls, value, n)
      {
        CachesNext(cls, value, n);
        var k := FieldOf(cls, n);
        if k.Some? && n in value.fields {
          var size, fc := SizeOfVal(k.value, value.fields[n], path + [n], ord);
          total, fields := total + size, fields[n := fc];
        }
        n := n + 1;
      }
      total := total + RecordsSize(value.unknown);
      AllCaches(cls, value);
      cache := Cache(total, fields);
    }

    // -------------------------------------------------------------- serializer

    method WriteSub(target: Bytes, c: Cls, n: FieldNum, x: Msg, sub: Cache, path: seq<nat>, ord: Order)
      returns (out: Bytes)
      ensures out == target + WriteMessage(c, n, x, sub, path, ord)
      decreases Rank(c), 5, 0
    {
      hide Write, EncodeVarint;
      var m := new MessageObject(c, x);
      m.cache := sub;
      var head := PutTag(n, 2) + EncodeVarint(sub.size);
      out := m.InternalSerialize(target + head, path, ord);
      Regroup(target, head, Write(c, x, sub, path, ord));
    }

    method WriteSubs(target: Bytes, c: Cls, n: FieldNum, ms: seq<Msg>, fc: FieldCache, path: seq<nat>, ord: Order)
      returns (out: Bytes)
      ensures out == target + WriteMsgs(c, n, ms, 0, fc, path, ord)
      decreases Rank(c) + 1, 0, 0
    {
      hide WriteMessage;
      out := target;
      for i := 0 to |ms|
        invariant out + WriteMsgs(c, n, ms, i, fc, path, ord) == target + WriteMsgs(c, n, ms, 0, fc, path, ord)
      {
        ghost var before := out;
        out := WriteSub(out, c, n, ms[i], ItemIn(fc, i), path + [|ms| - i], ord);
        Regroup(before, WriteMessage(c, n, ms[i], ItemIn(fc, i), path + [|ms| - i], ord),
                WriteMsgs(c, n, ms, i + 1, fc, path, ord));
      }
      assert out + [] == out;
    }

    method WriteOneEntry(target: Bytes, mv: MapValue, n: FieldNum, key: Bytes, v: Val, sub: Cache, path: seq<nat>,
                         ord: Order)
      returns (out: Bytes)
      ensures out == target + WriteEntry(mv, n, key, v, sub, path, ord)
      decreases ValueRank(mv), 6, 0
    {
      hide WriteMessage, EncodeVarint, EntryBytes, PutRecord;
      if mv.MessageValue? && v.VMsg? {
        var front := PutTag(n, 2) + EncodeVarint(1 + LenSize(|key|) + 1 + LenSize(sub.size))
                     + (PutTag(1, 2) + PutLen(key));
        out := WriteSub(target + front, mv.c, 2, v.m, sub, path, ord);
        Regroup(target, front, WriteMessage(mv.c, 2, v.m, sub, path, ord));
      } else {
        out := target + PutRecord(Record(n, Len(EntryBytes(mv, key, v, path, ord))));
      }
    }

    method WriteMap(target: Bytes, mv: MapValue, n: FieldNum, es: map<Bytes, Val>, fc: FieldCache, path: seq<nat>,
                    ord: Order)
      returns (out: Bytes)
      ensures out == target + WriteEntries(mv, n, es, ord(path, es), fc, path, ord)
      decreases ValueRank(mv) + 1, 0, 0
    {
      hide WriteEntry;
      var keys := ord(path, es);
      assert IsListing(keys, es.Keys);
      out := target;
      var i := 0;
      while i < |keys|
        invariant 0 <= i <= |keys|
        invariant out + WriteEntries(mv, n, es, keys[i..], fc, path, ord)
               == target + WriteEntries(mv, n, es, keys, fc, path, ord)
      {
        ghost var before := out;
        var key := keys[i];
        assert keys[i..][1..] == keys[i + 1..];
        out := WriteOneEntry(out, mv, n, key, es[key], EntryIn(fc, key), path + [|keys| - i], ord);
        Regroup(before, WriteEntry(mv, n, key, es[key], EntryIn(fc, key), path + [|keys| - i], ord),
                WriteEntries(mv, n, es, keys[i + 1..], fc, path, ord));
        i := i + 1;
      }
      assert out + [] == out;
    }

    method WriteVal(target: Bytes, k: Kind, n: FieldNum, v: Val, fc: FieldCache, path: seq<nat>, ord: Order)
      returns (out: Bytes)
      ensures out == target + SizeCache.WriteVal(k, n, v, fc, path, ord)
      decreases KindRank(k), 1, 0
    {
      hide WriteMessage, WriteMsgs, WriteEntries, PutRecords, PutInts, EncodeVarint;
      out := target;
      match (k, v)
      case (MessageField(c), VMsg(x)) => out := WriteSub(target, c, n, x, OneIn(fc), path, ord);
      case (OneofMessage(c), VMsg(x)) => out := WriteSub(target, c, n, x, OneIn(fc), path, ord);
      case (PackedInts, VInts(xs)) =>
        var size := if fc.PackedSize? then fc.n else 0;
        if size > 0 { out := target + (PutTag(n, 2) + EncodeVarint(size) + PutInts(xs)); }
      case (Messages(c), VMsgs(ms)) => out := WriteSubs(target, c, n, ms, fc, path, ord);
      case (MapField(mv), VMap(es)) => out := WriteMap(target, mv, n, es, fc, path, ord);
      case _ => out := target + PutRecords(ValRecords(k, n, v, path, ord));
    }

    method WriteField(target: Bytes, n: FieldNum, path: seq<nat>, ord: Order) returns (out: Bytes)
      ensures out == target + SizeCache.WriteField(cls, n, value, cache, path, ord)
      decreases Rank(cls), 3, 0
    {
      hide FieldOf, SizeCache.WriteVal;
      var k := FieldOf(cls, n);
      if k.Some? && n in value.fields {
        var fc := if n in cache.fields then cache.fields[n] else NoCache;
        out := WriteVal(target, k.value, n, value.fields[n], fc, path + [n], ord);
      } else {
        out := target;
      }
    }

    /** _InternalSerialize: appends to `target`, taking every nested length from the caches. */
    method InternalSerialize(target: Bytes, path: seq<nat>, ord: Order) returns (out: Bytes)
      ensures out == target + Write(cls, value, cache, path, ord)
      decreases Rank(cls), 4, 0
    {
      hide FieldOf, SizeCache.WriteField, PutRecords;
      out := target;
      var n: FieldNum := 1;
      while n <= LAST
        invariant 1 <= n <= LAST + 1
        invariant out + WriteFrom(cls, n, value, cache, path, ord) == target + Write(cls, value, cache, path, ord)
      {
        ghost var before := out;
        out := WriteField(out, n, path, ord);
        Regroup(before, SizeCache.WriteField(cls, n, value, cache, path, ord),
                WriteFrom(cls, n + 1, value, cache, path, ord));
        n := n + 1;
      }
      out := out + PutRecords(value.unknown);
    }

    /** SerializeAsString: the size pass, then the serializer.  A message of 2 GiB or more is refused. */
    method SerializeAsString(ord: Order) returns (bytes: Option<Bytes>)
      modifies this`cache
      ensures bytes == if |Serialize(cls, value, ord)| <= MAX_LEN then Some(Serialize(cls, value, ord)) else None
    {
      hide Write, Serialize, CacheOf, Size;
      WrittenAfterSizing(cls, value, ord);
      ghost var expected := Serialize(cls, value, ord);
      var size := ByteSizeLong([], ord);
      if size > MAX_LEN { return None; }
      var out := InternalSerialize([], [], ord);
      assert out == expected by { assert [] + expected == expected; }
      return Some(out);
    }
  }
}
