/** What each field holds after a parse, in terms of its own records: the last one wins, repeated values
    add up, nested messages merge, and the last entry of a map key stays. */
module FieldLaws {
  import opened Wire
  import Layout
  import opened Schema
  import opened Codec
  import opened RoundTrip
  import opened RecordOrder
  import opened WireLaws

  /** The records of field `n`, in their order. */
  function Own(c: Cls, rs: seq<Record>, n: nat): (own: seq<Record>)
    ensures forall r :: r in own <==> r in rs && SlotOf(c, r) == FieldSlot(n)
    ensures forall r | r in own :: r.num == n && Recognises(c, n, WireType(r.body))
  {
    assert forall r :: r in Select(c, rs, FieldSlot(n)) <==> r in rs && SlotOf(c, r) == FieldSlot(n) by {
      forall r { Selected(c, rs, FieldSlot(n), r); }
    }
    Select(c, rs, FieldSlot(n))
  }

  predicate IsMember(c: Cls, r: Record) {
    Recognises(c, r.num, WireType(r.body)) && IsOneof(FieldOf(c, r.num).value)
  }

  /** The records of all members of the oneof, in their order. */
  function OwnOneof(c: Cls, rs: seq<Record>): (own: seq<Record>)
    ensures forall r :: r in own <==> r in rs && IsMember(c, r)
  {
    assert forall r :: r in Select(c, rs, OneofSlot) <==> r in rs && SlotOf(c, r) == OneofSlot by {
      forall r { Selected(c, rs, OneofSlot, r); }
    }
    Select(c, rs, OneofSlot)
  }

  /** The value of field `n` is the same in both. */
  predicate SameValue(x: Msg, y: Msg, n: nat) {
    (n in x.fields <==> n in y.fields) && (n in x.fields ==> x.fields[n] == y.fields[n])
  }

  lemma PartHasField(c: Cls, x: Msg, n: nat)
    requires n !in OneofFields(c)
    ensures SameValue(x, Part(c, x, FieldSlot(n)), n)
  {
    hide OneofFields;
  }

  /** A field comes out as if the message had held nothing but that field, and its own records were the
      only ones. */
  lemma OnlyOwnRecords(c: Cls, depth: nat, m: Msg, rs: seq<Record>, n: nat)
    requires ApplyAll(c, depth, m, rs).Some? && FieldOf(c, n).Some? && !IsOneof(FieldOf(c, n).value)
    ensures var start := Part(c, m, FieldSlot(n));
            var end := ApplyAll(c, depth, start, Own(c, rs, n));
            && end.Some? && SameValue(m, start, n) && SameValue(ApplyAll(c, depth, m, rs).value, end.value, n)
  {
    hide ApplyAll, Part, OneofFields, Select, Recognises;
    OneofNumber(c, n);
    PartOfParse(c, depth, m, rs, FieldSlot(n));
    PartHasField(c, m, n);
    PartHasField(c, ApplyAll(c, depth, m, rs).value, n);
  }

  lemma SplitLast(c: Cls, depth: nat, m: Msg, rs: seq<Record>)
    requires rs != [] && ApplyAll(c, depth, m, rs).Some?
    ensures var n := |rs| - 1;
            var before := ApplyAll(c, depth, m, rs[..n]);
            before.Some? && Apply(c, depth, before.value, rs[n]) == ApplyAll(c, depth, m, rs)
  {
    hide Apply, ApplyAll;
    var n := |rs| - 1;
    assert rs == rs[..n] + [rs[n]];
    ApplyAllConcat(c, depth, m, rs[..n], [rs[n]]);
    var before := ApplyAll(c, depth, m, rs[..n]);
    ApplyOne(c, depth, before.value, rs[n]);
  }

  // ---------------------------------------------------------------- single values

  /** Last one wins: a single value is that of the last record of its field, a default included; without
      such a record it stays. */
  lemma LastOneWins(c: Cls, depth: nat, m: Msg, rs: seq<Record>, n: nat)
    requires ApplyAll(c, depth, m, rs).Some? && FieldOf(c, n).Some?
    ensures var x, k, own := ApplyAll(c, depth, m, rs).value, FieldOf(c, n).value, Own(c, rs, n);
            && (own == [] && !IsOneof(k) ==> SameValue(x, m, n))
            && (own != [] && k.IntField? ==> IntOf(x, n) == ToInt32(own[|own| - 1].body.v))
            && (own != [] && k.BoolField? ==> BoolOf(x, n) == (own[|own| - 1].body.v != 0))
            && (own != [] && k.DoubleField? ==> DoubleOf(x, n) == own[|own| - 1].body.bits)
            && (own != [] && k.StringField? ==> StringOf(x, n) == own[|own| - 1].body.data)
  {
    hide ApplyAll, Apply, Own, FieldOf, Part, ToInt32;
    var k, own := FieldOf(c, n).value, Own(c, rs, n);
    if !IsOneof(k) {
      OnlyOwnRecords(c, depth, m, rs, n);
      var start := Part(c, m, FieldSlot(n));
      if own == [] {
        NoRecords(c, depth, start);
      } else {
        var last := |own| - 1;
        SplitLast(c, depth, start, own);
        SingleValueSet(c, depth, ApplyAll(c, depth, start, own[..last]).value, own[last]);
      }
    }
  }

  lemma NoRecords(c: Cls, depth: nat, m: Msg)
    ensures ApplyAll(c, depth, m, []) == Some(m)
  {
  }

  lemma SingleValueSet(c: Cls, depth: nat, m: Msg, r: Record)
    requires Recognises(c, r.num, WireType(r.body)) && Apply(c, depth, m, r).Some?
    ensures var x, k := Apply(c, depth, m, r).value, FieldOf(c, r.num).value;
            && (k.IntField? ==> IntOf(x, r.num) == ToInt32(r.body.v))
            && (k.BoolField? ==> BoolOf(x, r.num) == (r.body.v != 0))
            && (k.DoubleField? ==> DoubleOf(x, r.num) == r.body.bits)
            && (k.StringField? ==> StringOf(x, r.num) == r.body.data)
  {
    hide FieldOf, ParseInto, OneofFields, ToInt32;
    var k := FieldOf(c, r.num).value;
    assert Apply(c, depth, m, r) == ApplyField(c, k, depth, m, r);
  }

  // ---------------------------------------------------------------- repeated fields

  /** Repeated strings are added one by one, in order. */
  lemma StringsAddUp(c: Cls, depth: nat, m: Msg, rs: seq<Record>, n: nat)
    requires ApplyAll(c, depth, m, rs).Some? && FieldOf(c, n) == Some(Strings)
    ensures var x, own := ApplyAll(c, depth, m, rs).value, Own(c, rs, n);
            && |StringsOf(x, n)| == |StringsOf(m, n)| + |own|
            && StringsOf(m, n) <= StringsOf(x, n)
            && forall i | 0 <= i < |own| :: StringsOf(x, n)[|StringsOf(m, n)| + i] == own[i].body.data
  {
    hide ApplyAll, Own, FieldOf, Part;
    OnlyOwnRecords(c, depth, m, rs, n);
    OwnStrings(c, depth, Part(c, m, FieldSlot(n)), Own(c, rs, n), n);
  }

  lemma {:induction false} OwnStrings(c: Cls, depth: nat, m: Msg, rs: seq<Record>, n: nat)
    requires ApplyAll(c, depth, m, rs).Some? && FieldOf(c, n) == Some(Strings)
    requires forall r | r in rs :: r.num == n && r.body.Len?
    ensures var x := ApplyAll(c, depth, m, rs).value;
            && |StringsOf(x, n)| == |StringsOf(m, n)| + |rs|
            && StringsOf(m, n) <= StringsOf(x, n)
            && forall i | 0 <= i < |rs| :: StringsOf(x, n)[|StringsOf(m, n)| + i] == rs[i].body.data
    decreases |rs|
  {
    hide FieldOf, ParseInto, ApplyAll;
    if rs == [] {
      NoRecords(c, depth, m);
    } else {
      var last := |rs| - 1;
      SplitLast(c, depth, m, rs);
      OwnStrings(c, depth, m, rs[..last], n);
      var before := ApplyAll(c, depth, m, rs[..last]).value;
      assert Apply(c, depth, before, rs[last]) == ApplyField(c, Strings, depth, before, rs[last]);
    }
  }

  /** Repeated messages too, each parsed on its own. */
  lemma MessagesAddUp(c: Cls, depth: nat, m: Msg, rs: seq<Record>, n: nat, c': Cls)
    requires ApplyAll(c, depth, m, rs).Some? && FieldOf(c, n) == Some(Messages(c'))
    ensures var x, own := ApplyAll(c, depth, m, rs).value, Own(c, rs, n);
            && |MsgsOf(x, n)| == |MsgsOf(m, n)| + |own|
            && MsgsOf(m, n) <= MsgsOf(x, n)
            && forall i | 0 <= i < |own| ::
                 ParseNested(c', depth, EMPTY, own[i].body.data) == Some(MsgsOf(x, n)[|MsgsOf(m, n)| + i])
  {
    hide ApplyAll, Own, FieldOf, Part;
    OnlyOwnRecords(c, depth, m, rs, n);
    OwnMessages(c, depth, Part(c, m, FieldSlot(n)), Own(c, rs, n), n, c');
  }

  lemma {:induction false} OwnMessages(c: Cls, depth: nat, m: Msg, rs: seq<Record>, n: nat, c': Cls)
    requires ApplyAll(c, depth, m, rs).Some? && FieldOf(c, n) == Some(Messages(c'))
    requires forall r | r in rs :: r.num == n && r.body.Len?
    ensures var x := ApplyAll(c, depth, m, rs).value;
            && |MsgsOf(x, n)| == |MsgsOf(m, n)| + |rs|
            && MsgsOf(m, n) <= MsgsOf(x, n)
            && forall i | 0 <= i < |rs| ::
                 ParseNested(c', depth, EMPTY, rs[i].body.data) == Some(MsgsOf(x, n)[|MsgsOf(m, n)| + i])
    decreases |rs|
  {
    hide FieldOf, ParseInto, ApplyAll;
    if rs == [] {
      NoRecords(c, depth, m);
    } else {
      var last := |rs| - 1;
      SplitLast(c, depth, m, rs);
      OwnMessages(c, depth, m, rs[..last], n, c');
      var before := ApplyAll(c, depth, m, rs[..last]).value;
      assert Apply(c, depth, before, rs[last]) == ApplyField(c, Messages(c'), depth, before, rs[last]);
    }
  }

  /** Packed and unpacked pieces of repeated doubles and enums are joined. */
  lemma PiecesAddUp(c: Cls, depth: nat, m: Msg, rs: seq<Record>, n: nat)
    requires ApplyAll(c, depth, m, rs).Some? && FieldOf(c, n).Some?
    ensures FieldOf(c, n).value.PackedDoubles? ==>
              var x, xs := ApplyAll(c, depth, m, rs).value, JoinDoubles(Own(c, rs, n));
              xs.Some? && DoublesOf(x, n) == DoublesOf(m, n) + xs.value
    ensures FieldOf(c, n).value.PackedInts? ==>
              var x, xs := ApplyAll(c, depth, m, rs).value, JoinInts(Own(c, rs, n));
              xs.Some? && IntsOf(x, n) == IntsOf(m, n) + xs.value
  {
    hide ApplyAll, FieldOf, Part, Store, Own;
    var k, own := FieldOf(c, n).value, Own(c, rs, n);
    if k.PackedDoubles? || k.PackedInts? {
      var start := Part(c, m, FieldSlot(n));
      OnlyOwnRecords(c, depth, m, rs, n);
      if own == [] {
        NoRecords(c, depth, start);
        assert DoublesOf(m, n) + [] == DoublesOf(m, n) && IntsOf(m, n) + [] == IntsOf(m, n);
      } else if k.PackedDoubles? {
        DoublePiecesJoin(c, depth, n, start, own);
        Stored(start, n, DoublesOf(start, n) + JoinDoubles(own).value, []);
      } else {
        IntPiecesJoin(c, depth, n, start, own);
        Stored(start, n, [], IntsOf(start, n) + JoinInts(own).value);
      }
    }
  }

  // ---------------------------------------------------------------- nested messages and maps

  /** The bytes of length-delimited records, joined. */
  function Data(rs: seq<Record>): Bytes
    requires forall r | r in rs :: r.body.Len?
  {
    if rs == [] then [] else Data(rs[..|rs| - 1]) + rs[|rs| - 1].body.data
  }

  /** Several records of one nested message act as one with their bytes joined. */
  lemma NestedMessagesMerge(c: Cls, depth: nat, m: Msg, rs: seq<Record>, n: nat, c': Cls)
    requires ApplyAll(c, depth, m, rs).Some? && FieldOf(c, n) == Some(MessageField(c')) && Own(c, rs, n) != []
    ensures var x, own := ApplyAll(c, depth, m, rs).value, Own(c, rs, n);
            && n in x.fields && x.fields[n].VMsg? && depth > 0
            && ParseInto(c', depth - 1, MsgOf(m, n), Data(own)) == Some(x.fields[n].m)
  {
    hide ApplyAll, FieldOf, Part, Own, ParseInto;
    OnlyOwnRecords(c, depth, m, rs, n);
    OwnMessage(c, depth, Part(c, m, FieldSlot(n)), Own(c, rs, n), n, c');
  }

  lemma {:induction false} OwnMessage(c: Cls, depth: nat, m: Msg, rs: seq<Record>, n: nat, c': Cls)
    requires rs != [] && ApplyAll(c, depth, m, rs).Some? && FieldOf(c, n) == Some(MessageField(c'))
    requires forall r | r in rs :: r.num == n && r.body.Len?
    ensures var x := ApplyAll(c, depth, m, rs).value;
            && n in x.fields && x.fields[n].VMsg? && depth > 0
            && ParseInto(c', depth - 1, MsgOf(m, n), Data(rs)) == Some(x.fields[n].m)
    decreases |rs|
  {
    hide FieldOf, ParseInto, ApplyAll;
    var last := |rs| - 1;
    SplitLast(c, depth, m, rs);
    var before := ApplyAll(c, depth, m, rs[..last]).value;
    assert Apply(c, depth, before, rs[last]) == ApplyField(c, MessageField(c'), depth, before, rs[last]);
    if last == 0 {
      NoRecords(c, depth, m);
      assert Data(rs) == rs[last].body.data by { assert Data(rs[..last]) == []; }
    } else {
      OwnMessage(c, depth, m, rs[..last], n, c');
      ParseGoesOn(c', depth - 1, MsgOf(m, n), Data(rs[..last]), rs[last].body.data);
    }
  }

  /** The value of the last entry with this key. */
  function LastEntry(mv: MapValue, depth: nat, rs: seq<Record>, key: Bytes): Option<Val>
    requires forall r | r in rs :: r.body.Len?
  {
    if rs == [] then None
    else
      var e := ParseNested(Entry(mv), depth, EMPTY, rs[|rs| - 1].body.data);
      if e.Some? && EntryKey(e.value) == key then Some(EntryValue(mv, e.value))
      else LastEntry(mv, depth, rs[..|rs| - 1], key)
  }

  /** Under each key of a map is the value of the last entry with that key. */
  lemma LastEntryStays(c: Cls, depth: nat, m: Msg, rs: seq<Record>, n: nat, mv: MapValue, key: Bytes)
    requires ApplyAll(c, depth, m, rs).Some? && FieldOf(c, n) == Some(MapField(mv))
    ensures var es, v := EntriesOf(ApplyAll(c, depth, m, rs).value, n), LastEntry(mv, depth, Own(c, rs, n), key);
            if v.Some? then key in es && es[key] == v.value
            else (key in es <==> key in EntriesOf(m, n)) && (key in es ==> es[key] == EntriesOf(m, n)[key])
  {
    hide ApplyAll, FieldOf, Part, Own, LastEntry;
    OnlyOwnRecords(c, depth, m, rs, n);
    OwnEntries(c, depth, Part(c, m, FieldSlot(n)), Own(c, rs, n), n, mv, key);
  }

  lemma {:induction false} OwnEntries(c: Cls, depth: nat, m: Msg, rs: seq<Record>, n: nat, mv: MapValue, key: Bytes)
    requires ApplyAll(c, depth, m, rs).Some? && FieldOf(c, n) == Some(MapField(mv))
    requires forall r | r in rs :: r.num == n && r.body.Len?
    ensures var es, v := EntriesOf(ApplyAll(c, depth, m, rs).value, n), LastEntry(mv, depth, rs, key);
            if v.Some? then key in es && es[key] == v.value
            else (key in es <==> key in EntriesOf(m, n)) && (key in es ==> es[key] == EntriesOf(m, n)[key])
    decreases |rs|
  {
    hide FieldOf, ParseNested, ApplyAll, EntryKey, EntryValue;
    if rs == [] {
      NoRecords(c, depth, m);
    } else {
      var last := |rs| - 1;
      SplitLast(c, depth, m, rs);
      OwnEntries(c, depth, m, rs[..last], n, mv, key);
      var before := ApplyAll(c, depth, m, rs[..last]).value;
      assert Apply(c, depth, before, rs[last]) == ApplyField(c, MapField(mv), depth, before, rs[last]);
    }
  }

  // ---------------------------------------------------------------- the oneof, the unknown fields

  /** The records at the end that are numbered `n`. */
  function Trailing(rs: seq<Record>, n: nat): (t: seq<Record>)
    ensures |t| <= |rs| && forall r | r in t :: r in rs && r.num == n
  {
    if rs == [] || rs[|rs| - 1].num != n then [] else Trailing(rs[..|rs| - 1], n) + [rs[|rs| - 1]]
  }

  /** The last member of the oneof wins, with its own value and no other member beside it; a message-valued
      one is what its records parse to since another member was last set. */
  lemma LastMemberWins(c: Cls, depth: nat, m: Msg, rs: seq<Record>)
    requires ApplyAll(c, depth, m, rs).Some? && OwnOneof(c, rs) != []
    ensures var x, own := ApplyAll(c, depth, m, rs).value, OwnOneof(c, rs);
            MemberIs(c, depth, m, own, x)
  {
    hide ApplyAll, FieldOf, MemberIs, Part, OneofFields;
    PartOfParse(c, depth, m, rs, OneofSlot);
    OneofOnly(c, depth, Part(c, m, OneofSlot), OwnOneof(c, rs));
    SameMember(c, depth, m, OwnOneof(c, rs), ApplyAll(c, depth, m, rs).value);
  }

  /** What a oneof holds after the records `own` of its members, started from `m`. */
  ghost predicate MemberIs(c: Cls, depth: nat, m: Msg, own: seq<Record>, x: Msg)
    requires own != [] && forall r | r in own :: IsMember(c, r)
  {
    var last := own[|own| - 1];
    && (forall i | i in OneofFields(c) :: i in x.fields <==> i == last.num)
    && last.num in x.fields
    && Some(x.fields[last.num]) == MemberValue(c, depth, m, own)
  }

  /** The value of the last record; for a message, of all records since another member was set. */
  ghost function MemberValue(c: Cls, depth: nat, m: Msg, own: seq<Record>): Option<Val>
    requires own != [] && forall r | r in own :: IsMember(c, r)
  {
    var last := own[|own| - 1];
    assert IsMember(c, last) && forall r | r in own :: IsMember(c, r);
    match FieldOf(c, last.num).value
    case OneofDouble => Some(VDouble(last.body.bits))
    case OneofBool => Some(VBool(last.body.v != 0))
    case OneofMessage(c') =>
      match MessageValue(c', depth, m, own, last.num)
      case None => None
      case Some(x) => Some(VMsg(x))
  }

  /** What the last records with number `n` parse to, one after the other. */
  ghost function MessageValue(c: Cls, depth: nat, m: Msg, own: seq<Record>, n: nat): Option<Msg>
    requires forall r | r in own && r.num == n :: r.body.Len?
  {
    var t := Trailing(own, n);
    ParseNested(c, depth, if |t| == |own| then MsgOf(m, n) else EMPTY, Data(t))
  }

  lemma SameMember(c: Cls, depth: nat, m: Msg, own: seq<Record>, x: Msg)
    requires own != [] && forall r | r in own :: IsMember(c, r)
    ensures MemberIs(c, depth, Part(c, m, OneofSlot), own, Part(c, x, OneofSlot)) ==> MemberIs(c, depth, m, own, x)
  {
    hide OneofFields, FieldOf, MemberValue;
    assert IsMember(c, own[|own| - 1]);
    OneofNumber(c, own[|own| - 1].num);
    var y := Part(c, x, OneofSlot);
    assert forall i | i in OneofFields(c) :: i in x.fields <==> i in y.fields;
    SameMemberValue(c, depth, m, own);
  }

  lemma SameMemberValue(c: Cls, depth: nat, m: Msg, own: seq<Record>)
    requires own != [] && forall r | r in own :: IsMember(c, r)
    ensures MemberValue(c, depth, Part(c, m, OneofSlot), own) == MemberValue(c, depth, m, own)
  {
    hide OneofFields, FieldOf, ParseNested, Trailing, Part;
    var n := own[|own| - 1].num;
    assert IsMember(c, own[|own| - 1]);
    OneofNumber(c, n);
    PartKeepsField(c, m, n, OneofSlot);
  }

  lemma {:induction false} OneofOnly(c: Cls, depth: nat, m: Msg, rs: seq<Record>)
    requires rs != [] && ApplyAll(c, depth, m, rs).Some? && forall r | r in rs :: IsMember(c, r)
    ensures MemberIs(c, depth, m, rs, ApplyAll(c, depth, m, rs).value)
    decreases |rs|
  {
    hide FieldOf, ParseNested, ApplyAll, OneofFields, Apply, Trailing, MessageValue;
    var last := |rs| - 1;
    SplitLast(c, depth, m, rs);
    var before := ApplyAll(c, depth, m, rs[..last]).value;
    MemberSet(c, depth, before, rs[last]);
    if last == 0 {
      NoRecords(c, depth, m);
    } else {
      OneofOnly(c, depth, m, rs[..last]);
    }
    if FieldOf(c, rs[last].num).value.OneofMessage? {
      var n, c' := rs[last].num, FieldOf(c, rs[last].num).value.c;
      if last > 0 {
        MemberBefore(c, depth, m, rs[..last], before, n);
      }
      MessageMember(c', depth, m, rs, n, MsgOf(before, n));
    }
  }

  lemma MessageMember(c: Cls, depth: nat, m: Msg, rs: seq<Record>, n: nat, y: Msg)
    requires rs != [] && rs[|rs| - 1].num == n && forall r | r in rs && r.num == n :: r.body.Len?
    requires var last := |rs| - 1;
             if last == 0 then y == MsgOf(m, n)
             else if rs[last - 1].num != n then y == EMPTY
             else MessageValue(c, depth, m, rs[..last], n) == Some(y)
    ensures var x := ParseNested(c, depth, y, rs[|rs| - 1].body.data);
            x.Some? ==> MessageValue(c, depth, m, rs, n) == x
  {
    hide ParseNested, Trailing, Data;
    var last := |rs| - 1;
    TrailingGrows(rs);
    var t, all := Trailing(rs[..last], n), Trailing(rs, n);
    DataGrows(all);
    assert all[..|all| - 1] == t;
    if t == [] {
      NoData(rs[last].body.data);
    } else {
      NestedGoesOn(c, depth, if |t| == last then MsgOf(m, n) else EMPTY, Data(t), rs[last].body.data);
    }
  }

  lemma TrailingGrows(rs: seq<Record>)
    requires rs != []
    ensures var last := |rs| - 1;
            var t := Trailing(rs[..last], rs[last].num);
            Trailing(rs, rs[last].num) == t + [rs[last]] && (last > 0 && rs[last - 1].num != rs[last].num ==> t == [])
            && (last > 0 && rs[last - 1].num == rs[last].num ==> t != [])
  {
  }

  lemma NoData(b: Bytes)
    ensures Data([]) + b == b
  {
  }

  lemma NestedGoesOn(c: Cls, depth: nat, m: Msg, a: Bytes, b: Bytes)
    requires ParseNested(c, depth, m, a).Some?
    ensures ParseNested(c, depth, m, a + b) == ParseNested(c, depth, ParseNested(c, depth, m, a).value, b)
  {
    hide ParseInto;
    ParseGoesOn(c, depth - 1, m, a, b);
  }

  lemma DataGrows(rs: seq<Record>)
    requires rs != [] && forall r | r in rs :: r.body.Len?
    ensures Data(rs) == Data(rs[..|rs| - 1]) + rs[|rs| - 1].body.data
  {
  }

  lemma MemberBefore(c: Cls, depth: nat, m: Msg, own: seq<Record>, x: Msg, n: nat)
    requires own != [] && (forall r | r in own :: IsMember(c, r)) && MemberIs(c, depth, m, own, x)
    requires FieldOf(c, n).Some? && IsOneof(FieldOf(c, n).value)
    ensures own[|own| - 1].num != n ==> MsgOf(x, n) == EMPTY
    ensures own[|own| - 1].num == n ==> n in x.fields && Some(x.fields[n]) == MemberValue(c, depth, m, own)
  {
    hide FieldOf, OneofFields, MemberValue;
    OneofNumber(c, n);
  }

  lemma MemberSet(c: Cls, depth: nat, m: Msg, r: Record)
    requires IsMember(c, r) && Apply(c, depth, m, r).Some?
    ensures var x, k := Apply(c, depth, m, r).value, FieldOf(c, r.num).value;
            && (forall i | i in OneofFields(c) :: i in x.fields <==> i == r.num)
            && r.num in x.fields
            && (k.OneofDouble? ==> x.fields[r.num] == VDouble(r.body.bits))
            && (k.OneofBool? ==> x.fields[r.num] == VBool(r.body.v != 0))
            && (k.OneofMessage? ==>
                  var y := ParseNested(k.c, depth, MsgOf(m, r.num), r.body.data);
                  y.Some? && x.fields[r.num] == VMsg(y.value))
  {
    hide FieldOf, OneofFields;
    var k := FieldOf(c, r.num).value;
    assert Apply(c, depth, m, r) == ApplyField(c, k, depth, m, r);
  }

  /** Unknown records are kept, in order. */
  lemma UnknownAddUp(c: Cls, depth: nat, m: Msg, rs: seq<Record>)
    requires ApplyAll(c, depth, m, rs).Some?
    ensures ApplyAll(c, depth, m, rs).value.unknown == m.unknown + Select(c, rs, UnknownSlot)
  {
    hide ApplyAll, Select;
    PartOfParse(c, depth, m, rs, UnknownSlot);
    forall r | r in Select(c, rs, UnknownSlot) ensures !Recognises(c, r.num, WireType(r.body)) {
      Selected(c, rs, UnknownSlot, r);
    }
    UnknownApply(c, depth, Part(c, m, UnknownSlot), Select(c, rs, UnknownSlot));
  }

  // ---------------------------------------------------------------- packed runs, nesting

  /** A packed run of enums is varints end to end: the first ends somewhere within ten bytes, and so on. */
  lemma PackedEnumsRead(b: Bytes, k: nat)
    requires EndsAt(b, k)
    ensures var rest := TakeInts(b[k + 1..]);
            TakeInts(b)
            == if k < 10 && rest.Some? then Some([ToInt32(Base128(b[..k + 1]))] + rest.value) else None
  {
    VarintReads(10, b, k);
  }

  lemma PackedEnumsNeedAnEnd(b: Bytes)
    requires b != [] && forall k: nat :: !EndsAt(b, k)
    ensures TakeInts(b).None? && TakeInts([]) == Some([])
  {
    if TakeVarint(10, b).Took? { VarintNeedsAnEnd(10, b); }
  }

  /** A packed run of doubles is accepted if and only if eight divides its length, and is cut up in eights. */
  lemma {:induction false} PackedDoublesRead(b: Bytes)
    ensures TakeDoubles(b).Some? <==> |b| % 8 == 0
    ensures TakeDoubles(b).Some? ==> Layout.Joined(TakeDoubles(b).value) == b
    decreases |b|
  {
    if |b| >= 8 {
      PackedDoublesRead(b[8..]);
      if TakeDoubles(b).Some? {
        var xs := TakeDoubles(b[8..]).value;
        assert ([b[..8]] + xs)[1..] == xs;
        assert b == b[..8] + b[8..];
      }
    }
  }

  /** Groups of a field that no class knows, one in the other, are accepted as deep as the budget goes. */
  lemma GroupsUseTheBudget(c: Cls, depth: nat, m: Msg, k: nat)
    requires k > 0
    ensures ParseInto(c, depth, m, Starts(k) + Ends(k)).Some? <==> k <= depth
  {
    hide TakeRecord, FieldOf;
    var b := Starts(k) + Ends(k);
    assert b + [] == b;
    GroupsNest(depth, k, []);
    var t := TakeRecord(depth, b);
    if t.Took? {
      assert |b| > 0 && Tokenise(depth, t.rest) == Some([]) && [t.value] + [] == [t.value];
      ApplyOne(c, depth, m, t.value);
      assert !Recognises(c, 15, WireType(t.value.body)) by { NoField15(c); }
    }
  }

  lemma NoField15(c: Cls)
    ensures FieldOf(c, 15).None?
  {
  }

  /** A parse nests a hundred deep and no deeper. */
  lemma NestsAHundredDeep(c: Cls, k: nat)
    requires k > 0
    ensures Parse(c, Starts(k) + Ends(k)).Some? <==> k <= 100
  {
    GroupsUseTheBudget(c, MAX_DEPTH, EMPTY, k);
  }

  /** Every nested message and map entry takes one level of the budget. */
  lemma NestingTakesOneLevel(c: Cls, depth: nat, m: Msg, n: FieldNum, k: nat)
    requires k > 0 && FieldOf(c, n).Some?
    requires var f := FieldOf(c, n).value; f.MessageField? || f.Messages? || f.OneofMessage? || f.MapField?
    ensures Apply(c, depth, m, Record(n, Len(Starts(k) + Ends(k)))).Some? <==> k + 1 <= depth
  {
    hide FieldOf, ParseInto;
    var f, b := FieldOf(c, n).value, Starts(k) + Ends(k);
    assert Apply(c, depth, m, Record(n, Len(b))) == ApplyField(c, f, depth, m, Record(n, Len(b)));
    if depth > 0 {
      if f.MapField? {
        GroupsUseTheBudget(Entry(f.v), depth - 1, EMPTY, k);
      } else {
        GroupsUseTheBudget(f.c, depth - 1, if f.Messages? then EMPTY else MsgOf(m, n), k);
      }
    }
  }

  /** Repeated vectors that no builder sets are kept one by one: here two empty ones. */
  lemma ForceSensorsAddUp()
    ensures var m := Parse(SensorObject, [42, 0, 42, 0]);
            m.Some? && MsgsOf(m.value, 5) == [EMPTY, EMPTY]
  {
    hide Tokenise, ApplyAll, Apply;
    var r := Record(5, Len([]));
    TwoForces();
    assert [r, r][1..] == [r];
    assert [] + [EMPTY] == [EMPTY] && [EMPTY] + [EMPTY] == [EMPTY, EMPTY];
    var m1, m2 := Store(EMPTY, 5, VMsgs([EMPTY])), Store(EMPTY, 5, VMsgs([EMPTY, EMPTY]));
    ForceStored(EMPTY, [], m1);
    ForceStored(m1, [EMPTY], m2);
    ApplyCons(SensorObject, MAX_DEPTH, EMPTY, [r, r], m1);
    ApplyOne(SensorObject, MAX_DEPTH, m1, r);
  }

  lemma TwoForces()
    ensures var r := Record(5, Len([])); Tokenise(MAX_DEPTH, [42, 0, 42, 0]) == Some([r, r])
  {
    hide TakeRecord;
    var r := Record(5, Len([]));
    EmptyForce([42, 0]);
    EmptyForce([]);
    assert [42, 0] + [42, 0] == [42, 0, 42, 0] && [42, 0] + [] == [42, 0];
    assert Tokenise(MAX_DEPTH, [42, 0]) == Some([r] + []);
    assert [r] + ([r] + []) == [r, r];
  }

  lemma EmptyForce(rest: Bytes)
    ensures TakeRecord(MAX_DEPTH, [42, 0] + rest) == Took(Record(5, Len([])), rest)
  {
    WireTypes(MAX_DEPTH, 42, [0] + rest);
    LengthRead([0] + rest, 0);
    assert [42] + ([0] + rest) == [42, 0] + rest && ([0] + rest)[1..] == rest;
    assert Base128([0]) == 0 by { assert [0][1..] == []; }
  }

  lemma ForceStored(m: Msg, before: seq<Msg>, m': Msg)
    requires MsgsOf(m, 5) == before && m' == Store(m, 5, VMsgs(before + [EMPTY]))
    ensures Apply(SensorObject, MAX_DEPTH, m, Record(5, Len([]))) == Some(m')
  {
    assert ParseInto(Vec3, MAX_DEPTH - 1, EMPTY, []) == Some(EMPTY);
  }
}
