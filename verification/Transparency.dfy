/** What the envelope does to a serialized message that is read and written through it. */
module Transparency {
  import opened Wire
  import opened Schema
  import opened Codec
  import opened RoundTrip
  import opened ParseLaws
  import opened Dispatch

  /** The records the envelope takes into its fields. */
  predicate EnvelopeKnows(r: Record) {
    r.body.Varint? && (r.num == 1 || r.num == 2)
  }

  function Others(rs: seq<Record>): seq<Record> {
    if rs == [] then []
    else (if EnvelopeKnows(rs[0]) then [] else [rs[0]]) + Others(rs[1..])
  }

  /** The int in field `n` after some records, `i` before them. */
  function LastInt(rs: seq<Record>, n: nat, i: Int32): Int32 {
    if rs == [] then i else LastInt(rs[1..], n, TakenInt(rs[0], n, i))
  }

  function TakenInt(r: Record, n: nat, i: Int32): Int32 {
    if r.body.Varint? && r.num == n then ToInt32(r.body.v) else i
  }

  /** An int field as it is written: not at all when zero. */
  function Head(n: FieldNum, i: Int32): seq<Record> {
    if i == 0 then [] else [Record(n, Varint(SignExtend(i)))]
  }

  // ---------------------------------------------------------------- reading as the envelope

  /** Only the envelope's two ints, neither at zero. */
  predicate EnvelopeShape(e: Msg) {
    forall n | n in e.fields :: n in {1, 2} && e.fields[n].VInt? && e.fields[n].i != 0
  }

  lemma EnvelopeTakes(depth: nat, e: Msg, r: Record)
    requires EnvelopeShape(e)
    ensures var e' := Apply(Envelope, depth, e, r);
            && e'.Some? && EnvelopeShape(e'.value)
            && e'.value.unknown == e.unknown + (if EnvelopeKnows(r) then [] else [r])
            && IntOf(e'.value, 1) == TakenInt(r, 1, IntOf(e, 1))
            && IntOf(e'.value, 2) == TakenInt(r, 2, IntOf(e, 2))
  {
    assert e.unknown + [] == e.unknown;
  }

  lemma {:induction false} EnvelopeReads(depth: nat, e: Msg, rs: seq<Record>)
    requires EnvelopeShape(e)
    ensures var e' := ApplyAll(Envelope, depth, e, rs);
            && e'.Some? && EnvelopeShape(e'.value)
            && e'.value.unknown == e.unknown + Others(rs)
            && IntOf(e'.value, 1) == LastInt(rs, 1, IntOf(e, 1))
            && IntOf(e'.value, 2) == LastInt(rs, 2, IntOf(e, 2))
    decreases |rs|
  {
    hide Apply, EnvelopeShape, IntOf, TakenInt, EnvelopeKnows;
    if rs == [] {
      assert e.unknown + [] == e.unknown;
    } else {
      EnvelopeTakes(depth, e, rs[0]);
      EnvelopeReads(depth, Apply(Envelope, depth, e, rs[0]).value, rs[1..]);
      var first := if EnvelopeKnows(rs[0]) then [] else [rs[0]];
      assert e.unknown + first + Others(rs[1..]) == e.unknown + (first + Others(rs[1..]));
    }
  }

  // ---------------------------------------------------------------- writing as the envelope

  lemma {:induction false} OnlyUnknownAboveTwo(n: FieldNum, e: Msg, path: seq<nat>, ord: Order)
    requires n >= 3
    ensures RecordsFrom(Envelope, n, e, path, ord) == e.unknown
    decreases LAST + 1 - n
  {
    if n <= LAST {
      OnlyUnknownAboveTwo(n + 1, e, path, ord);
    }
  }

  lemma IntIsHead(c: Cls, n: FieldNum, m: Msg, path: seq<nat>, ord: Order)
    requires FieldOf(c, n) == Some(IntField) && (n in m.fields ==> m.fields[n].VInt? && m.fields[n].i != 0)
    ensures FieldRecords(c, n, m, path, ord) == Head(n, IntOf(m, n))
  {
    hide FieldOf;
  }

  lemma EnvelopeWrites(e: Msg, ord: Order)
    requires EnvelopeShape(e)
    ensures RecordsFrom(Envelope, 1, e, [], ord) == Head(1, IntOf(e, 1)) + (Head(2, IntOf(e, 2)) + e.unknown)
  {
    hide FieldOf, RecordsFrom, FieldRecords;
    FirstFields(Envelope);
    FirstTwo(Envelope, e, [], ord);
    OnlyUnknownAboveTwo(3, e, [], ord);
    IntIsHead(Envelope, 1, e, [], ord);
    IntIsHead(Envelope, 2, e, [], ord);
  }

  lemma FirstTwo(c: Cls, m: Msg, path: seq<nat>, ord: Order)
    ensures RecordsFrom(c, 1, m, path, ord)
         == FieldRecords(c, 1, m, path, ord) + (FieldRecords(c, 2, m, path, ord) + RecordsFrom(c, 3, m, path, ord))
  {
    hide FieldRecords;
    assert RecordsFrom(c, 2, m, path, ord) == FieldRecords(c, 2, m, path, ord) + RecordsFrom(c, 3, m, path, ord);
  }

  // ---------------------------------------------------------------- on records

  /** What the envelope makes of some records. */
  function Rewritten(rs: seq<Record>): seq<Record> {
    Head(1, LastInt(rs, 1, 0)) + (Head(2, LastInt(rs, 2, 0)) + Others(rs))
  }

  lemma {:induction false} OthersWithin(rs: seq<Record>)
    ensures forall r | r in Others(rs) :: r in rs && !EnvelopeKnows(r)
    ensures |Others(rs)| <= |rs|
    ensures |Others(rs)| == |rs| ==> Others(rs) == rs
    ensures Others(rs) == rs <==> forall r | r in rs :: !EnvelopeKnows(r)
  {
    if rs != [] {
      OthersWithin(rs[1..]);
      assert rs == [rs[0]] + rs[1..];
      if |Others(rs)| == |rs| {
        assert Others(rs) == rs;
      }
    }
  }

  /** Records that fit are known from their bytes. */
  lemma BytesTellRecords(depth: nat, rs: seq<Record>, rs': seq<Record>)
    requires (forall r | r in rs :: Shallow(depth, r)) && forall r | r in rs' :: Shallow(depth, r)
    requires |PutRecords(rs)| <= MAX_LEN
    ensures PutRecords(rs) == PutRecords(rs') <==> rs == rs'
  {
    hide Tokenise, PutRecords;
    if PutRecords(rs) == PutRecords(rs') {
      ShortRecordsFit(depth, rs);
      ShortRecordsFit(depth, rs');
      TokenisePut(depth, rs, []);
      TokenisePut(depth, rs', []);
      assert Tokenise(depth, []) == Some([]) by { NothingToTokenise(depth); }
      assert rs + [] == rs && rs' + [] == rs';
    }
  }

  lemma NothingToTokenise(depth: nat)
    ensures Tokenise(depth, []) == Some([])
  {
  }

  /** Reading written bytes as the envelope always succeeds, and writing the envelope gives the bytes of
      the rewritten records: the same bytes exactly if rewriting changes nothing. */
  lemma EnvelopeRewrites(c: Cls, m: Msg, ord: Order, ord': Order)
    requires Ok(c, MAX_DEPTH, m) && |Serialize(c, m, ord)| <= MAX_LEN
    ensures var rs, e := RecordsFrom(c, 1, m, [], ord), Parse(Envelope, Serialize(c, m, ord));
            && e.Some?
            && Serialize(Envelope, e.value, ord') == PutRecords(Rewritten(rs))
            && (Serialize(Envelope, e.value, ord') == Serialize(c, m, ord) <==> Rewritten(rs) == rs)
  {
    hide RecordsFrom, Ok, ApplyAll, PutRecords, Others, LastInt, Shallow;
    var rs := RecordsFrom(c, 1, m, [], ord);
    WrittenIsShallow(c, MAX_DEPTH, 1, m, [], ord);
    ParseRecords(Envelope, MAX_DEPTH, EMPTY, rs);
    EnvelopeReads(MAX_DEPTH, EMPTY, rs);
    var e := ApplyAll(Envelope, MAX_DEPTH, EMPTY, rs).value;
    assert [] + Others(rs) == Others(rs);
    EnvelopeWrites(e, ord');
    OthersWithin(rs);
    forall r | r in Rewritten(rs) ensures Shallow(MAX_DEPTH, r) {
      if r !in Others(rs) { VarintIsShallow(MAX_DEPTH, r); }
    }
    BytesTellRecords(MAX_DEPTH, rs, Rewritten(rs));
  }

  lemma VarintIsShallow(depth: nat, r: Record)
    requires r.body.Varint?
    ensures Shallow(depth, r)
  {
  }

  // ---------------------------------------------------------------- on messages

  predicate NoIds(rs: seq<Record>) {
    forall r | r in rs :: !EnvelopeKnows(r)
  }

  /** An id as the envelope would write it. */
  predicate IsWrittenId(r: Record) {
    r.num == 2 && r.body.Varint? && ToInt32(r.body.v) != 0 && r.body.v == SignExtend(ToInt32(r.body.v))
  }

  /** Field 2 is an int of the class's own; or nothing unknown passes for an id; or what does is written
      as the envelope would write it, is the only one, and comes right after the type. */
  predicate IdsInPlace(c: Cls, m: Msg) {
    || FieldOf(c, 2) == Some(IntField)
    || NoIds(m.unknown)
    || (m.fields.Keys <= {1} && m.unknown != [] && IsWrittenId(m.unknown[0]) && NoIds(m.unknown[1..]))
  }

  /** The records of the fields from number `n`. */
  function KnownRecords(c: Cls, n: FieldNum, m: Msg, ord: Order): seq<Record> {
    RecordsFrom(c, n, m.(unknown := []), [], ord)
  }

  lemma {:induction false} KnownThenUnknown(c: Cls, n: FieldNum, m: Msg, ord: Order)
    ensures RecordsFrom(c, n, m, [], ord) == KnownRecords(c, n, m, ord) + m.unknown
    decreases LAST + 1 - n
  {
    hide FieldOf, ValRecords;
    if n <= LAST {
      KnownThenUnknown(c, n + 1, m, ord);
      var f, k := FieldRecords(c, n, m, [], ord), KnownRecords(c, n + 1, m, ord);
      assert FieldRecords(c, n, m.(unknown := []), [], ord) == f;
      assert f + (k + m.unknown) == f + k + m.unknown;
    }
  }

  lemma KnownNext(c: Cls, n: FieldNum, m: Msg, ord: Order)
    ensures KnownRecords(c, n, m, ord)
         == if n > LAST then [] else FieldRecords(c, n, m, [], ord) + KnownRecords(c, n + 1, m, ord)
  {
    hide FieldOf, ValRecords;
    var known := m.(unknown := []);
    assert FieldRecords(c, n, known, [], ord) == FieldRecords(c, n, m, [], ord);
    if n <= LAST {
      assert RecordsFrom(c, n, known, [], ord)
          == FieldRecords(c, n, known, [], ord) + RecordsFrom(c, n + 1, known, [], ord);
    }
  }

  /** Above field 1, known fields give the envelope nothing unless field 2 is an int. */
  lemma {:induction false} KnownGiveNothing(c: Cls, n: FieldNum, m: Msg, ord: Order)
    requires n >= 3 || (n == 2 && (FieldOf(c, 2).None? || FieldOf(c, 2).value.MapField?))
    ensures NoIds(KnownRecords(c, n, m, ord))
    decreases LAST + 1 - n
  {
    hide FieldOf, ValRecords, KnownRecords;
    KnownNext(c, n, m, ord);
    if n <= LAST {
      KnownGiveNothing(c, n + 1, m, ord);
      var k := FieldOf(c, n);
      if k.Some? && n in m.fields {
        NoGroups(k.value, n, m.fields[n], [] + [n], ord);
      }
    }
  }

  lemma {:induction false} OthersConcat(a: seq<Record>, b: seq<Record>)
    ensures Others(a + b) == Others(a) + Others(b)
  {
    if a == [] {
      assert a + b == b;
    } else {
      assert (a + b)[1..] == a[1..] + b;
      OthersConcat(a[1..], b);
    }
  }

  lemma {:induction false} LastIntConcat(a: seq<Record>, b: seq<Record>, n: nat, i: Int32)
    ensures LastInt(a + b, n, i) == LastInt(b, n, LastInt(a, n, i))
  {
    if a == [] {
      assert a + b == b;
    } else {
      assert (a + b)[1..] == a[1..] + b;
      LastIntConcat(a[1..], b, n, TakenInt(a[0], n, i));
    }
  }

  lemma {:induction false} LastIntAbsent(rs: seq<Record>, n: nat, i: Int32)
    requires forall r | r in rs :: !(r.body.Varint? && r.num == n)
    ensures LastInt(rs, n, i) == i
  {
    if rs != [] {
      LastIntAbsent(rs[1..], n, i);
    }
  }

  lemma HeadReads(n: FieldNum, i: Int32)
    requires n in {1, 2}
    ensures LastInt(Head(n, i), n, 0) == i && LastInt(Head(n, i), 3 - n, 0) == 0 && Others(Head(n, i)) == []
  {
    if i != 0 {
      SignExtendSurvives(i);
      assert Head(n, i)[1..] == [];
    }
  }

  /** One or both heads in front of records that give the envelope no type. */
  lemma RewrittenTail(i: Int32, tail: seq<Record>)
    requires forall r | r in tail :: !(r.body.Varint? && r.num == 1)
    ensures Rewritten(Head(1, i) + tail) == Head(1, i) + (Head(2, LastInt(tail, 2, 0)) + Others(tail))
  {
    var h := Head(1, i);
    HeadReads(1, i);
    LastIntConcat(h, tail, 1, 0);
    LastIntConcat(h, tail, 2, 0);
    OthersConcat(h, tail);
    LastIntAbsent(tail, 1, i);
    assert [] + Others(tail) == Others(tail);
  }

  lemma SameAfter(h: seq<Record>, a: seq<Record>, b: seq<Record>)
    ensures h + a == h + b <==> a == b
  {
    if h + a == h + b {
      assert a == (h + a)[|h|..] && b == (h + b)[|h|..];
    }
  }

  /** The class has an int of its own in field 2. */
  lemma RewritingOwnId(j: Int32, rest: seq<Record>)
    requires NoIds(rest)
    ensures var tail := Head(2, j) + rest; Head(2, LastInt(tail, 2, 0)) + Others(tail) == tail
  {
    HeadReads(2, j);
    LastIntConcat(Head(2, j), rest, 2, 0);
    LastIntAbsent(rest, 2, j);
    OthersConcat(Head(2, j), rest);
    OthersWithin(rest);
    assert [] + Others(rest) == Others(rest);
  }

  /** The class has none: `known` are its fields, and `unknown` may pass for ids. */
  lemma RewritingUnknownId(known: seq<Record>, unknown: seq<Record>)
    requires NoIds(known) && forall r | r in unknown :: !(r.body.Varint? && r.num == 1)
    ensures var tail := known + unknown;
            Head(2, LastInt(tail, 2, 0)) + Others(tail) == tail <==>
            NoIds(unknown) || (known == [] && unknown != [] && IsWrittenId(unknown[0]) && NoIds(unknown[1..]))
  {
    hide Others, LastInt, EnvelopeKnows, IsWrittenId;
    var tail := known + unknown;
    LastIntConcat(known, unknown, 2, 0);
    IdsAreKnown(known);
    LastIntAbsent(known, 2, 0);
    OthersConcat(known, unknown);
    OthersWithin(known);
    OthersWithin(unknown);
    if NoIds(unknown) {
      IdsAreKnown(unknown);
      LastIntAbsent(unknown, 2, 0);
      assert [] + tail == tail;
    } else if Head(2, LastInt(tail, 2, 0)) + Others(tail) == tail {
      OnlyInPlace(known, unknown);
    } else if known == [] && unknown != [] && IsWrittenId(unknown[0]) && NoIds(unknown[1..]) {
      assert tail == unknown;
      InPlaceStays(unknown);
    }
  }

  lemma IdsAreKnown(rs: seq<Record>)
    requires NoIds(rs)
    ensures forall r | r in rs :: !(r.body.Varint? && r.num == 2)
  {
  }

  lemma FirstIsNot(known: seq<Record>, r: Record)
    requires NoIds(known) && EnvelopeKnows(r)
    ensures known == [] || known[0] != r
  {
  }

  lemma OnlyInPlace(known: seq<Record>, unknown: seq<Record>)
    requires NoIds(known) && !NoIds(unknown)
    requires var tail := known + unknown; Head(2, LastInt(tail, 2, 0)) + Others(tail) == tail
    ensures known == [] && unknown != [] && IsWrittenId(unknown[0]) && NoIds(unknown[1..])
  {
    hide Others, LastInt;
    var tail := known + unknown;
    var i := LastInt(tail, 2, 0);
    OthersConcat(known, unknown);
    OthersWithin(known);
    OthersWithin(unknown);
    assert |Others(tail)| < |tail|;
    SignExtendSurvives(i);
    assert tail[0] == Record(2, Varint(SignExtend(i))) && tail[1..] == Others(tail);
    FirstIsNot(known, tail[0]);
    assert tail == unknown;
    OthersWithin(tail);
  }

  lemma InPlaceStays(unknown: seq<Record>)
    requires unknown != [] && IsWrittenId(unknown[0]) && NoIds(unknown[1..])
    ensures Head(2, LastInt(unknown, 2, 0)) + Others(unknown) == unknown
  {
    OthersWithin(unknown[1..]);
    LastIntAbsent(unknown[1..], 2, ToInt32(unknown[0].body.v));
    assert unknown == [unknown[0]] + unknown[1..];
    assert [] + Others(unknown[1..]) == unknown[1..];
  }

  /** A field that is present is written. */
  lemma {:induction false} PresentIsWritten(c: Cls, n: FieldNum, m: Msg, ord: Order, i: nat)
    requires Ok(c, MAX_DEPTH, m) && i in m.fields && n <= i
    ensures KnownRecords(c, n, m, ord) != []
    decreases LAST + 1 - n
  {
    hide FieldOf, ValOk, Ok, ValRecords, KnownRecords;
    FieldIsOk(c, MAX_DEPTH, m, i);
    KnownNext(c, n, m, ord);
    if n < i {
      PresentIsWritten(c, n + 1, m, ord, i);
    } else {
      ValueIsWritten(FieldOf(c, n).value, n, m.fields[n], [] + [n], ord);
    }
  }

  lemma ValueIsWritten(k: Kind, n: FieldNum, v: Val, path: seq<nat>, ord: Order)
    requires ValOk(k, MAX_DEPTH, v)
    ensures ValRecords(k, n, v, path, ord) != []
  {
    hide EntryOk, NestedOk, SerializeAt, EntryBytes;
    if k.MapField? {
      var keys := ord(path, v.entries);
      assert IsListing(keys, v.entries.Keys);
      var key :| key in v.entries;
      assert key in keys;
    }
  }

  lemma {:induction false} NoneAbove(c: Cls, n: FieldNum, m: Msg, ord: Order)
    requires forall i | i in m.fields :: i < n
    ensures KnownRecords(c, n, m, ord) == []
    decreases LAST + 1 - n
  {
    hide FieldOf, ValRecords, KnownRecords;
    KnownNext(c, n, m, ord);
    if n <= LAST {
      NoneAbove(c, n + 1, m, ord);
    }
  }

  lemma NoUnknownType(c: Cls, m: Msg)
    requires (IsTop(c) || c == Envelope) && Ok(c, MAX_DEPTH, m)
    ensures forall r | r in m.unknown :: !(r.body.Varint? && r.num == 1)
    ensures FieldOf(c, 2) == Some(IntField) ==> NoIds(m.unknown)
  {
    hide FieldOf, ValOk, Shallow;
    FirstFields(c);
  }

  /** Envelope transparency, negative enums included: a written message that is read as the envelope
      and written again has the same bytes if and only if the ids among its unknown fields are in place. */
  lemma EnvelopeIsTransparent(c: Cls, m: Msg, ord: Order, ord': Order)
    requires IsTop(c) && Ok(c, MAX_DEPTH, m) && |Serialize(c, m, ord)| <= MAX_LEN
    ensures var e := Parse(Envelope, Serialize(c, m, ord));
            e.Some? && (Serialize(Envelope, e.value, ord') == Serialize(c, m, ord) <==> IdsInPlace(c, m))
  {
    hide RecordsFrom, KnownRecords, FieldRecords, Parse, Serialize, Ok, Rewritten, Head, LastInt, Others, FieldOf,
         NoIds;
    EnvelopeRewrites(c, m, ord, ord');
    FirstFields(c);
    NoUnknownType(c, m);
    TypeIsHead(c, m, ord);
    if FieldOf(c, 2) == Some(IntField) {
      TransparentWithOwnId(c, m, ord);
    } else {
      TransparentWithout(c, m, ord);
    }
  }

  lemma TypeIsHead(c: Cls, m: Msg, ord: Order)
    requires IsTop(c) && Ok(c, MAX_DEPTH, m)
    ensures RecordsFrom(c, 1, m, [], ord) == Head(1, IntOf(m, 1)) + RecordsFrom(c, 2, m, [], ord)
  {
    hide FieldOf, Ok, FieldRecords, Head;
    FirstFields(c);
    FieldIsOk(c, MAX_DEPTH, m, 1);
    IntIsHead(c, 1, m, [], ord);
  }

  lemma TransparentWithOwnId(c: Cls, m: Msg, ord: Order)
    requires IsTop(c) && Ok(c, MAX_DEPTH, m) && FieldOf(c, 2) == Some(IntField)
    ensures Rewritten(RecordsFrom(c, 1, m, [], ord)) == RecordsFrom(c, 1, m, [], ord)
  {
    hide FieldOf, Ok, RecordsFrom, Head, LastInt, Others, Rewritten, KnownRecords, FieldRecords;
    TypeIsHead(c, m, ord);
    NoUnknownType(c, m);
    FieldIsOk(c, MAX_DEPTH, m, 2);
    IntIsHead(c, 2, m, [], ord);
    KnownThenUnknown(c, 3, m, ord);
    KnownGiveNothing(c, 3, m, ord);
    var rest := RecordsFrom(c, 3, m, [], ord);
    assert RecordsFrom(c, 2, m, [], ord) == Head(2, IntOf(m, 2)) + rest by { SecondAndRest(c, m, ord); }
    RewritingOwnId(IntOf(m, 2), rest);
    assert forall r | r in Head(2, IntOf(m, 2)) :: r.num == 2 by { HeadNumber(2, IntOf(m, 2)); }
    RewrittenTail(IntOf(m, 1), RecordsFrom(c, 2, m, [], ord));
  }

  lemma HeadNumber(n: FieldNum, i: Int32)
    ensures forall r | r in Head(n, i) :: r.num == n
  {
  }

  lemma SecondAndRest(c: Cls, m: Msg, ord: Order)
    ensures RecordsFrom(c, 2, m, [], ord) == FieldRecords(c, 2, m, [], ord) + RecordsFrom(c, 3, m, [], ord)
  {
    hide FieldRecords;
  }

  lemma TransparentWithout(c: Cls, m: Msg, ord: Order)
    requires IsTop(c) && Ok(c, MAX_DEPTH, m) && (FieldOf(c, 2).None? || FieldOf(c, 2).value.MapField?)
    ensures Rewritten(RecordsFrom(c, 1, m, [], ord)) == RecordsFrom(c, 1, m, [], ord) <==> IdsInPlace(c, m)
  {
    hide FieldOf, Ok, RecordsFrom, Head, LastInt, Others, Rewritten, KnownRecords, FieldRecords, IsWrittenId;
    TypeIsHead(c, m, ord);
    NoUnknownType(c, m);
    KnownThenUnknown(c, 2, m, ord);
    KnownGiveNothing(c, 2, m, ord);
    var known, tail := KnownRecords(c, 2, m, ord), RecordsFrom(c, 2, m, [], ord);
    RewrittenTail(IntOf(m, 1), tail);
    RewritingUnknownId(known, m.unknown);
    SameAfter(Head(1, IntOf(m, 1)), Head(2, LastInt(tail, 2, 0)) + Others(tail), tail);
    if m.fields.Keys <= {1} {
      NoneAbove(c, 2, m, ord);
    } else {
      var i :| i in m.fields && i != 1;
      FieldIsOk(c, MAX_DEPTH, m, i);
      PresentIsWritten(c, 2, m, ord, i);
    }
  }
}
