/** The protobuf wire format, class-independent part: varints, tags, and the record
    (tag and value) as the unit that every generated parse loop consumes and every
    generated serializer emits.  The library routines behind it (ReadTag, ReadVarint64,
    ReadSize, UnknownFieldParse and their writers) follow the sections "Base 128 Varints"
    and "Message Structure" of the Protocol Buffers Encoding guide. */
module Wire {

  type Byte = b: int | 0 <= b < 256
  type Bytes = seq<Byte>
  type U64 = v: int | 0 <= v < 0x1_0000_0000_0000_0000
  type Int32 = i: int | -0x8000_0000 <= i < 0x8000_0000
  type FieldNum = n: int | 1 <= n < 0x2000_0000 witness 1
  /** A double is its eight bytes: the codec never computes with it. */
  type Double = d: Bytes | |d| == 8 witness [0, 0, 0, 0, 0, 0, 0, 0]
  type Word32 = w: Bytes | |w| == 4 witness [0, 0, 0, 0]

  const ZERO: Double := [0, 0, 0, 0, 0, 0, 0, 0]
  /** A length-delimited value is shorter than 2 GiB. */
  const MAX_LEN := 0x7FFF_FFFF
  /** Nesting budget of one parse: every message, map entry or group on the way down takes one. */
  const MAX_DEPTH: nat := 100

  datatype Option<+T> = None | Some(value: T)

  /** What a read leaves: the value and the bytes after it. */
  datatype Taken<+T> = Bad | Took(value: T, rest: Bytes)

  datatype Record = Record(num: FieldNum, body: Body)
  datatype Body =
    | Varint(v: U64)
    | Fixed64(bits: Double)
    | Len(data: Bytes)
    | Group(fields: seq<Record>)
    | Fixed32(word: Word32)

  function WireType(b: Body): nat {
    match b
    case Varint(_) => 0
    case Fixed64(_) => 1
    case Len(_) => 2
    case Group(_) => 3
    case Fixed32(_) => 5
  }

  // ---------------------------------------------------------------- varints

  function EncodeVarint(v: nat): (b: Bytes)
    ensures |b| >= 1
  {
    if v < 128 then [v] else [v % 128 + 128] + EncodeVarint(v / 128)
  }

  /** Reads at most `max` bytes; the result is not yet cut to the width the caller stores. */
  function TakeVarint(max: nat, b: Bytes): (t: Taken<nat>)
    ensures t.Took? ==> |t.rest| < |b|
  {
    if max == 0 || b == [] then Bad
    else if b[0] < 128 then Took(b[0], b[1..])
    else
      match TakeVarint(max - 1, b[1..])
      case Bad => Bad
      case Took(v, rest) => Took(b[0] - 128 + 128 * v, rest)
  }

  function Pow128(k: nat): nat {
    if k == 0 then 1 else 128 * Pow128(k - 1)
  }

  lemma {:induction false} VarintLength(v: nat, k: nat)
    requires k > 0 && v < Pow128(k)
    ensures |EncodeVarint(v)| <= k
  {
    if v >= 128 {
      VarintLength(v / 128, k - 1);
    }
  }

  lemma {:induction false} TakeEncodedVarint(max: nat, v: nat, rest: Bytes)
    requires |EncodeVarint(v)| <= max
    ensures TakeVarint(max, EncodeVarint(v) + rest) == Took(v, rest)
  {
    var b := EncodeVarint(v) + rest;
    if v < 128 {
      assert b[1..] == rest;
    } else {
      assert b[1..] == EncodeVarint(v / 128) + rest;
      TakeEncodedVarint(max - 1, v / 128, rest);
    }
  }

  lemma TakeEncodedU64(v: U64, rest: Bytes)
    ensures |EncodeVarint(v)| <= 10
    ensures TakeVarint(10, EncodeVarint(v) + rest) == Took(v, rest)
  {
    assert Pow128(5) == 0x8_0000_0000;
    assert Pow128(10) == 0x8_0000_0000 * 0x8_0000_0000;
    VarintLength(v, 10);
    TakeEncodedVarint(10, v, rest);
  }

  lemma TakeEncodedU32(v: nat, rest: Bytes)
    requires v < 0x1_0000_0000
    ensures |EncodeVarint(v)| <= 5
    ensures TakeVarint(5, EncodeVarint(v) + rest) == Took(v, rest)
  {
    assert Pow128(5) == 0x8_0000_0000;
    VarintLength(v, 5);
    TakeEncodedVarint(5, v, rest);
  }

  /** Enums and int32 fields are written as 64-bit two's complement ... */
  function SignExtend(i: Int32): U64 {
    if i >= 0 then i else i + 0x1_0000_0000_0000_0000
  }

  /** ... and read back by truncation to 32 bits. */
  function ToInt32(v: nat): (i: Int32)
    ensures (v - i) % 0x1_0000_0000 == 0
  {
    var w := v % 0x1_0000_0000;
    if w < 0x8000_0000 then w else w - 0x1_0000_0000
  }

  lemma SignExtendSurvives(i: Int32)
    ensures ToInt32(SignExtend(i)) == i
  {
  }

  // ---------------------------------------------------------------- writing records

  function PutTag(num: FieldNum, wireType: nat): Bytes
    requires wireType < 8
  {
    EncodeVarint(num * 8 + wireType)
  }

  function PutLen(data: Bytes): Bytes {
    EncodeVarint(|data|) + data
  }

  function PutRecord(r: Record): (b: Bytes)
    ensures |b| >= 1
    decreases r, 1
  {
    PutTag(r.num, WireType(r.body)) + PutBody(r)
  }

  function PutBody(r: Record): Bytes
    decreases r, 0
  {
    match r.body
    case Varint(v) => EncodeVarint(v)
    case Fixed64(bits) => bits
    case Len(data) => PutLen(data)
    case Group(fields) => PutRecords(fields) + PutTag(r.num, 4)
    case Fixed32(word) => word
  }

  function PutRecords(rs: seq<Record>): Bytes
    decreases rs, 0
  {
    if rs == [] then [] else PutRecord(rs[0]) + PutRecords(rs[1..])
  }

  lemma {:induction false} PutRecordsConcat(a: seq<Record>, b: seq<Record>)
    ensures PutRecords(a + b) == PutRecords(a) + PutRecords(b)
  {
    if a == [] {
      assert a + b == b;
    } else {
      assert (a + b)[0] == a[0] && (a + b)[1..] == a[1..] + b;
      PutRecordsConcat(a[1..], b);
    }
  }

  // ---------------------------------------------------------------- reading records

  datatype Tag = Tag(num: nat, wireType: nat)

  /** A tag is a varint of at most five bytes, kept modulo 2^32. */
  function TakeTag(b: Bytes): (t: Taken<Tag>)
    ensures t.Took? ==> |t.rest| < |b| && t.value.num < 0x2000_0000 && t.value.wireType < 8
  {
    match TakeVarint(5, b)
    case Bad => Bad
    case Took(v, rest) =>
      var tag := v % 0x1_0000_0000;
      Took(Tag(tag / 8, tag % 8), rest)
  }

  function TakeFixed(n: nat, b: Bytes): (t: Taken<Bytes>)
    ensures t.Took? ==> |t.value| == n && b == t.value + t.rest
  {
    if |b| < n then Bad else Took(b[..n], b[n..])
  }

  /** Length prefix and that many bytes; a value that would run past the enclosing limit is refused. */
  function TakeLen(b: Bytes): (t: Taken<Bytes>)
    ensures t.Took? ==> |t.rest| < |b| && |t.value| < |b| && |t.value| <= MAX_LEN
  {
    match TakeVarint(5, b)
    case Bad => Bad
    case Took(n, rest) => if n > MAX_LEN then Bad else TakeFixed(n, rest)
  }

  function TakeBody(depth: nat, tag: Tag, b: Bytes): (t: Taken<Body>)
    ensures t.Took? ==> |t.rest| <= |b|
    decreases |b|, 1
  {
    match tag.wireType
    case 0 =>
      (match TakeVarint(10, b)
       case Bad => Bad
       case Took(v, rest) => Took(Varint(v % 0x1_0000_0000_0000_0000), rest))
    case 1 =>
      (match TakeFixed(8, b)
       case Bad => Bad
       case Took(x, rest) => Took(Fixed64(x), rest))
    case 2 =>
      (match TakeLen(b)
       case Bad => Bad
       case Took(x, rest) => Took(Len(x), rest))
    case 3 =>
      if depth == 0 then Bad else
      (match TakeGroup(depth - 1, tag.num, b)
       case Bad => Bad
       case Took(rs, rest) => Took(Group(rs), rest))
    case 5 =>
      (match TakeFixed(4, b)
       case Bad => Bad
       case Took(x, rest) => Took(Fixed32(x), rest))
    case _ => Bad
  }

  /** One record.  A zero field number, wire types 6 and 7, and an end-group tag outside its group fail. */
  function TakeRecord(depth: nat, b: Bytes): (t: Taken<Record>)
    ensures t.Took? ==> |t.rest| < |b|
    decreases |b|, 0
  {
    match TakeTag(b)
    case Bad => Bad
    case Took(tag, rest) =>
      if tag.num == 0 then Bad else
      match TakeBody(depth, tag, rest)
      case Bad => Bad
      case Took(body, rest') => Took(Record(tag.num, body), rest')
  }

  /** The records up to the end-group tag of field `num`. */
  function TakeGroup(depth: nat, num: nat, b: Bytes): (t: Taken<seq<Record>>)
    ensures t.Took? ==> |t.rest| < |b|
    decreases |b|, 0
  {
    match TakeTag(b)
    case Bad => Bad
    case Took(tag, rest) =>
      if tag.wireType == 4 then
        if tag.num == num then Took([], rest) else Bad
      else if tag.num == 0 then Bad
      else
        match TakeBody(depth, tag, rest)
        case Bad => Bad
        case Took(body, rest') =>
          match TakeGroup(depth, num, rest')
          case Bad => Bad
          case Took(rs, rest'') => Took([Record(tag.num, body)] + rs, rest'')
  }

  /** All records of a message body. */
  function Tokenise(depth: nat, b: Bytes): Option<seq<Record>>
    decreases |b|
  {
    if b == [] then Some([])
    else
      match TakeRecord(depth, b)
      case Bad => None
      case Took(r, rest) =>
        match Tokenise(depth, rest)
        case None => None
        case Some(rs) => Some([r] + rs)
  }

  // ---------------------------------------------------------------- reading undoes writing

  /** Groups nest within the budget. */
  ghost predicate Shallow(depth: nat, r: Record)
    decreases depth
  {
    r.body.Group? ==> depth > 0 && forall f | f in r.body.fields :: Shallow(depth - 1, f)
  }

  /** Within the budget, and no length-delimited value too long for its prefix. */
  ghost predicate Fits(depth: nat, r: Record)
    decreases depth
  {
    && (r.body.Len? ==> |r.body.data| <= MAX_LEN)
    && (r.body.Group? ==> depth > 0 && forall f | f in r.body.fields :: Fits(depth - 1, f))
  }

  lemma TakePutTag(num: FieldNum, wireType: nat, rest: Bytes)
    requires wireType < 8
    ensures TakeTag(PutTag(num, wireType) + rest) == Took(Tag(num, wireType), rest)
  {
    TakeEncodedU32(num * 8 + wireType, rest);
  }

  lemma TakePutLen(data: Bytes, rest: Bytes)
    requires |data| <= MAX_LEN
    ensures TakeLen(PutLen(data) + rest) == Took(data, rest)
  {
    TakeEncodedU32(|data|, data + rest);
    assert PutLen(data) + rest == EncodeVarint(|data|) + (data + rest);
    assert (data + rest)[..|data|] == data && (data + rest)[|data|..] == rest;
  }

  lemma {:induction false} TakePutBody(depth: nat, r: Record, rest: Bytes)
    requires Fits(depth, r)
    ensures TakeBody(depth, Tag(r.num, WireType(r.body)), PutBody(r) + rest) == Took(r.body, rest)
    decreases depth, 0
  {
    match r.body
    case Varint(v) => TakeEncodedU64(v, rest);
    case Fixed64(bits) => assert (bits + rest)[..8] == bits && (bits + rest)[8..] == rest;
    case Len(data) => TakePutLen(data, rest);
    case Group(fields) =>
      TakePutGroup(depth - 1, r.num, fields, rest);
      assert PutBody(r) + rest == PutRecords(fields) + PutTag(r.num, 4) + rest;
    case Fixed32(word) => assert (word + rest)[..4] == word && (word + rest)[4..] == rest;
  }

  lemma {:induction false} TakePutGroup(depth: nat, num: FieldNum, fs: seq<Record>, rest: Bytes)
    requires forall f | f in fs :: Fits(depth, f)
    ensures TakeGroup(depth, num, PutRecords(fs) + PutTag(num, 4) + rest) == Took(fs, rest)
    decreases depth, |fs| + 1
  {
    hide TakeTag, PutTag, TakeBody, PutBody;
    if fs == [] {
      TakePutTag(num, 4, rest);
      assert PutRecords(fs) + PutTag(num, 4) + rest == PutTag(num, 4) + rest;
    } else {
      var r := fs[0];
      var tail := PutRecords(fs[1..]) + PutTag(num, 4) + rest;
      assert PutRecords(fs) + PutTag(num, 4) + rest == PutTag(r.num, WireType(r.body)) + (PutBody(r) + tail);
      TakePutTag(r.num, WireType(r.body), PutBody(r) + tail);
      TakePutBody(depth, r, tail);
      TakePutGroup(depth, num, fs[1..], rest);
      assert fs == [r] + fs[1..];
    }
  }

  lemma TakePutRecord(depth: nat, r: Record, rest: Bytes)
    requires Fits(depth, r)
    ensures TakeRecord(depth, PutRecord(r) + rest) == Took(r, rest)
  {
    assert PutRecord(r) + rest == PutTag(r.num, WireType(r.body)) + (PutBody(r) + rest);
    TakePutTag(r.num, WireType(r.body), PutBody(r) + rest);
    TakePutBody(depth, r, rest);
  }

  /** A record in front of records already read, or of a failure. */
  function Prepend(r: Record, rs: Option<seq<Record>>): Option<seq<Record>> {
    if rs.Some? then Some([r] + rs.value) else None
  }

  function PrependAll(a: seq<Record>, rs: Option<seq<Record>>): Option<seq<Record>> {
    if rs.Some? then Some(a + rs.value) else None
  }

  lemma PrependTwice(a: seq<Record>, rs: Option<seq<Record>>)
    requires a != []
    ensures Prepend(a[0], PrependAll(a[1..], rs)) == PrependAll(a, rs)
  {
    assert rs.Some? ==> [a[0]] + (a[1..] + rs.value) == a + rs.value;
  }

  lemma TokeniseCons(depth: nat, r: Record, rest: Bytes)
    requires Fits(depth, r)
    ensures Tokenise(depth, PutRecord(r) + rest) == Prepend(r, Tokenise(depth, rest))
  {
    TakePutRecord(depth, r, rest);
  }

  /** Written records come back first, whatever follows them. */
  lemma {:induction false} TokenisePut(depth: nat, rs: seq<Record>, rest: Bytes)
    requires forall r | r in rs :: Fits(depth, r)
    ensures Tokenise(depth, PutRecords(rs) + rest) == PrependAll(rs, Tokenise(depth, rest))
  {
    hide TakeRecord, PutRecord;
    var whole, t := PutRecords(rs) + rest, Tokenise(depth, rest);
    if rs == [] {
      assert whole == rest;
      assert t.Some? ==> rs + t.value == t.value;
    } else {
      var tail := PutRecords(rs[1..]) + rest;
      TokenisePut(depth, rs[1..], rest);
      TokeniseCons(depth, rs[0], tail);
      assert whole == PutRecord(rs[0]) + tail;
      assert Tokenise(depth, whole) == Prepend(rs[0], PrependAll(rs[1..], t));
      PrependTwice(rs, t);
    }
  }

  /** Whatever is read from bytes can be written and read again. */
  lemma {:induction false} TakenBodyFits(depth: nat, tag: Tag, b: Bytes)
    requires 1 <= tag.num < 0x2000_0000
    ensures var t := TakeBody(depth, tag, b);
            t.Took? ==> Fits(depth, Record(tag.num, t.value)) && WireType(t.value) == tag.wireType
    decreases |b|, 1
  {
    if tag.wireType == 3 && depth > 0 {
      TakenGroupFits(depth - 1, tag.num, b);
    }
  }

  lemma {:induction false} TakenGroupFits(depth: nat, num: nat, b: Bytes)
    ensures var t := TakeGroup(depth, num, b);
            t.Took? ==> forall f | f in t.value :: Fits(depth, f)
    decreases |b|, 0
  {
    var t := TakeTag(b);
    if t.Took? && t.value.wireType != 4 && t.value.num != 0 {
      TakenBodyFits(depth, t.value, t.rest);
      var u := TakeBody(depth, t.value, t.rest);
      if u.Took? {
        TakenGroupFits(depth, num, u.rest);
      }
    }
  }

  lemma {:induction false} TokensFit(depth: nat, b: Bytes)
    ensures var t := Tokenise(depth, b);
            t.Some? ==> forall r | r in t.value :: Fits(depth, r)
    decreases |b|
  {
    if b != [] {
      var t := TakeTag(b);
      if t.Took? && t.value.num != 0 {
        TakenBodyFits(depth, t.value, t.rest);
      }
      var u := TakeRecord(depth, b);
      if u.Took? {
        TokensFit(depth, u.rest);
      }
    }
  }

  lemma {:induction false} FitsIsShallow(depth: nat, r: Record)
    requires Fits(depth, r)
    ensures Shallow(depth, r)
    decreases depth
  {
    if r.body.Group? {
      forall f | f in r.body.fields ensures Shallow(depth - 1, f) {
        FitsIsShallow(depth - 1, f);
      }
    }
  }

  lemma {:induction false} PutRecordsBounds(rs: seq<Record>, r: Record)
    requires r in rs
    ensures |PutRecord(r)| <= |PutRecords(rs)|
  {
    if r != rs[0] {
      PutRecordsBounds(rs[1..], r);
    }
  }

  /** A record whose bytes stay under the limit has no value above it. */
  lemma {:induction false} ShortFits(depth: nat, r: Record)
    requires Shallow(depth, r) && |PutRecord(r)| <= MAX_LEN
    ensures Fits(depth, r)
    decreases depth
  {
    assert |PutRecord(r)| >= |PutBody(r)|;
    if r.body.Group? {
      forall f | f in r.body.fields ensures Fits(depth - 1, f) {
        PutRecordsBounds(r.body.fields, f);
        ShortFits(depth - 1, f);
      }
    }
  }

  // ---------------------------------------------------------------- reading does not look ahead

  lemma {:induction false} VarintExtends(max: nat, a: Bytes, b: Bytes)
    requires TakeVarint(max, a).Took?
    ensures TakeVarint(max, a + b) == Took(TakeVarint(max, a).value, TakeVarint(max, a).rest + b)
  {
    assert (a + b)[1..] == a[1..] + b;
    if a[0] >= 128 {
      VarintExtends(max - 1, a[1..], b);
    }
  }

  lemma FixedExtends(n: nat, a: Bytes, b: Bytes)
    requires TakeFixed(n, a).Took?
    ensures TakeFixed(n, a + b) == Took(TakeFixed(n, a).value, TakeFixed(n, a).rest + b)
  {
    assert (a + b)[..n] == a[..n] && (a + b)[n..] == a[n..] + b;
  }

  lemma TagExtends(a: Bytes, b: Bytes)
    requires TakeTag(a).Took?
    ensures TakeTag(a + b) == Took(TakeTag(a).value, TakeTag(a).rest + b)
  {
    VarintExtends(5, a, b);
  }

  lemma {:induction false} BodyExtends(depth: nat, tag: Tag, a: Bytes, b: Bytes)
    requires TakeBody(depth, tag, a).Took?
    ensures TakeBody(depth, tag, a + b) == Took(TakeBody(depth, tag, a).value, TakeBody(depth, tag, a).rest + b)
    decreases |a|, 1
  {
    match tag.wireType
    case 0 => VarintExtends(10, a, b);
    case 1 => FixedExtends(8, a, b);
    case 2 =>
      VarintExtends(5, a, b);
      FixedExtends(TakeVarint(5, a).value, TakeVarint(5, a).rest, b);
    case 3 => GroupExtends(depth - 1, tag.num, a, b);
    case 5 => FixedExtends(4, a, b);
  }

  lemma {:induction false} GroupExtends(depth: nat, num: nat, a: Bytes, b: Bytes)
    requires TakeGroup(depth, num, a).Took?
    ensures TakeGroup(depth, num, a + b) == Took(TakeGroup(depth, num, a).value, TakeGroup(depth, num, a).rest + b)
    decreases |a|, 0
  {
    hide TakeBody, TakeTag;
    TagExtends(a, b);
    var t := TakeTag(a);
    if t.value.wireType != 4 {
      BodyExtends(depth, t.value, t.rest, b);
      GroupExtends(depth, num, TakeBody(depth, t.value, t.rest).rest, b);
    }
  }

  /** A record read from some bytes is read from any longer ones, and what follows is left alone. */
  lemma RecordExtends(depth: nat, a: Bytes, b: Bytes)
    requires TakeRecord(depth, a).Took?
    ensures TakeRecord(depth, a + b) == Took(TakeRecord(depth, a).value, TakeRecord(depth, a).rest + b)
  {
    hide TakeBody, TakeTag;
    TagExtends(a, b);
    BodyExtends(depth, TakeTag(a).value, TakeTag(a).rest, b);
  }

  lemma {:induction false} TokeniseExtends(depth: nat, a: Bytes, b: Bytes)
    requires Tokenise(depth, a).Some?
    ensures Tokenise(depth, a + b) == PrependAll(Tokenise(depth, a).value, Tokenise(depth, b))
    decreases |a|
  {
    hide TakeRecord;
    var t := Tokenise(depth, b);
    if a == [] {
      assert a + b == b;
      assert t.Some? ==> [] + t.value == t.value;
    } else {
      RecordExtends(depth, a, b);
      var u := TakeRecord(depth, a);
      TokeniseExtends(depth, u.rest, b);
      PrependTwice(Tokenise(depth, a).value, t);
      assert Tokenise(depth, a).value[1..] == Tokenise(depth, u.rest).value;
    }
  }

  // ---------------------------------------------------------------- a read that ends within a limit stays within it

  lemma {:induction false} VarintWithin(max: nat, a: Bytes, b: Bytes)
    requires TakeVarint(max, a + b).Took? && |TakeVarint(max, a + b).rest| >= |b|
    ensures TakeVarint(max, a).Took?
  {
    assert [] + b == b;
    if a == [] {
      assert false;
    } else {
      assert (a + b)[1..] == a[1..] + b;
      if a[0] >= 128 {
        VarintWithin(max - 1, a[1..], b);
      }
    }
  }

  lemma TagWithin(a: Bytes, b: Bytes)
    requires TakeTag(a + b).Took? && |TakeTag(a + b).rest| >= |b|
    ensures TakeTag(a).Took?
  {
    VarintWithin(5, a, b);
  }

  lemma LenWithin(a: Bytes, b: Bytes)
    requires TakeLen(a + b).Took? && |TakeLen(a + b).rest| >= |b|
    ensures TakeLen(a).Took?
  {
    VarintWithin(5, a, b);
    VarintExtends(5, a, b);
  }

  lemma {:induction false} BodyWithin(depth: nat, tag: Tag, a: Bytes, b: Bytes)
    requires TakeBody(depth, tag, a + b).Took? && |TakeBody(depth, tag, a + b).rest| >= |b|
    ensures TakeBody(depth, tag, a).Took?
    decreases |a|, 1
  {
    match tag.wireType
    case 0 => VarintWithin(10, a, b);
    case 1 =>
    case 2 => LenWithin(a, b);
    case 3 => GroupWithin(depth - 1, tag.num, a, b);
    case 5 =>
  }

  lemma {:induction false} GroupWithin(depth: nat, num: nat, a: Bytes, b: Bytes)
    requires TakeGroup(depth, num, a + b).Took? && |TakeGroup(depth, num, a + b).rest| >= |b|
    ensures TakeGroup(depth, num, a).Took?
    decreases |a|, 0
  {
    hide TakeBody, TakeTag;
    var t := TakeTag(a + b);
    if t.value.wireType == 4 {
      TagWithin(a, b);
      TagExtends(a, b);
    } else {
      var u := TakeBody(depth, t.value, t.rest);
      TagWithin(a, b);
      TagExtends(a, b);
      BodyWithin(depth, t.value, TakeTag(a).rest, b);
      BodyExtends(depth, t.value, TakeTag(a).rest, b);
      GroupWithin(depth, num, TakeBody(depth, t.value, TakeTag(a).rest).rest, b);
    }
  }

  lemma RecordWithin(depth: nat, a: Bytes, b: Bytes)
    requires TakeRecord(depth, a + b).Took? && |TakeRecord(depth, a + b).rest| >= |b|
    ensures TakeRecord(depth, a).Took?
  {
    hide TakeBody, TakeTag;
    TagWithin(a, b);
    TagExtends(a, b);
    BodyWithin(depth, TakeTag(a).value, TakeTag(a).rest, b);
  }
}
