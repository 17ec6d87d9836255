/** The generated codec: parse, serialize, merge.  A parse is stated record by record, one tag
    and value at a time; MessageObject.dfy has the loops of the generated code, proved equal to it. */
module Codec {
  import opened Wire
  import opened Utf8
  import opened Schema

  /** A message object.  A field is absent when it holds its default; for the message-valued
      and oneof fields, absence is what `has_` reports. */
  datatype Msg = Msg(fields: map<nat, Val>, unknown: seq<Record>)

  datatype Val =
    | VInt(i: Int32)
    | VBool(b: bool)
    | VDouble(d: Double)
    | VString(s: Bytes)
    | VMsg(m: Msg)
    | VInts(ints: seq<Int32>)
    | VDoubles(doubles: seq<Double>)
    | VStrings(strings: seq<Bytes>)
    | VMsgs(msgs: seq<Msg>)
    | VMap(entries: map<Bytes, Val>)

  const EMPTY := Msg(map[], [])

  predicate IsDefault(v: Val) {
    match v
    case VInt(i) => i == 0
    case VBool(b) => !b
    case VDouble(d) => d == ZERO
    case VString(s) => s == []
    case VMsg(_) => false
    case VInts(xs) => xs == []
    case VDoubles(xs) => xs == []
    case VStrings(xs) => xs == []
    case VMsgs(xs) => xs == []
    case VMap(es) => es == map[]
  }

  function Put(m: Msg, n: nat, v: Val): Msg {
    m.(fields := m.fields[n := v])
  }

  /** Assigns a field without presence. */
  function Store(m: Msg, n: nat, v: Val): Msg {
    if IsDefault(v) then m.(fields := m.fields - {n}) else Put(m, n, v)
  }

  function OneofFields(c: Cls): set<nat> {
    set n: nat | n <= LAST && FieldOf(c, n).Some? && IsOneof(FieldOf(c, n).value)
  }

  /** Assigns a oneof member: whatever other member was set is cleared. */
  function StoreOneof(c: Cls, m: Msg, n: nat, v: Val): Msg {
    m.(fields := (m.fields - OneofFields(c))[n := v])
  }

  function AddUnknown(m: Msg, r: Record): Msg {
    m.(unknown := m.unknown + [r])
  }

  // ---- getters: the default where the field is absent

  function IntOf(m: Msg, n: nat): Int32 {
    if n in m.fields && m.fields[n].VInt? then m.fields[n].i else 0
  }

  function BoolOf(m: Msg, n: nat): bool {
    n in m.fields && m.fields[n].VBool? && m.fields[n].b
  }

  function DoubleOf(m: Msg, n: nat): Double {
    if n in m.fields && m.fields[n].VDouble? then m.fields[n].d else ZERO
  }

  function StringOf(m: Msg, n: nat): Bytes {
    if n in m.fields && m.fields[n].VString? then m.fields[n].s else []
  }

  function MsgOf(m: Msg, n: nat): Msg {
    if n in m.fields && m.fields[n].VMsg? then m.fields[n].m else EMPTY
  }

  function IntsOf(m: Msg, n: nat): seq<Int32> {
    if n in m.fields && m.fields[n].VInts? then m.fields[n].ints else []
  }

  function DoublesOf(m: Msg, n: nat): seq<Double> {
    if n in m.fields && m.fields[n].VDoubles? then m.fields[n].doubles else []
  }

  function StringsOf(m: Msg, n: nat): seq<Bytes> {
    if n in m.fields && m.fields[n].VStrings? then m.fields[n].strings else []
  }

  function MsgsOf(m: Msg, n: nat): seq<Msg> {
    if n in m.fields && m.fields[n].VMsgs? then m.fields[n].msgs else []
  }

  function EntriesOf(m: Msg, n: nat): map<Bytes, Val> {
    if n in m.fields && m.fields[n].VMap? then m.fields[n].entries else map[]
  }

  /** `at` on a map of messages; None where it throws. */
  function MsgAt(es: map<Bytes, Val>, key: Bytes): Option<Msg> {
    if key in es && es[key].VMsg? then Some(es[key].m) else None
  }

  /** A map entry is parsed as a message; its missing parts are defaults and its unknown fields are dropped. */
  function EntryKey(e: Msg): Bytes {
    StringOf(e, 1)
  }

  function EntryValue(v: MapValue, e: Msg): Val {
    match v
    case IntValue => VInt(IntOf(e, 2))
    case BoolValue => VBool(BoolOf(e, 2))
    case MessageValue(_) => VMsg(MsgOf(e, 2))
  }

  // ---------------------------------------------------------------- packed runs

  /** A packed run of varints, exactly filling its length. */
  function TakeInts(b: Bytes): Option<seq<Int32>>
    decreases |b|
  {
    if b == [] then Some([])
    else
      match TakeVarint(10, b)
      case Bad => None
      case Took(v, rest) =>
        match TakeInts(rest)
        case None => None
        case Some(xs) => Some([ToInt32(v)] + xs)
  }

  function TakeDoubles(b: Bytes): Option<seq<Double>> {
    if b == [] then Some([])
    else if |b| < 8 then None
    else
      match TakeDoubles(b[8..])
      case None => None
      case Some(xs) => Some([b[..8]] + xs)
  }

  function PutInts(xs: seq<Int32>): Bytes {
    if xs == [] then [] else EncodeVarint(SignExtend(xs[0])) + PutInts(xs[1..])
  }

  function PutDoubles(xs: seq<Double>): (b: Bytes)
    ensures |b| == 8 * |xs|
  {
    if xs == [] then [] else xs[0] + PutDoubles(xs[1..])
  }

  // ---------------------------------------------------------------- parse

  /** One record into a message of class `c`: the body of the parse loop. */
  function Apply(c: Cls, depth: nat, m: Msg, r: Record): Option<Msg>
    decreases Rank(c), 1, 0
  {
    if Recognises(c, r.num, WireType(r.body)) then ApplyField(c, FieldOf(c, r.num).value, depth, m, r)
    else Some(AddUnknown(m, r))
  }

  function ApplyField(c: Cls, k: Kind, depth: nat, m: Msg, r: Record): Option<Msg>
    requires Accepts(k, WireType(r.body))
    decreases KindRank(k), 0, 0
  {
    var n := r.num;
    match k
    case IntField => Some(Store(m, n, VInt(ToInt32(r.body.v))))
    case BoolField => Some(Store(m, n, VBool(r.body.v != 0)))
    case DoubleField => Some(Store(m, n, VDouble(r.body.bits)))
    case StringField =>
      if ValidUtf8(r.body.data) then Some(Store(m, n, VString(r.body.data))) else None
    case MessageField(c') =>
      (match ParseNested(c', depth, MsgOf(m, n), r.body.data)
       case None => None
       case Some(x) => Some(Put(m, n, VMsg(x))))
    case PackedInts =>
      (match if r.body.Len? then TakeInts(r.body.data) else Some([ToInt32(r.body.v)])
       case None => None
       case Some(xs) => Some(Store(m, n, VInts(IntsOf(m, n) + xs))))
    case PackedDoubles =>
      (match if r.body.Len? then TakeDoubles(r.body.data) else Some([r.body.bits])
       case None => None
       case Some(xs) => Some(Store(m, n, VDoubles(DoublesOf(m, n) + xs))))
    case Strings =>
      if ValidUtf8(r.body.data) then Some(Store(m, n, VStrings(StringsOf(m, n) + [r.body.data]))) else None
    case Messages(c') =>
      (match ParseNested(c', depth, EMPTY, r.body.data)
       case None => None
       case Some(x) => Some(Store(m, n, VMsgs(MsgsOf(m, n) + [x]))))
    case MapField(v) =>
      (match ParseNested(Entry(v), depth, EMPTY, r.body.data)
       case None => None
       case Some(e) => Some(Put(m, n, VMap(EntriesOf(m, n)[EntryKey(e) := EntryValue(v, e)]))))
    case OneofDouble => Some(StoreOneof(c, m, n, VDouble(r.body.bits)))
    case OneofBool => Some(StoreOneof(c, m, n, VBool(r.body.v != 0)))
    case OneofMessage(c') =>
      (match ParseNested(c', depth, MsgOf(m, n), r.body.data)
       case None => None
       case Some(x) => Some(StoreOneof(c, m, n, VMsg(x))))
  }

  function ApplyAll(c: Cls, depth: nat, m: Msg, rs: seq<Record>): Option<Msg>
    decreases Rank(c), 2, |rs|
  {
    if rs == [] then Some(m)
    else
      match Apply(c, depth, m, rs[0])
      case None => None
      case Some(m') => ApplyAll(c, depth, m', rs[1..])
  }

  /** Parses a whole message body on top of what `m` already holds. */
  function ParseInto(c: Cls, depth: nat, m: Msg, b: Bytes): Option<Msg>
    decreases Rank(c), 3, 0
  {
    match Tokenise(depth, b)
    case None => None
    case Some(rs) => ApplyAll(c, depth, m, rs)
  }

  function ParseNested(c: Cls, depth: nat, m: Msg, b: Bytes): Option<Msg>
    decreases Rank(c), 4, 0
  {
    if depth == 0 then None else ParseInto(c, depth - 1, m, b)
  }

  /** ParseFromString. */
  function Parse(c: Cls, b: Bytes): Option<Msg> {
    ParseInto(c, MAX_DEPTH, EMPTY, b)
  }

  // ---------------------------------------------------------------- serialize

  ghost predicate IsListing(keys: seq<Bytes>, s: set<Bytes>) {
    && (forall k :: k in keys <==> k in s)
    && forall i, j :: 0 <= i < j < |keys| ==> keys[i] != keys[j]
  }

  ghost function AnyListing(s: set<Bytes>): (keys: seq<Bytes>)
    ensures IsListing(keys, s)
  {
    if s == {} then [] else var k :| k in s; [k] + AnyListing(s - {k})
  }

  ghost predicate ListsKeys(f: (seq<nat>, map<Bytes, Val>) -> seq<Bytes>) {
    forall path, es :: IsListing(f(path, es), es.Keys)
  }

  /** The iteration order of every map in a message: a map is known by its contents and by the
      path of field numbers and positions that leads to it, so equal maps may be listed differently. */
  type Order = f: (seq<nat>, map<Bytes, Val>) -> seq<Bytes> | ListsKeys(f)
    ghost witness (path: seq<nat>, es: map<Bytes, Val>) => AnyListing(es.Keys)

  function BoolVarint(b: bool): U64 {
    if b then 1 else 0
  }

  /** The records of one field's value. */
  function ValRecords(k: Kind, n: FieldNum, v: Val, path: seq<nat>, ord: Order): seq<Record>
    decreases KindRank(k), 1, 0
  {
    match (k, v)
    case (IntField, VInt(i)) => [Record(n, Varint(SignExtend(i)))]
    case (BoolField, VBool(b)) => [Record(n, Varint(BoolVarint(b)))]
    case (OneofBool, VBool(b)) => [Record(n, Varint(BoolVarint(b)))]
    case (DoubleField, VDouble(d)) => [Record(n, Fixed64(d))]
    case (OneofDouble, VDouble(d)) => [Record(n, Fixed64(d))]
    case (StringField, VString(s)) => [Record(n, Len(s))]
    case (MessageField(c), VMsg(x)) => [Record(n, Len(SerializeAt(c, x, path, ord)))]
    case (OneofMessage(c), VMsg(x)) => [Record(n, Len(SerializeAt(c, x, path, ord)))]
    case (PackedInts, VInts(xs)) => if xs == [] then [] else [Record(n, Len(PutInts(xs)))]
    case (PackedDoubles, VDoubles(xs)) => if xs == [] then [] else [Record(n, Len(PutDoubles(xs)))]
    case (Strings, VStrings(ss)) => StringRecords(n, ss)
    case (Messages(c), VMsgs(ms)) => MsgRecords(c, n, ms, path, ord)
    case (MapField(mv), VMap(es)) => EntryRecords(mv, n, es, ord(path, es), path, ord)
    case _ => []
  }

  function StringRecords(n: FieldNum, ss: seq<Bytes>): seq<Record> {
    if ss == [] then [] else [Record(n, Len(ss[0]))] + StringRecords(n, ss[1..])
  }

  function MsgRecords(c: Cls, n: FieldNum, ms: seq<Msg>, path: seq<nat>, ord: Order): seq<Record>
    decreases Rank(c) + 1, 0, |ms|
  {
    if ms == [] then []
    else [Record(n, Len(SerializeAt(c, ms[0], path + [|ms|], ord)))] + MsgRecords(c, n, ms[1..], path, ord)
  }

  /** Key and value of an entry are written even when they are defaults. */
  function EntryBytes(mv: MapValue, key: Bytes, v: Val, path: seq<nat>, ord: Order): Bytes
    decreases ValueRank(mv), 2, 0
  {
    PutRecords([Record(1, Len(key))] + ValRecords(ValueKind(mv), 2, v, path, ord))
  }

  function EntryRecords(mv: MapValue, n: FieldNum, es: map<Bytes, Val>, keys: seq<Bytes>,
                        path: seq<nat>, ord: Order): seq<Record>
    requires forall k | k in keys :: k in es
    decreases ValueRank(mv) + 1, 0, |keys|
  {
    if keys == [] then []
    else [Record(n, Len(EntryBytes(mv, keys[0], es[keys[0]], path + [|keys|], ord)))]
         + EntryRecords(mv, n, es, keys[1..], path, ord)
  }

  function FieldRecords(c: Cls, n: FieldNum, m: Msg, path: seq<nat>, ord: Order): seq<Record>
    decreases Rank(c), 2, 0
  {
    var k := FieldOf(c, n);
    if k.Some? && n in m.fields then ValRecords(k.value, n, m.fields[n], path + [n], ord) else []
  }

  /** Fields in ascending order from number `n`, then the unknown fields. */
  function RecordsFrom(c: Cls, n: FieldNum, m: Msg, path: seq<nat>, ord: Order): seq<Record>
    decreases Rank(c), 3, LAST + 1 - n
  {
    if n > LAST then m.unknown
    else FieldRecords(c, n, m, path, ord) + RecordsFrom(c, n + 1, m, path, ord)
  }

  function SerializeAt(c: Cls, m: Msg, path: seq<nat>, ord: Order): Bytes
    decreases Rank(c), 4, 0
  {
    PutRecords(RecordsFrom(c, 1, m, path, ord))
  }

  /** SerializeAsString, with the maps iterated in the order `ord`. */
  function Serialize(c: Cls, m: Msg, ord: Order): Bytes {
    SerializeAt(c, m, [], ord)
  }

  // ---------------------------------------------------------------- merge

  /** The value `v` of field `n` into `acc`. */
  function MergeVal(c: Cls, k: Kind, n: nat, acc: Msg, v: Val): Msg
    decreases KindRank(k), 0, 0
  {
    match (k, v)
    case (MessageField(c'), VMsg(x)) => Put(acc, n, VMsg(Merge(c', MsgOf(acc, n), x)))
    case (PackedInts, VInts(xs)) => Put(acc, n, VInts(IntsOf(acc, n) + xs))
    case (PackedDoubles, VDoubles(xs)) => Put(acc, n, VDoubles(DoublesOf(acc, n) + xs))
    case (Strings, VStrings(xs)) => Put(acc, n, VStrings(StringsOf(acc, n) + xs))
    case (Messages(_), VMsgs(xs)) => Put(acc, n, VMsgs(MsgsOf(acc, n) + xs))
    case (MapField(_), VMap(es)) => Put(acc, n, VMap(EntriesOf(acc, n) + es))
    case (OneofMessage(c'), VMsg(x)) => StoreOneof(c, acc, n, VMsg(Merge(c', MsgOf(acc, n), x)))
    case (OneofDouble, _) => StoreOneof(c, acc, n, v)
    case (OneofBool, _) => StoreOneof(c, acc, n, v)
    case _ => Put(acc, n, v)
  }

  /** One field of `y` into `acc`; scalars at their default are skipped. */
  function MergeField(c: Cls, n: nat, acc: Msg, y: Msg): Msg
    decreases Rank(c), 1, 0
  {
    var k := FieldOf(c, n);
    if k.Some? && n in y.fields then MergeVal(c, k.value, n, acc, y.fields[n]) else acc
  }

  function MergeRest(c: Cls, n: nat, acc: Msg, y: Msg): Msg
    decreases Rank(c), 2, LAST + 1 - n
  {
    if n > LAST then acc.(unknown := acc.unknown + y.unknown)
    else MergeRest(c, n + 1, MergeField(c, n, acc, y), y)
  }

  /** MergeFrom. */
  function Merge(c: Cls, x: Msg, y: Msg): Msg
    decreases Rank(c), 3, 0
  {
    MergeRest(c, 1, x, y)
  }

  // ---------------------------------------------------------------- well-formed messages

  /** The value kept in a field of kind `k`: right type, never a default (but for oneof members),
      valid strings, and nested messages that fit the nesting budget. */
  ghost predicate ValOk(k: Kind, depth: nat, v: Val)
    decreases KindRank(k), 1, 0
  {
    match k
    case IntField => v.VInt? && v.i != 0
    case BoolField => v.VBool? && v.b
    case DoubleField => v.VDouble? && v.d != ZERO
    case StringField => v.VString? && v.s != [] && ValidUtf8(v.s)
    case MessageField(c) => v.VMsg? && NestedOk(c, depth, v.m)
    case PackedInts => v.VInts? && v.ints != []
    case PackedDoubles => v.VDoubles? && v.doubles != []
    case Strings => v.VStrings? && v.strings != [] && forall s | s in v.strings :: ValidUtf8(s)
    case Messages(c) => v.VMsgs? && v.msgs != [] && forall x | x in v.msgs :: NestedOk(c, depth, x)
    case MapField(mv) =>
      v.VMap? && v.entries != map[] && depth > 0
      && forall key | key in v.entries :: ValidUtf8(key) && EntryOk(mv, depth - 1, v.entries[key])
    case OneofDouble => v.VDouble?
    case OneofBool => v.VBool?
    case OneofMessage(c) => v.VMsg? && NestedOk(c, depth, v.m)
  }

  ghost predicate EntryOk(mv: MapValue, depth: nat, v: Val)
    decreases ValueRank(mv), 1, 0
  {
    match mv
    case IntValue => v.VInt?
    case BoolValue => v.VBool?
    case MessageValue(c) => v.VMsg? && NestedOk(c, depth, v.m)
  }

  ghost predicate NestedOk(c: Cls, depth: nat, m: Msg)
    decreases Rank(c), 3, 0
  {
    depth > 0 && Ok(c, depth - 1, m)
  }

  /** A message object of class `c`: known fields well typed, at most one oneof member, and an
      unknown set that holds only records this class does not recognise. */
  ghost predicate Ok(c: Cls, depth: nat, m: Msg)
    decreases Rank(c), 2, 0
  {
    && (forall n | n in m.fields :: FieldOf(c, n).Some? && ValOk(FieldOf(c, n).value, depth, m.fields[n]))
    && (forall i, j | i in m.fields && j in m.fields && i in OneofFields(c) && j in OneofFields(c) :: i == j)
    && (forall r | r in m.unknown :: !Recognises(c, r.num, WireType(r.body)) && Shallow(depth, r))
  }

  /** What the C++ types alone guarantee of a message object: `Ok` without the validity of strings,
      the nesting budget and the contents of the unknown set. */
  ghost predicate Typed(c: Cls, m: Msg)
    decreases Rank(c), 2, 0
  {
    && (forall n | n in m.fields :: FieldOf(c, n).Some? && TypedVal(FieldOf(c, n).value, m.fields[n]))
    && (forall i, j | i in m.fields && j in m.fields && i in OneofFields(c) && j in OneofFields(c) :: i == j)
  }

  ghost predicate TypedVal(k: Kind, v: Val)
    decreases KindRank(k), 1, 0
  {
    match k
    case IntField => v.VInt? && v.i != 0
    case BoolField => v.VBool? && v.b
    case DoubleField => v.VDouble? && v.d != ZERO
    case StringField => v.VString? && v.s != []
    case MessageField(c) => v.VMsg? && Typed(c, v.m)
    case PackedInts => v.VInts? && v.ints != []
    case PackedDoubles => v.VDoubles? && v.doubles != []
    case Strings => v.VStrings? && v.strings != []
    case Messages(c) => v.VMsgs? && v.msgs != [] && forall x | x in v.msgs :: Typed(c, x)
    case MapField(mv) =>
      v.VMap? && v.entries != map[] && forall key | key in v.entries :: TypedEntry(mv, v.entries[key])
    case OneofDouble => v.VDouble?
    case OneofBool => v.VBool?
    case OneofMessage(c) => v.VMsg? && Typed(c, v.m)
  }

  ghost predicate TypedEntry(mv: MapValue, v: Val)
    decreases ValueRank(mv), 1, 0
  {
    match mv
    case IntValue => v.VInt?
    case BoolValue => v.VBool?
    case MessageValue(c) => v.VMsg? && Typed(c, v.m)
  }
}
