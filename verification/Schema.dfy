/** What distinguishes the generated classes of Messaging.pb.cc from one another.  Their parse
    loops, serializers, size passes and merges are one template applied to a list of numbered
    fields, so the model has one codec and a table of fields for each class. */
module Schema {
  import opened Wire

  /** The message classes.  `Entry` stands for the map entry classes, which the generator makes
      one per map field. */
  datatype Cls =
    | Envelope
    | HandshakeInit
    | SensorRequest
    | Reset
    | Error
    | Handshake
    | HandshakeObject
    | HandshakeSensors
    | SimulationSettings
    | Control
    | ControlObject
    | SensorMsg
    | SensorObject
    | Sensors
    | Sensor
    | Vec3
    | SimulationVariables
    | Entry(value: MapValue)

  datatype MapValue = IntValue | BoolValue | MessageValue(c: Cls)

  /** How one field is parsed, written, sized and merged. */
  datatype Kind =
    | IntField               // enum or int32, not written when zero
    | BoolField              // occurs as a map value only
    | DoubleField            // not written when all bits are zero
    | StringField            // not written when empty
    | MessageField(c: Cls)   // has presence
    | PackedInts             // repeated enum
    | PackedDoubles          // repeated double
    | Strings                // repeated string
    | Messages(c: Cls)       // repeated message
    | MapField(v: MapValue)  // map from string
    | OneofDouble
    | OneofBool
    | OneofMessage(c: Cls)

  predicate IsOneof(k: Kind) {
    k.OneofDouble? || k.OneofBool? || k.OneofMessage?
  }

  function ValueKind(v: MapValue): Kind {
    match v
    case IntValue => IntField
    case BoolValue => BoolField
    case MessageValue(c) => MessageField(c)
  }

  /** Nesting of the classes: a class ranks above those of its fields. */
  function Rank(c: Cls): nat {
    match c
    case SensorMsg => 6
    case SensorObject | Handshake | Control => 4
    case Sensors | HandshakeObject | ControlObject => 2
    case Sensor => 1
    case Entry(v) => ValueRank(v)
    case _ => 0
  }

  function ValueRank(v: MapValue): nat {
    match v
    case MessageValue(c) => Rank(c) + 1
    case _ => 0
  }

  function KindRank(k: Kind): nat {
    match k
    case MessageField(c) => Rank(c) + 1
    case Messages(c) => Rank(c) + 1
    case OneofMessage(c) => Rank(c) + 1
    case MapField(v) => ValueRank(v) + 1
    case _ => 0
  }

  /** The highest field number in use. */
  const LAST: nat := 14

  /** The fields of the message classes that travel, by number. */
  function TopField(c: Cls, n: nat): (k: Option<Kind>)
    ensures k.Some? ==> 1 <= n <= LAST && KindRank(k.value) <= Rank(c)
  {
    match c
    case Envelope | HandshakeInit =>
      (match n
       case 1 | 2 => Some(IntField)
       case _ => None)
    case SensorRequest | Reset => if n == 1 then Some(IntField) else None
    case Error =>
      (match n
       case 1 | 2 => Some(IntField)
       case 3 => Some(StringField)
       case _ => None)
    case Handshake =>
      (match n
       case 1 | 2 | 3 => Some(IntField)
       case 4 => Some(MapField(MessageValue(HandshakeObject)))
       case 5 => Some(MessageField(SimulationSettings))
       case _ => None)
    case Control =>
      (match n
       case 1 => Some(IntField)
       case 2 => Some(MapField(MessageValue(ControlObject)))
       case _ => None)
    case SensorMsg =>
      (match n
       case 1 => Some(IntField)
       case 3 => Some(MapField(MessageValue(SensorObject)))
       case 4 => Some(MessageField(SimulationVariables))
       case _ => None)
    case _ => None
  }

  /** The fields of the classes nested in them. */
  function NestedField(c: Cls, n: nat): (k: Option<Kind>)
    ensures k.Some? ==> 1 <= n <= LAST && KindRank(k.value) <= Rank(c)
  {
    match c
    case HandshakeObject =>
      (match n
       case 1 | 7 => Some(Strings)
       case 2 | 6 | 8 => Some(PackedInts)
       case 3 => Some(MapField(IntValue))
       case 4 => Some(MapField(MessageValue(HandshakeSensors)))
       case _ => None)
    case HandshakeSensors => if n == 1 then Some(PackedInts) else None
    case SimulationSettings | SimulationVariables => if n == 1 then Some(DoubleField) else None
    case ControlObject =>
      (match n
       case 1 | 2 | 3 | 5 => Some(PackedDoubles)
       case 4 => Some(MapField(BoolValue))
       case _ => None)
    case SensorObject =>
      (match n
       case 1 | 2 | 3 => Some(PackedDoubles)
       case 4 => Some(Messages(Sensor))
       case 5 => Some(Messages(Vec3))
       case 6 => Some(MapField(MessageValue(Sensors)))
       case _ => None)
    case Sensors => if n == 1 then Some(Messages(Sensor)) else None
    case Sensor =>
      (match n
       case 1 | 2 | 3 | 14 => Some(OneofDouble)
       case 6 => Some(OneofBool)
       case 4 | 5 | 7 | 8 | 9 | 10 | 12 | 13 => Some(OneofMessage(Vec3))
       case _ => None)
    case Vec3 => if n == 1 then Some(PackedDoubles) else None
    case Entry(v) =>
      (match n
       case 1 => Some(StringField)
       case 2 => Some(ValueKind(v))
       case _ => None)
    case _ => None
  }

  predicate Travels(c: Cls) {
    c in {Envelope, HandshakeInit, SensorRequest, Reset, Error, Handshake, Control, SensorMsg}
  }

  /** The fields of every class. */
  function FieldOf(c: Cls, n: nat): (k: Option<Kind>)
    ensures k.Some? ==> 1 <= n <= LAST && KindRank(k.value) <= Rank(c)
  {
    if Travels(c) then TopField(c, n) else NestedField(c, n)
  }

  /** The wire types a field of each kind accepts; any other record of its number is unknown. */
  predicate Accepts(k: Kind, wireType: nat) {
    match k
    case IntField | BoolField | OneofBool => wireType == 0
    case DoubleField | OneofDouble => wireType == 1
    case PackedInts => wireType == 2 || wireType == 0
    case PackedDoubles => wireType == 2 || wireType == 1
    case _ => wireType == 2
  }

  predicate Recognises(c: Cls, num: nat, wireType: nat) {
    var k := FieldOf(c, num);
    k.Some? && Accepts(k.value, wireType)
  }

  /** The tag constants that the `case` arms of each generated parse loop compare against. */
  function CaseTags(c: Cls): set<nat> {
    match c
    case Envelope | HandshakeInit => {8, 16}
    case SensorRequest | Reset => {8}
    case Error => {8, 16, 26}
    case Handshake => {8, 16, 24, 34, 42}
    case HandshakeObject => {10, 18, 16, 26, 34, 50, 48, 58, 66, 64}
    case HandshakeSensors => {10, 8}
    case SimulationSettings | SimulationVariables => {9}
    case Control => {8, 18}
    case ControlObject => {10, 9, 18, 17, 26, 25, 34, 42, 41}
    case SensorMsg => {8, 26, 34}
    case SensorObject => {10, 9, 18, 17, 26, 25, 34, 42, 50}
    case Sensors => {10}
    case Sensor => {9, 17, 25, 34, 42, 48, 58, 66, 74, 82, 98, 106, 113}
    case Vec3 => {10, 9}
    case Entry(v) => {10, if v.MessageValue? then 18 else 16}
  }

  lemma TopTableMatches(c: Cls, num: nat, wireType: nat)
    requires wireType < 8 && Travels(c)
    ensures Recognises(c, num, wireType) <==> num * 8 + wireType in CaseTags(c)
  {
    match c
    case Envelope | HandshakeInit | SensorRequest | Reset | Error =>
    case Handshake =>
    case Control =>
    case SensorMsg =>
  }

  lemma NestedTableMatches(c: Cls, num: nat, wireType: nat)
    requires wireType < 8 && !Travels(c)
    ensures Recognises(c, num, wireType) <==> num * 8 + wireType in CaseTags(c)
  {
    match c
    case HandshakeSensors | SimulationSettings | SimulationVariables | Vec3 | Sensors | Entry(_) =>
    case HandshakeObject =>
    case ControlObject =>
    case SensorObject =>
    case Sensor =>
  }

  /** The field table recognises exactly the tags of the generated code. */
  lemma TableMatchesCaseTags(c: Cls, num: nat, wireType: nat)
    requires wireType < 8
    ensures Recognises(c, num, wireType) <==> num * 8 + wireType in CaseTags(c)
  {
    hide FieldOf, CaseTags, Recognises;
    if Travels(c) {
      TopTableMatches(c, num, wireType);
    } else {
      NestedTableMatches(c, num, wireType);
    }
  }
}
