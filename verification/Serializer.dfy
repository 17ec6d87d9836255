/** MessageSerializer::fromBytes over message objects. */
module Serializer {
  import opened Wire
  import opened Schema
  import opened Codec
  import opened PartialParse
  import opened Dispatch
  import MessageObject

  /** Parses the same bytes twice, into an envelope and into a fresh object of the class it names, and
      goes on with what is there whether or not a parse succeeds. */
  method Decode(bytes: Bytes, past: Past) returns (outcome: Outcome)
    ensures outcome == FromBytes(bytes, past)
  {
    hide Parse, TypeStopped;
    var pm := new MessageObject.MessageObject(Envelope, EMPTY);
    var ok := pm.ParseFromString(bytes, past(Envelope, bytes));
    LeftType(Envelope, bytes, past, ok, pm.value);
    var c := ClassOf(TypeOf(pm.value));
    if c.None? { return Unknown; }
    var m := new MessageObject.MessageObject(c.value, EMPTY);
    ok := m.ParseFromString(bytes, past(c.value, bytes));
    LeftType(c.value, bytes, past, ok, m.value);
    return if ok then Decoded(c.value, m.value) else Partial(c.value, TypeOf(m.value));
  }

  /** What ParseFromString promises is the type left. */
  lemma LeftType(c: Cls, bytes: Bytes, past: Past, ok: bool, m: Msg)
    requires ok == Parse(c, bytes).Some? && (ok ==> Some(m) == Parse(c, bytes))
    requires !ok ==> IntOf(m, 1) == TypeLeft(c, bytes, past)
    ensures TypeOf(m) == TypeLeft(c, bytes, past)
  {
    hide Parse;
    if ok {
      AcceptedType(c, bytes, past);
    }
  }
}
