/** What a parse leaves behind when it fails part-way: everything up to the record it stops at. */
module PartialParse {
  import opened Wire
  import opened Schema
  import opened Codec
  import opened RecordOrder
  import opened WireLaws

  /** Where a parse stops: the message so far, and the bytes from the record it cannot read or accept. */
  datatype Stop = Stop(m: Msg, rest: Bytes)

  function StopAt(c: Cls, depth: nat, m: Msg, b: Bytes): Stop
    decreases |b|
  {
    if b == [] then Stop(m, [])
    else
      match TakeRecord(depth, b)
      case Bad => Stop(m, b)
      case Took(r, rest) =>
        match Apply(c, depth, m, r)
        case None => Stop(m, b)
        case Some(m') => StopAt(c, depth, m', rest)
  }

  /** A parse is accepted if and only if it stops at the end. */
  lemma {:induction false} AcceptedStopsAtEnd(c: Cls, depth: nat, m: Msg, b: Bytes)
    ensures ParseInto(c, depth, m, b)
         == if StopAt(c, depth, m, b).rest == [] then Some(StopAt(c, depth, m, b).m) else None
    decreases |b|
  {
    hide Apply, TakeRecord;
    if b != [] {
      var t := TakeRecord(depth, b);
      if t.Took? {
        var m' := Apply(c, depth, m, t.value);
        var rs := Tokenise(depth, t.rest);
        if rs.Some? {
          assert Tokenise(depth, b) == Some([t.value] + rs.value);
          assert ([t.value] + rs.value)[1..] == rs.value;
        }
        if m'.Some? {
          AcceptedStopsAtEnd(c, depth, m'.value, t.rest);
        }
      }
    }
  }

  // ---------------------------------------------------------------- in terms of records

  /** The records that can be read before the first that cannot, and the bytes from there on. */
  function Readable(depth: nat, b: Bytes): (seq<Record>, Bytes)
    decreases |b|
  {
    if b == [] then ([], [])
    else
      match TakeRecord(depth, b)
      case Bad => ([], b)
      case Took(r, rest) =>
        var (rs, end) := Readable(depth, rest);
        ([r] + rs, end)
  }

  /** How many leading records class `c` accepts. */
  function Accepted(c: Cls, depth: nat, rs: seq<Record>): (k: nat)
    ensures k <= |rs|
  {
    if rs == [] || Apply(c, depth, EMPTY, rs[0]).None? then 0 else 1 + Accepted(c, depth, rs[1..])
  }

  /** A parse has applied the readable records up to the first refused one, whatever `m` held before;
      it stops inside the readable records exactly if one of them is refused. */
  lemma {:induction false} StopsAtFirstRefused(c: Cls, depth: nat, m: Msg, b: Bytes)
    ensures var (rs, end) := Readable(depth, b);
            var k := Accepted(c, depth, rs);
            var s := StopAt(c, depth, m, b);
            && ApplyAll(c, depth, m, rs[..k]) == Some(s.m)
            && (if k == |rs| then s.rest == end else TakeRecord(depth, s.rest).Took?)
    decreases |b|
  {
    hide Apply, TakeRecord;
    if b != [] {
      var t := TakeRecord(depth, b);
      if t.Took? {
        var rs, rest := Readable(depth, b).0, Readable(depth, t.rest).0;
        assert rs == [t.value] + rest && rs[1..] == rest;
        AcceptanceOfRecord(c, depth, m, EMPTY, t.value);
        var m' := Apply(c, depth, m, t.value);
        if m'.Some? {
          StopsAtFirstRefused(c, depth, m'.value, t.rest);
          var k := Accepted(c, depth, rs);
          assert rs[..k][1..] == rest[..k - 1] && rs[..k][0] == t.value;
        }
      }
    }
  }

  // ---------------------------------------------------------------- reads past the end

  /** A varint whose bytes end before it does. The library reads on past the end of the buffer, finds
      something there, and notices only afterwards. */
  predicate Truncated(max: nat, b: Bytes) {
    |b| < max && forall i | 0 <= i < |b| :: b[i] >= 128
  }

  lemma {:induction false} WholeVarint(max: nat, b: Bytes)
    requires TakeVarint(max, b).Took?
    ensures !Truncated(max, b)
  {
    if b[0] >= 128 {
      WholeVarint(max - 1, b[1..]);
    }
  }

  /** A parse that stops here read a tag, or the value of a messageType, past the end. */
  predicate OffTheEnd(rest: Bytes) {
    rest != [] && (Truncated(5, rest) || TypeOffTheEnd(rest))
  }

  predicate TypeOffTheEnd(rest: Bytes) {
    var t := TakeTag(rest);
    t.Took? && t.value == Tag(1, 0) && Truncated(10, t.rest)
  }

  /** The int in field 1 after a parse: `past` is what a read past the end makes of it. */
  function TypeStopped(c: Cls, b: Bytes, past: Int32): Int32 {
    var s := StopAt(c, MAX_DEPTH, EMPTY, b);
    if OffTheEnd(s.rest) then past else IntOf(s.m, 1)
  }

  lemma {:induction false} EndedVarint(max: nat, b: Bytes)
    ensures TakeVarint(max, b).Took? <==> exists k: nat :: k < max && EndsAt(b, k)
  {
    if TakeVarint(max, b).Took? {
      VarintNeedsAnEnd(max, b);
      var k: nat :| EndsAt(b, k);
      VarintReads(max, b, k);
    }
    if k: nat :| k < max && EndsAt(b, k) {
      VarintReads(max, b, k);
    }
  }

  /** A truncated varint is one that cannot be read, but could be if more bytes followed. */
  lemma TruncatedIff(max: nat, b: Bytes)
    ensures Truncated(max, b) <==> TakeVarint(max, b).Bad? && exists more :: TakeVarint(max, b + more).Took?
  {
    EndedVarint(max, b);
    if Truncated(max, b) {
      assert EndsAt(b + [0], |b|);
      EndedVarint(max, b + [0]);
    }
    if TakeVarint(max, b).Bad? {
      if more :| TakeVarint(max, b + more).Took? {
        EndedVarint(max, b + more);
        var k: nat :| k < max && EndsAt(b + more, k);
        assert forall i | 0 <= i < |b| :: b[i] == (b + more)[i];
        assert k < |b| ==> EndsAt(b, k);
      }
    }
  }

  /** Exactly when a parse that stops here may have read past the end: when its tag, or the value behind
      the tag of an int in field 1, cannot be read but could be if more bytes followed. */
  lemma OffTheEndIff(rest: Bytes)
    ensures var t := TakeTag(rest);
            OffTheEnd(rest) <==>
            rest != [] &&
            if t.Bad? then exists more :: TakeTag(rest + more).Took?
            else t.value.num == 1 && t.value.wireType == 0 && TakeVarint(10, t.rest).Bad?
                 && exists more :: TakeVarint(10, t.rest + more).Took?
  {
    var t := TakeTag(rest);
    TruncatedIff(5, rest);
    if t.Took? {
      TruncatedIff(10, t.rest);
    } else {
      if more :| TakeVarint(5, rest + more).Took? {
        assert TakeTag(rest + more).Took?;
      }
      if more :| TakeTag(rest + more).Took? {
        assert TakeVarint(5, rest + more).Took?;
      }
    }
  }

  /** A record that can be read lies within the buffer. */
  lemma ReadableIsWithin(depth: nat, b: Bytes)
    requires TakeRecord(depth, b).Took?
    ensures !OffTheEnd(b)
  {
    WholeVarint(5, b);
    var t := TakeTag(b);
    if t.value.wireType == 0 {
      WholeVarint(10, t.rest);
    }
  }

  // ---------------------------------------------------------------- limits

  /** A parse up to `limit` in a longer buffer, as the library does it: a record is read from whatever
      bytes are there, and only then it is noticed that it ran past the limit. */
  function ParseWithin(c: Cls, depth: nat, m: Msg, b: Bytes, limit: nat): Option<Msg>
    decreases |b|
  {
    if limit == 0 then Some(m)
    else
      match TakeRecord(depth, b)
      case Bad => None
      case Took(r, rest) =>
        var used := |b| - |rest|;
        if used > limit then None
        else
          match Apply(c, depth, m, r)
          case None => None
          case Some(m') => ParseWithin(c, depth, m', rest, limit - used)
  }

  /** Containment: such a parse is that of the bytes before the limit alone.  It never takes in anything
      beyond the length that introduced it, and does not depend on it. */
  lemma {:induction false} ParseStaysWithin(c: Cls, depth: nat, m: Msg, a: Bytes, b: Bytes)
    ensures ParseWithin(c, depth, m, a + b, |a|) == ParseInto(c, depth, m, a)
    decreases |a|
  {
    hide TakeRecord, Apply, Tokenise, ApplyAll;
    AcceptedStopsAtEnd(c, depth, m, a);
    var t := TakeRecord(depth, a + b);
    if a != [] {
      if t.Took? && |t.rest| >= |b| {
        RecordWithin(depth, a, b);
      }
      if TakeRecord(depth, a).Took? {
        RecordExtends(depth, a, b);
        var u := TakeRecord(depth, a);
        var m' := Apply(c, depth, m, u.value);
        if m'.Some? {
          ParseStaysWithin(c, depth, m'.value, u.rest, b);
          AcceptedStopsAtEnd(c, depth, m'.value, u.rest);
        }
      }
    }
  }
}
