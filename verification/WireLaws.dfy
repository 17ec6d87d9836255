/** What the readers of the wire format make of arbitrary bytes, canonical or not. */
module WireLaws {
  import opened Wire

  /** The number that a run of bytes spells in base 128, lowest digit first. */
  function Base128(b: Bytes): nat {
    if b == [] then 0 else b[0] % 128 + 128 * Base128(b[1..])
  }

  /** A varint ends at its first byte below 128. */
  predicate EndsAt(b: Bytes, k: nat) {
    k < |b| && b[k] < 128 && forall i | 0 <= i < k :: b[i] >= 128
  }

  /** Where a varint that is read ends, and its value. */
  lemma {:induction false} VarintReads(max: nat, b: Bytes, k: nat)
    requires EndsAt(b, k)
    ensures TakeVarint(max, b) == if k < max then Took(Base128(b[..k + 1]), b[k + 1..]) else Bad
  {
    if max > 0 && k > 0 {
      assert EndsAt(b[1..], k - 1) by {
        assert forall i | 0 <= i < k - 1 :: b[1..][i] == b[i + 1];
      }
      VarintReads(max - 1, b[1..], k - 1);
      assert b[..k + 1][1..] == b[1..][..k] && b[1..][k..] == b[k + 1..];
    } else if max > 0 {
      assert b[..1] == [b[0]] && b[..1][1..] == [];
    }
  }

  /** One that never ends is refused. */
  lemma {:induction false} VarintNeedsAnEnd(max: nat, b: Bytes)
    requires TakeVarint(max, b).Took?
    ensures exists k: nat :: EndsAt(b, k)
  {
    if b[0] < 128 {
      assert EndsAt(b, 0);
    } else {
      VarintNeedsAnEnd(max - 1, b[1..]);
      var k: nat :| EndsAt(b[1..], k);
      assert forall i | 1 <= i <= k :: b[i] == b[1..][i - 1];
      assert EndsAt(b, k + 1);
    }
  }

  /** A written varint spells its number and has no digits to spare. */
  lemma {:induction false} VarintSpells(v: nat)
    ensures var b := EncodeVarint(v);
            EndsAt(b, |b| - 1) && Base128(b) == v && (|b| > 1 ==> b[|b| - 1] != 0)
  {
    var b := EncodeVarint(v);
    if v < 128 {
      assert b[1..] == [];
    } else {
      VarintSpells(v / 128);
      assert b[1..] == EncodeVarint(v / 128);
      assert forall i | 1 <= i < |b| :: b[i] == b[1..][i - 1];
    }
  }

  /** The widths of what is read: a varint field has at most ten bytes and is cut to 64 bits, a tag at
      most five and is cut to 32. */
  lemma FieldAndTagRead(depth: nat, num: nat, b: Bytes, k: nat)
    requires EndsAt(b, k)
    ensures var v := Base128(b[..k + 1]);
            && TakeBody(depth, Tag(num, 0), b)
               == (if k < 10 then Took(Varint(v % 0x1_0000_0000_0000_0000), b[k + 1..]) else Bad)
            && TakeTag(b)
               == if k < 5 then Took(Tag(v % 0x1_0000_0000 / 8, v % 8), b[k + 1..]) else Bad
  {
    VarintReads(10, b, k);
    VarintReads(5, b, k);
    var v := Base128(b[..k + 1]);
    assert v % 0x1_0000_0000 % 8 == v % 8;
  }

  /** A length has at most five bytes and is below 2 GiB, and that many bytes must be there. */
  lemma LengthRead(b: Bytes, k: nat)
    requires EndsAt(b, k)
    ensures var n := Base128(b[..k + 1]);
            TakeLen(b)
            == if k < 5 && n <= 0x7FFF_FFFF && k + 1 + n <= |b| then Took(b[k + 1..k + 1 + n], b[k + 1 + n..]) else Bad
  {
    VarintReads(5, b, k);
    var n := Base128(b[..k + 1]);
    if k + 1 + n <= |b| {
      assert b[k + 1..][..n] == b[k + 1..k + 1 + n] && b[k + 1..][n..] == b[k + 1 + n..];
    }
  }

  /** Without an end none of them is read. */
  lemma NoEndNoRead(depth: nat, num: nat, b: Bytes)
    requires forall k: nat :: !EndsAt(b, k)
    ensures TakeBody(depth, Tag(num, 0), b) == Bad && TakeTag(b) == Bad && TakeLen(b) == Bad
  {
    if TakeVarint(10, b).Took? { VarintNeedsAnEnd(10, b); }
    if TakeVarint(5, b).Took? { VarintNeedsAnEnd(5, b); }
  }

  lemma OneByteTag(t: Byte, b: Bytes)
    requires t < 128
    ensures TakeTag([t] + b) == Took(Tag(t / 8, t % 8), b)
  {
    assert ([t] + b)[1..] == b;
  }

  /** The wire types, by the low three bits of a one-byte tag. */
  lemma WireTypes(depth: nat, t: Byte, b: Bytes)
    requires 8 <= t < 128
    ensures TakeTag([t] + b) == Took(Tag(t / 8, t % 8), b)
    ensures t % 8 == 1 ==>
              TakeRecord(depth, [t] + b) == if |b| < 8 then Bad else Took(Record(t / 8, Fixed64(b[..8])), b[8..])
    ensures t % 8 == 2 && TakeLen(b).Took? ==>
              TakeRecord(depth, [t] + b) == Took(Record(t / 8, Len(TakeLen(b).value)), TakeLen(b).rest)
    ensures t % 8 == 5 ==>
              TakeRecord(depth, [t] + b) == if |b| < 4 then Bad else Took(Record(t / 8, Fixed32(b[..4])), b[4..])
    ensures t % 8 in {4, 6, 7} ==> TakeRecord(depth, [t] + b) == Bad
    ensures t % 8 == 3 && depth == 0 ==> TakeRecord(depth, [t] + b) == Bad
  {
    assert ([t] + b)[1..] == b;
  }

  /** A zero field number is refused. */
  lemma NoFieldZero(depth: nat, t: Byte, b: Bytes)
    requires t < 8
    ensures TakeRecord(depth, [t] + b) == Bad
  {
    assert ([t] + b)[1..] == b;
  }

  // ---------------------------------------------------------------- nesting

  function Starts(k: nat): Bytes {
    if k == 0 then [] else [123] + Starts(k - 1)
  }

  function Ends(k: nat): Bytes {
    if k == 0 then [] else Ends(k - 1) + [124]
  }

  /** `k` groups, one in the other, numbered 15: they are read if and only if the budget allows as many. */
  lemma {:induction false} GroupsNest(depth: nat, k: nat, rest: Bytes)
    requires k > 0
    ensures var t := TakeRecord(depth, Starts(k) + Ends(k) + rest);
            (t.Took? <==> k <= depth) && (t.Took? ==> t.rest == rest && t.value.num == 15)
  {
    hide TakeRecord, TakeGroup;
    var inner := Starts(k - 1) + Ends(k - 1) + ([124] + rest);
    assert Starts(k) + Ends(k) + rest == [123] + inner;
    GroupReads(depth, inner);
    if depth > 0 {
      GroupEnds(depth - 1, 15, 124, rest);
      if k == 1 {
        assert inner == [124] + rest;
      } else {
        GroupsNest(depth - 1, k - 1, [124] + rest);
        assert inner == [123] + inner[1..] by { assert Starts(k - 1)[0] == 123; }
        GroupContinues(depth - 1, inner[1..]);
      }
    }
  }

  lemma GroupReads(depth: nat, b: Bytes)
    ensures TakeRecord(depth, [123] + b)
         == if depth == 0 then Bad
            else
              match TakeGroup(depth - 1, 15, b)
              case Bad => Bad
              case Took(rs, rest) => Took(Record(15, Group(rs)), rest)
  {
    hide TakeGroup;
    WireTypes(depth, 123, b);
  }

  lemma GroupContinues(depth: nat, b: Bytes)
    ensures TakeRecord(depth, [123] + b).Bad? ==> TakeGroup(depth, 15, [123] + b).Bad?
    ensures var r := TakeRecord(depth, [123] + b);
            r.Took? && TakeGroup(depth, 15, r.rest).Took? ==>
              var g := TakeGroup(depth, 15, r.rest);
              TakeGroup(depth, 15, [123] + b) == Took([r.value] + g.value, g.rest)
  {
    WireTypes(depth, 123, b);
  }

  /** A group ends at an end tag of its own number; another's is refused, and so is a zero field number. */
  lemma GroupEnds(depth: nat, num: nat, t: Byte, rest: Bytes)
    requires num > 0 && t < 128
    ensures t % 8 == 4 ==> TakeGroup(depth, num, [t] + rest) == if t / 8 == num then Took([], rest) else Bad
    ensures t % 8 != 4 && t < 8 ==> TakeGroup(depth, num, [t] + rest) == Bad
  {
    hide TakeTag, TakeBody;
    OneByteTag(t, rest);
  }
}
