/** Well-formed UTF-8, the grammar of section 4 of RFC 3629.  The parser checks every string
    field and map key against it; the serializer writes strings unchecked. */
module Utf8 {
  import opened Wire

  predicate Tail(b: Byte) {
    0x80 <= b <= 0xBF
  }

  /** Length of the well-formed character at the front, 0 if there is none. */
  function CharLength(s: Bytes): (n: nat)
    ensures n <= |s|
  {
    if |s| >= 1 && s[0] <= 0x7F then 1
    else if |s| >= 2 && 0xC2 <= s[0] <= 0xDF && Tail(s[1]) then 2
    else if |s| >= 3 && Tail(s[1]) && Tail(s[2]) && 0xE0 <= s[0] <= 0xEF
            && (s[0] == 0xE0 ==> s[1] >= 0xA0) && (s[0] == 0xED ==> s[1] <= 0x9F) then 3
    else if |s| >= 4 && Tail(s[1]) && Tail(s[2]) && Tail(s[3]) && 0xF0 <= s[0] <= 0xF4
            && (s[0] == 0xF0 ==> s[1] >= 0x90) && (s[0] == 0xF4 ==> s[1] <= 0x8F) then 4
    else 0
  }

  predicate ValidUtf8(s: Bytes) {
    s == [] || (CharLength(s) > 0 && ValidUtf8(s[CharLength(s)..]))
  }

  // ---------------------------------------------------------------- which bytes these are

  /** A Unicode scalar value: a code point that is not a surrogate. */
  type Scalar = cp: nat | cp <= 0xD7FF || 0xE000 <= cp <= 0x10FFFF

  /** A character as section 3 of RFC 3629 writes it: its bits, six to each byte after the first. */
  function Encode(cp: Scalar): Bytes {
    if cp < 0x80 then [cp]
    else if cp < 0x800 then [0xC0 + cp / 64, 0x80 + cp % 64]
    else if cp < 0x1_0000 then [0xE0 + cp / 4096, 0x80 + cp / 64 % 64, 0x80 + cp % 64]
    else [0xF0 + cp / 262144, 0x80 + cp / 4096 % 64, 0x80 + cp / 64 % 64, 0x80 + cp % 64]
  }

  function EncodeAll(cps: seq<Scalar>): Bytes {
    if cps == [] then [] else Encode(cps[0]) + EncodeAll(cps[1..])
  }

  /** The bytes spell some text. */
  ghost predicate IsText(s: Bytes) {
    exists cps: seq<Scalar> :: s == EncodeAll(cps)
  }

  lemma Digits(hi: nat, lo: nat)
    requires lo < 64
    ensures (64 * hi + lo) / 64 == hi && (64 * hi + lo) % 64 == lo
  {
  }

  /** The character at the front, from its bits. */
  lemma FirstScalar(s: Bytes) returns (cp: Scalar)
    requires CharLength(s) > 0
    ensures Encode(cp) == s[..CharLength(s)]
  {
    var n := CharLength(s);
    if n == 1 {
      cp := s[0];
    } else if n == 2 {
      cp := FromTwo(s[0] - 0xC0, s[1] - 0x80);
    } else if n == 3 {
      cp := FromThree(s[0] - 0xE0, s[1] - 0x80, s[2] - 0x80);
    } else {
      cp := FromFour(s[0] - 0xF0, s[1] - 0x80, s[2] - 0x80, s[3] - 0x80);
    }
  }

  lemma FromTwo(a: nat, b: nat) returns (cp: Scalar)
    requires 2 <= a < 32 && b < 64
    ensures Encode(cp) == [0xC0 + a, 0x80 + b]
  {
    Digits(a, b);
    cp := 64 * a + b;
  }

  lemma FromThree(a: nat, b: nat, c: nat) returns (cp: Scalar)
    requires a < 16 && b < 64 && c < 64 && (a == 0 ==> b >= 32) && (a == 13 ==> b < 32)
    ensures Encode(cp) == [0xE0 + a, 0x80 + b, 0x80 + c]
  {
    Digits(64 * a + b, c);
    Digits(a, b);
    cp := 64 * (64 * a + b) + c;
    assert cp / 4096 == a;
  }

  lemma FromFour(a: nat, b: nat, c: nat, d: nat) returns (cp: Scalar)
    requires a <= 4 && b < 64 && c < 64 && d < 64 && (a == 0 ==> b >= 16) && (a == 4 ==> b < 16)
    ensures Encode(cp) == [0xF0 + a, 0x80 + b, 0x80 + c, 0x80 + d]
  {
    var hi, mid := 64 * a + b, 64 * (64 * a + b) + c;
    Digits(mid, d);
    Digits(hi, c);
    Digits(a, b);
    cp := 64 * mid + d;
    assert cp / 4096 == hi && cp / 262144 == a;
  }

  lemma EncodedLength(cp: Scalar, rest: Bytes)
    ensures CharLength(Encode(cp) + rest) == |Encode(cp)|
  {
  }

  /** Text is accepted ... */
  lemma {:induction false} TextIsValid(cps: seq<Scalar>)
    ensures ValidUtf8(EncodeAll(cps))
  {
    hide Encode, CharLength;
    if cps != [] {
      EncodedLength(cps[0], EncodeAll(cps[1..]));
      assert Encode(cps[0]) != [] by { EncodedIsNotEmpty(cps[0]); }
      TextIsValid(cps[1..]);
    }
  }

  lemma EncodedIsNotEmpty(cp: Scalar)
    ensures Encode(cp) != []
  {
  }

  /** ... and whatever is accepted is the text that its characters spell. */
  lemma {:induction false} ValidIsText(s: Bytes)
    requires ValidUtf8(s)
    ensures IsText(s)
  {
    hide Encode, CharLength;
    if s == [] {
      assert s == EncodeAll([]);
    } else {
      var n := CharLength(s);
      ValidIsText(s[n..]);
      var cps: seq<Scalar> :| s[n..] == EncodeAll(cps);
      assert s == s[..n] + s[n..];
      var cp := FirstScalar(s);
      assert ([cp] + cps)[1..] == cps;
      assert s == EncodeAll([cp] + cps);
    }
  }

  /** The strings the parser accepts are exactly the encoded sequences of scalar values. */
  lemma ValidIffText(s: Bytes)
    ensures ValidUtf8(s) <==> IsText(s)
  {
    if IsText(s) {
      var cps: seq<Scalar> :| s == EncodeAll(cps);
      TextIsValid(cps);
    }
    if ValidUtf8(s) {
      ValidIsText(s);
    }
  }

  /** Different texts are different bytes. */
  lemma {:induction false} TextIsUnambiguous(a: seq<Scalar>, b: seq<Scalar>)
    ensures EncodeAll(a) == EncodeAll(b) ==> a == b
  {
    hide Encode, CharLength;
    if a != [] && b != [] {
      var x, y := EncodeAll(a[1..]), EncodeAll(b[1..]);
      EncodedLength(a[0], x);
      EncodedLength(b[0], y);
      if EncodeAll(a) == EncodeAll(b) {
        assert (Encode(a[0]) + x)[..|Encode(a[0])|] == (Encode(b[0]) + y)[..|Encode(b[0])|];
        assert Encode(a[0]) == Encode(b[0]) by {
          assert (Encode(a[0]) + x)[..|Encode(a[0])|] == Encode(a[0]);
          assert (Encode(b[0]) + y)[..|Encode(b[0])|] == Encode(b[0]);
        }
        EncodedDiffer(a[0], b[0]);
        assert (Encode(a[0]) + x)[|Encode(a[0])|..] == x && (Encode(b[0]) + y)[|Encode(b[0])|..] == y;
        TextIsUnambiguous(a[1..], b[1..]);
        assert a == [a[0]] + a[1..] && b == [b[0]] + b[1..];
      }
    } else {
      if a != [] { EncodedIsNotEmpty(a[0]); }
      if b != [] { EncodedIsNotEmpty(b[0]); }
    }
  }

  lemma EncodedDiffer(a: Scalar, b: Scalar)
    ensures Encode(a) == Encode(b) ==> a == b
  {
    FromBits(a);
    FromBits(b);
  }

  lemma FromBits(cp: Scalar)
    ensures cp == 64 * (cp / 64) + cp % 64
    ensures cp / 64 == 64 * (cp / 4096) + cp / 64 % 64
    ensures cp / 4096 == 64 * (cp / 262144) + cp / 4096 % 64
  {
  }
}
