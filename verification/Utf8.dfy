/** UTF-8 (section 3 of RFC 3629): encoding, lossy decoding, character boundaries, and which byte
    strings are valid. */
module Utf8 {
  import opened Wrappers

  /** A Unicode scalar value. */
  type Scalar = x: int | 0 <= x < 0xD800 || 0xE000 <= x < 0x110000

  const REPLACEMENT: Scalar := 0xFFFD

  /** The two top bits are 10. */
  predicate Continuation(b: Byte) {
    b / 64 == 2
  }

  function Encode(c: Scalar): (bytes: seq<Byte>)
    ensures 1 <= |bytes| <= 4
    ensures !Continuation(bytes[0]) && forall k :: 1 <= k < |bytes| ==> Continuation(bytes[k])
  {
    if c < 0x80 then [c]
    else if c < 0x800 then [0xC0 + c / 64, 0x80 + c % 64]
    else if c < 0x10000 then [0xE0 + c / 4096, 0x80 + c / 64 % 64, 0x80 + c % 64]
    else [0xF0 + c / 262144, 0x80 + c / 4096 % 64, 0x80 + c / 64 % 64, 0x80 + c % 64]
  }

  function EncodeAll(cs: seq<Scalar>): seq<Byte> {
    if cs == [] then [] else Encode(cs[0]) + EncodeAll(cs[1..])
  }

  function ByteAt(bytes: seq<Byte>, i: nat): Byte {
    if i < |bytes| then bytes[i] else 0
  }

  function Width(first: Byte): nat {
    if first < 0x80 then 1
    else if 0xC2 <= first < 0xE0 then 2
    else if 0xE0 <= first < 0xF0 then 3
    else if 0xF0 <= first < 0xF5 then 4
    else 0
  }

  /** Which second bytes may follow: no overlong forms, no surrogates, nothing past 10FFFF. */
  predicate SecondFits(first: Byte, second: Byte) {
    Continuation(second) &&
    (first == 0xE0 ==> second >= 0xA0) && (first == 0xED ==> second < 0xA0) &&
    (first == 0xF0 ==> second >= 0x90) && (first == 0xF4 ==> second < 0x90)
  }

  /** One character of a lossy decoding and the bytes it takes: an ill-formed sequence is replaced
      as far as it could have been a prefix of a well-formed one. */
  function DecodeOne(bytes: seq<Byte>): (r: (Scalar, nat))
    requires bytes != []
    ensures 1 <= r.1 <= |bytes|
  {
    var b0, b1, b2, b3 := bytes[0], ByteAt(bytes, 1), ByteAt(bytes, 2), ByteAt(bytes, 3);
    var w := Width(b0);
    if w == 1 then (b0, 1)
    else if w == 0 || !SecondFits(b0, b1) then (REPLACEMENT, 1)
    else if w == 2 then (b0 % 32 * 64 + b1 % 64, 2)
    else if !Continuation(b2) then (REPLACEMENT, 2)
    else if w == 3 then (b0 % 16 * 4096 + b1 % 64 * 64 + b2 % 64, 3)
    else if !Continuation(b3) then (REPLACEMENT, 3)
    else (b0 % 8 * 262144 + b1 % 64 * 4096 + b2 % 64 * 64 + b3 % 64, 4)
  }

  function DecodeLossy(bytes: seq<Byte>): seq<Scalar> {
    if bytes == [] then []
    else var (c, n) := DecodeOne(bytes); [c] + DecodeLossy(bytes[n..])
  }

  lemma DecodesTwo(c: Scalar, bytes: seq<Byte>)
    requires 0x80 <= c < 0x800 && Encode(c) <= bytes
    ensures DecodeOne(bytes) == (c, 2)
  {}

  lemma DecodesThree(c: Scalar, bytes: seq<Byte>)
    requires 0x800 <= c < 0x10000 && Encode(c) <= bytes
    ensures DecodeOne(bytes) == (c, 3)
  {
    var b0, b1, b2 := bytes[0], bytes[1], bytes[2];
    assert b0 == Encode(c)[0] == 0xE0 + c / 4096;
    assert b1 == Encode(c)[1] == 0x80 + c / 64 % 64 && b2 == Encode(c)[2] == 0x80 + c % 64;
    assert b0 % 16 == c / 4096 && b1 % 64 == c / 64 % 64 && b2 % 64 == c % 64;
    assert c / 64 == c / 4096 * 64 + c / 64 % 64;
  }

  /** The digits of a character in base 64. */
  lemma DigitsOfFour(c: Scalar)
    ensures c == c / 262144 * 262144 + c / 4096 % 64 * 4096 + c / 64 % 64 * 64 + c % 64
  {
    assert c / 4096 == c / 262144 * 64 + c / 4096 % 64;
    assert c / 64 == c / 4096 * 64 + c / 64 % 64;
  }

  lemma DecodesFour(c: Scalar, bytes: seq<Byte>)
    requires 0x10000 <= c && Encode(c) <= bytes
    ensures DecodeOne(bytes) == (c, 4)
  {
    var b0, b1, b2, b3 := bytes[0], bytes[1], bytes[2], bytes[3];
    assert b0 == Encode(c)[0] == 0xF0 + c / 262144 && b1 == Encode(c)[1] == 0x80 + c / 4096 % 64;
    assert b2 == Encode(c)[2] == 0x80 + c / 64 % 64 && b3 == Encode(c)[3] == 0x80 + c % 64;
    assert b0 % 8 == c / 262144 && b1 % 64 == c / 4096 % 64 && b2 % 64 == c / 64 % 64 && b3 % 64 == c % 64;
    DigitsOfFour(c);
  }

  /** Decoding inverts encoding, for every text. */
  lemma {:induction false} DecodeInvertsEncode(cs: seq<Scalar>)
    ensures DecodeLossy(EncodeAll(cs)) == cs
  {
    if cs != [] {
      var c, bytes := cs[0], EncodeAll(cs);
      assert Encode(c) <= bytes && bytes[|Encode(c)|..] == EncodeAll(cs[1..]);
      if c < 0x80 {
        assert bytes[0] == Encode(c)[0];
      } else if c < 0x800 {
        DecodesTwo(c, bytes);
      } else if c < 0x10000 {
        DecodesThree(c, bytes);
      } else {
        DecodesFour(c, bytes);
      }
      DecodeInvertsEncode(cs[1..]);
    }
  }

  /** The bits a byte adds to the marker `from`. */
  function Bits(b: Byte, from: Byte): int {
    b as int - from as int
  }

  /** The forms of section 3: the ranges of first bytes, six bits in each further byte, and the character
      is what the bits say. */
  lemma EncodeIs(c: Scalar)
    ensures var bytes := Encode(c);
            (forall k :: 1 <= k < |bytes| ==> 0x80 <= bytes[k] < 0xC0) &&
            if c < 0x80 then bytes == [c]
            else if c < 0x800 then
              |bytes| == 2 && 0xC2 <= bytes[0] < 0xE0 && c as int == Bits(bytes[0], 0xC0) * 64 + Bits(bytes[1], 0x80)
            else if c < 0x10000 then
              |bytes| == 3 && 0xE0 <= bytes[0] < 0xF0 &&
              c as int == Bits(bytes[0], 0xE0) * 4096 + Bits(bytes[1], 0x80) * 64 + Bits(bytes[2], 0x80)
            else
              |bytes| == 4 && 0xF0 <= bytes[0] < 0xF5 &&
              c as int == Bits(bytes[0], 0xF0) * 262144 + Bits(bytes[1], 0x80) * 4096 + Bits(bytes[2], 0x80) * 64 + Bits(bytes[3], 0x80)
  {
    if c >= 0x10000 {
      DigitsOfFour(c);
    } else if c >= 0x800 {
      assert c / 64 == c / 4096 * 64 + c / 64 % 64;
    }
  }

  /** A byte that starts no character is replaced by itself. */
  lemma StrayByteIsReplaced(b: Byte, rest: seq<Byte>)
    requires 0x80 <= b < 0xC2 || b >= 0xF5
    ensures DecodeLossy([b] + rest) == [REPLACEMENT] + DecodeLossy(rest)
  {
    assert ([b] + rest)[1..] == rest;
  }

  lemma SecondOfEncodeFits(c: Scalar)
    requires |Encode(c)| > 1
    ensures SecondFits(Encode(c)[0], Encode(c)[1])
  {
    EncodeIs(c);
  }

  lemma TornCharacterDecodes(c: Scalar, n: nat, bytes: seq<Byte>)
    requires 0 < n < |Encode(c)| && n <= |bytes| && bytes[..n] == Encode(c)[..n]
    requires n == |bytes| || !Continuation(bytes[n])
    ensures DecodeOne(bytes) == (REPLACEMENT, n)
  {
    EncodeIs(c);
    var full := Encode(c);
    assert bytes[0] == bytes[..n][0] == full[0];
    if n > 1 {
      assert bytes[1] == bytes[..n][1] == full[1];
      SecondOfEncodeFits(c);
    }
    if n > 2 {
      assert bytes[2] == bytes[..n][2] == full[2];
    }
  }

  /** What is left of a character cut short is one replacement, and what follows is decoded as if it stood
      alone. */
  lemma TornCharacterIsReplaced(c: Scalar, n: nat, rest: seq<Byte>)
    requires 0 < n < |Encode(c)| && (rest == [] || !Continuation(rest[0]))
    ensures DecodeLossy(Encode(c)[..n] + rest) == [REPLACEMENT] + DecodeLossy(rest)
  {
    var bytes := Encode(c)[..n] + rest;
    assert bytes[..n] == Encode(c)[..n] && bytes[n..] == rest;
    TornCharacterDecodes(c, n, bytes);
  }

  // ----- Character boundaries --------------------------------------------------------

  /** The first position from `i` on that holds no continuation byte. */
  function Snap(bytes: seq<Byte>, i: nat): (r: nat)
    requires i <= |bytes|
    ensures i <= r <= |bytes|
    decreases |bytes| - i
  {
    if i < |bytes| && Continuation(bytes[i]) then Snap(bytes, i + 1) else i
  }

  function Less(a: nat, b: nat): nat {
    if a < b then 0 else a - b
  }

  /** How many whole characters lie before the first boundary at or after byte `i`. */
  function CharsBefore(cs: seq<Scalar>, i: nat): (k: nat)
    requires i <= |EncodeAll(cs)|
    ensures k <= |cs|
  {
    if i == 0 then 0 else 1 + CharsBefore(cs[1..], Less(i, |Encode(cs[0])|))
  }

  lemma {:induction false} SnapInRest(a: seq<Byte>, b: seq<Byte>, j: nat)
    requires j <= |b|
    ensures Snap(a + b, |a| + j) == |a| + Snap(b, j)
    decreases |b| - j
  {
    if j < |b| && Continuation(b[j]) {
      SnapInRest(a, b, j + 1);
    }
  }

  lemma {:induction false} SnapWithin(a: seq<Byte>, b: seq<Byte>, i: nat)
    requires i <= |a| && forall k :: i <= k < |a| ==> Continuation(a[k])
    ensures Snap(a + b, i) == Snap(a + b, |a|)
    decreases |a| - i
  {
    if i < |a| {
      SnapWithin(a, b, i + 1);
    }
  }

  lemma {:induction false} EncodeAllOfParts(a: seq<Scalar>, b: seq<Scalar>)
    ensures EncodeAll(a + b) == EncodeAll(a) + EncodeAll(b)
  {
    if a == [] {
      assert a + b == b;
    } else {
      assert (a + b)[1..] == a[1..] + b;
      EncodeAllOfParts(a[1..], b);
    }
  }

  /** The byte at which character `k` starts. */
  function Offset(cs: seq<Scalar>, k: nat): nat
    requires k <= |cs|
  {
    |EncodeAll(cs[..k])|
  }

  lemma OffsetInRest(cs: seq<Scalar>, k: nat)
    requires 0 < k <= |cs|
    ensures Offset(cs, k) == |Encode(cs[0])| + Offset(cs[1..], k - 1)
  {
    assert cs[..k][1..] == cs[1..][..k - 1];
  }

  lemma SnapPastFirst(c: Scalar, rest: seq<Byte>, i: nat)
    requires 0 < i <= |Encode(c)| + |rest|
    ensures var j := Less(i, |Encode(c)|);
            Snap(Encode(c) + rest, i) == |Encode(c)| + Snap(rest, j)
  {
    if i < |Encode(c)| {
      SnapWithin(Encode(c), rest, i);
    }
    SnapInRest(Encode(c), rest, Less(i, |Encode(c)|));
  }

  /** Snapping stops at a character boundary, the first one at or after `i`, and skips at most
      three bytes. */
  lemma {:induction false} SnapFindsBoundary(cs: seq<Scalar>, i: nat)
    requires i <= |EncodeAll(cs)|
    ensures Snap(EncodeAll(cs), i) == Offset(cs, CharsBefore(cs, i)) < i + 4
    ensures CharsBefore(cs, i) > 0 ==> Offset(cs, CharsBefore(cs, i) - 1) < i
  {
    if i == 0 {
      assert cs[..0] == [];
    } else {
      var rest, j := cs[1..], Less(i, |Encode(cs[0])|);
      var k := CharsBefore(rest, j);
      SnapFindsBoundary(rest, j);
      SnapPastFirst(cs[0], EncodeAll(rest), i);
      OffsetInRest(cs, k + 1);
      if k > 0 {
        OffsetInRest(cs, k);
      } else {
        assert cs[..0] == [];
      }
    }
  }

  /** Four bytes a character are enough, one is needed. */
  lemma {:induction false} EncodedLength(cs: seq<Scalar>)
    ensures |cs| <= |EncodeAll(cs)| <= 4 * |cs|
  {
    if cs != [] {
      EncodedLength(cs[1..]);
    }
  }

  lemma BytesFrom(cs: seq<Scalar>, k: nat)
    requires k <= |cs|
    ensures |EncodeAll(cs)| == Offset(cs, k) + |EncodeAll(cs[k..])|
    ensures EncodeAll(cs)[Offset(cs, k)..] == EncodeAll(cs[k..])
  {
    EncodeAllOfParts(cs[..k], cs[k..]);
    assert cs == cs[..k] + cs[k..];
  }

  /** Boundaries are in the order of their characters. */
  lemma BoundariesAscend(cs: seq<Scalar>, j: nat, k: nat)
    requires j <= k <= |cs|
    ensures Offset(cs, j) + (k - j) <= Offset(cs, k)
  {
    EncodeAllOfParts(cs[..j], cs[j..k]);
    EncodedLength(cs[j..k]);
    assert cs[..k] == cs[..j] + cs[j..k];
  }

  // ----- Validity ---------------------------------------------------------------------

  /** Decoding replaces nothing. */
  predicate Valid(bytes: seq<Byte>) {
    EncodeAll(DecodeLossy(bytes)) == bytes
  }

  lemma EncodedIsValid(cs: seq<Scalar>)
    ensures Valid(EncodeAll(cs))
  {
    DecodeInvertsEncode(cs);
  }

  /** Valid are exactly the encodings of texts. */
  lemma ValidIff(bytes: seq<Byte>)
    ensures Valid(bytes) <==> exists cs :: bytes == EncodeAll(cs)
  {
    if Valid(bytes) {
      assert bytes == EncodeAll(DecodeLossy(bytes));
    }
    if cs :| bytes == EncodeAll(cs) {
      EncodedIsValid(cs);
    }
  }

  lemma AsciiIsValid(b: Byte)
    requires b < 0x80
    ensures Valid([b])
  {
    assert [b as Scalar][1..] == [] && EncodeAll([b]) == [b];
    EncodedIsValid([b]);
  }

  lemma BothAreValid(a: seq<Byte>, b: seq<Byte>)
    requires Valid(a) && Valid(b)
    ensures Valid(a + b)
  {
    EncodeAllOfParts(DecodeLossy(a), DecodeLossy(b));
    EncodedIsValid(DecodeLossy(a) + DecodeLossy(b));
  }

  lemma StartsAtOffset(cs: seq<Scalar>, i: nat)
    requires i < |EncodeAll(cs)| && !Continuation(EncodeAll(cs)[i])
    ensures Offset(cs, CharsBefore(cs, i)) == i
  {
    SnapFindsBoundary(cs, i);
  }

  lemma PartsAtOffset(cs: seq<Scalar>, k: nat)
    requires k <= |cs|
    ensures Offset(cs, k) <= |EncodeAll(cs)|
    ensures EncodeAll(cs)[..Offset(cs, k)] == EncodeAll(cs[..k]) && EncodeAll(cs)[Offset(cs, k)..] == EncodeAll(cs[k..])
  {
    EncodeAllOfParts(cs[..k], cs[k..]);
    assert cs == cs[..k] + cs[k..];
  }

  lemma PartsAreValid(a: seq<Byte>, b: seq<Byte>)
    requires Valid(a + b) && b != [] && !Continuation(b[0])
    ensures Valid(a) && Valid(b)
  {
    var cs := DecodeLossy(a + b);
    var k := CharsBefore(cs, |a|);
    assert (a + b)[|a|] == b[0];
    StartsAtOffset(cs, |a|);
    PartsAtOffset(cs, k);
    assert a == (a + b)[..|a|] && b == (a + b)[|a|..];
    EncodedIsValid(cs[..k]);
    EncodedIsValid(cs[k..]);
  }

  /** Where the second part does not begin in the middle of a character, the whole is valid iff both
      parts are. */
  lemma ValidOfParts(a: seq<Byte>, b: seq<Byte>)
    requires b == [] || !Continuation(b[0])
    ensures Valid(a + b) <==> Valid(a) && Valid(b)
  {
    if b == [] {
      assert a + b == a;
      EncodedIsValid([]);
    } else {
      if Valid(a + b) {
        PartsAreValid(a, b);
      }
      if Valid(a) && Valid(b) {
        BothAreValid(a, b);
      }
    }
  }

  lemma DecodesOne(c: Scalar, bytes: seq<Byte>)
    requires Encode(c) <= bytes
    ensures DecodeOne(bytes) == (c, |Encode(c)|)
  {
    if c < 0x80 {
      assert bytes[0] == Encode(c)[0];
    } else if c < 0x800 {
      DecodesTwo(c, bytes);
    } else if c < 0x10000 {
      DecodesThree(c, bytes);
    } else {
      DecodesFour(c, bytes);
    }
  }

  /** No encoding ends inside a character of another: what follows a shared beginning is encoded. */
  lemma {:induction false} RestIsValid(part: seq<Scalar>, whole: seq<Scalar>)
    requires EncodeAll(part) <= EncodeAll(whole)
    ensures Valid(EncodeAll(whole)[|EncodeAll(part)|..])
  {
    var bytes := EncodeAll(whole);
    if part == [] {
      assert bytes[0..] == bytes;
      EncodedIsValid(whole);
    } else {
      var n := |Encode(part[0])|;
      assert EncodeAll(part)[..n] == Encode(part[0]) && bytes[..n] == EncodeAll(part)[..n];
      DecodesOne(part[0], bytes);
      DecodesOne(whole[0], bytes);
      assert bytes[n..] == EncodeAll(whole[1..]) && EncodeAll(part)[n..] == EncodeAll(part[1..]);
      RestIsValid(part[1..], whole[1..]);
      assert bytes[|EncodeAll(part)|..] == bytes[n..][|EncodeAll(part[1..])|..];
    }
  }

  lemma FirstStartsChar(cs: seq<Scalar>)
    requires EncodeAll(cs) != []
    ensures !Continuation(EncodeAll(cs)[0])
  {}

  /** Cutting a valid string leaves it valid iff the cut is at a character boundary. */
  lemma CutIsValidIff(bytes: seq<Byte>, n: nat)
    requires Valid(bytes) && n < |bytes|
    ensures Valid(bytes[..n]) <==> !Continuation(bytes[n])
  {
    assert bytes == bytes[..n] + bytes[n..];
    if Valid(bytes[..n]) {
      RestIsValid(DecodeLossy(bytes[..n]), DecodeLossy(bytes));
      FirstStartsChar(DecodeLossy(bytes[n..]));
    }
    if !Continuation(bytes[n]) {
      ValidOfParts(bytes[..n], bytes[n..]);
    }
  }

  /** A text with a character outside ASCII can be cut inside it. */
  lemma {:induction false} WideCanBeCut(cs: seq<Scalar>) returns (n: nat)
    requires exists k :: 0 <= k < |cs| && cs[k] >= 0x80
    ensures n < |EncodeAll(cs)| && Continuation(EncodeAll(cs)[n])
  {
    var first := Encode(cs[0]);
    if cs[0] >= 0x80 {
      n := 1;
      assert EncodeAll(cs)[1] == first[1];
    } else {
      var k :| 0 <= k < |cs| && cs[k] >= 0x80;
      assert cs[1..][k - 1] == cs[k];
      var m := WideCanBeCut(cs[1..]);
      n := |first| + m;
    }
  }
}
