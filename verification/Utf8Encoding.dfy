/** The bytes of a string in UTF-8 (section 3 of RFC 3629), which byte lengths count. */
module Utf8Encoding {
  import opened Utf16
  import opened Utf8
  import Utf8Prefix
  import Lines
  import Ordering

  /** A character that is no surrogate. */
  type Scalar = v: int | 0 <= v < 0xD800 || 0xE000 <= v < 0x110000

  /** The lead byte carries the high bits, each continuation byte six more. */
  function EncodeScalar(v: Scalar): seq<Byte> {
    if v < 0x80 then [v]
    else if v < 0x800 then [0xC0 + v / 64, 0x80 + v % 64]
    else if v < 0x10000 then [0xE0 + v / 4096, 0x80 + v / 64 % 64, 0x80 + v % 64]
    else [0xF0 + v / 262144, 0x80 + v / 4096 % 64, 0x80 + v / 64 % 64, 0x80 + v % 64]
  }

  function PairScalar(h: CodeUnit, l: CodeUnit): Scalar
    requires IsHigh(h) && IsLow(l)
  {
    0x10000 + (h - 0xD800) * 0x400 + (l - 0xDC00)
  }

  /** The characters of a string, a lone surrogate replaced by U+FFFD. */
  function Scalars(t: Text): seq<Scalar> {
    if t == [] then []
    else if StartsWithPair(t) then [PairScalar(t[0], t[1])] + Scalars(t[2..])
    else [if IsHigh(t[0]) || IsLow(t[0]) then 0xFFFD else t[0]] + Scalars(t[1..])
  }

  function EncodeAll(s: seq<Scalar>): seq<Byte> {
    if s == [] then [] else EncodeScalar(s[0]) + EncodeAll(s[1..])
  }

  /** `Buffer.from(s, "utf8")`. */
  function Encode(t: Text): seq<Byte> {
    EncodeAll(Scalars(t))
  }

  // ---------------------------------------------------------------- reading the bytes again

  /** The low bits of a byte. */
  function Low(b: Byte, n: int): int
    requires n > 0
  {
    b % n
  }

  /** The character a valid sequence of bytes starts with. */
  function ScalarAt(s: seq<Byte>): int {
    match CharLength(s)
    case 1 => s[0]
    case 2 => Low(s[0], 32) * 64 + Low(s[1], 64)
    case 3 => (Low(s[0], 16) * 64 + Low(s[1], 64)) * 64 + Low(s[2], 64)
    case 4 => ((Low(s[0], 8) * 64 + Low(s[1], 64)) * 64 + Low(s[2], 64)) * 64 + Low(s[3], 64)
    case _ => -1
  }

  function Decode(s: seq<Byte>): seq<int> {
    if CharLength(s) == 0 then [] else [ScalarAt(s)] + Decode(s[CharLength(s)..])
  }

  lemma TwoBytes(v: Scalar, rest: seq<Byte>)
    requires 0x80 <= v < 0x800
    ensures var s := EncodeScalar(v) + rest; CharLength(s) == 2 && ScalarAt(s) == v
  {
  }

  lemma ThreeBytes(v: Scalar, rest: seq<Byte>)
    requires 0x800 <= v < 0x10000
    ensures var s := EncodeScalar(v) + rest; CharLength(s) == 3 && ScalarAt(s) == v
  {
    assert v / 64 / 64 == v / 4096;
  }

  /** The bits of a character beyond the basic plane, six at a time. */
  lemma FourParts(v: int)
    requires 0x10000 <= v < 0x110000
    ensures var a, b, c, d := v / 262144, v / 4096 % 64, v / 64 % 64, v % 64;
      0 <= a <= 4 && ((a * 64 + b) * 64 + c) * 64 + d == v && (a == 0 ==> b >= 16) && (a == 4 ==> b < 16)
  {
    var a, b, c := v / 262144, v / 4096, v / 64;
    assert c / 64 == b && b / 64 == a;
  }

  lemma FourBytes(v: Scalar, rest: seq<Byte>)
    requires 0x10000 <= v
    ensures var s := EncodeScalar(v) + rest; CharLength(s) == 4 && ScalarAt(s) == v
  {
    FourParts(v);
    var a: int := v / 262144;
    assert Low(0xF0 + a, 8) == a;
  }

  lemma ScalarReads(v: Scalar, rest: seq<Byte>)
    ensures var s := EncodeScalar(v) + rest;
      CharLength(s) == |EncodeScalar(v)| > 0 && ScalarAt(s) == v && s[CharLength(s)..] == rest
  {
    if 0x80 <= v < 0x800 {
      TwoBytes(v, rest);
    } else if 0x800 <= v < 0x10000 {
      ThreeBytes(v, rest);
    } else if 0x10000 <= v {
      FourBytes(v, rest);
    }
  }

  /** Encoded text is valid, and its bytes give its characters back. */
  lemma {:induction false} EncodedReads(s: seq<Scalar>)
    ensures Valid(EncodeAll(s)) && Decode(EncodeAll(s)) == s
  {
    if s != [] {
      EncodedReads(s[1..]);
      ScalarReads(s[0], EncodeAll(s[1..]));
    }
  }

  lemma LastSix(high: int, low: int)
    requires 0 <= low < 64
    ensures (high * 64 + low) / 64 == high && (high * 64 + low) % 64 == low
  {
  }

  lemma ContinuationBits(b: Byte)
    requires Continuation(b)
    ensures Low(b, 64) == b - 0x80
  {
  }

  lemma TwoEncoded(s: seq<Byte>)
    requires CharLength(s) == 2
    ensures 0x80 <= ScalarAt(s) < 0x800 && EncodeScalar(ScalarAt(s)) == s[..2]
  {
    ContinuationBits(s[1]);
    assert Low(s[0], 32) == s[0] - 0xC0;
    LastSix(s[0] - 0xC0, s[1] - 0x80);
  }

  lemma ThreeEncoded(s: seq<Byte>)
    requires CharLength(s) == 3
    ensures 0x800 <= ScalarAt(s) < 0x10000 && !(0xD800 <= ScalarAt(s) < 0xE000) && EncodeScalar(ScalarAt(s)) == s[..3]
  {
    var a: int, b: int, c: int := s[0] - 0xE0, s[1] - 0x80, s[2] - 0x80;
    ContinuationBits(s[1]);
    ContinuationBits(s[2]);
    assert Low(s[0], 16) == a;
    LastSix(a, b);
    LastSix(a * 64 + b, c);
    var v := ScalarAt(s);
    assert v / 64 == a * 64 + b && v / 4096 == v / 64 / 64;
  }

  lemma FourEncoded(s: seq<Byte>)
    requires CharLength(s) == 4
    ensures 0x10000 <= ScalarAt(s) < 0x110000 && EncodeScalar(ScalarAt(s)) == s[..4]
  {
    var a: int, b: int, c: int, d: int := s[0] - 0xF0, s[1] - 0x80, s[2] - 0x80, s[3] - 0x80;
    ContinuationBits(s[1]);
    ContinuationBits(s[2]);
    ContinuationBits(s[3]);
    assert Low(s[0], 8) == a;
    LastSix(a, b);
    LastSix(a * 64 + b, c);
    LastSix((a * 64 + b) * 64 + c, d);
    var v := ScalarAt(s);
    assert v / 4096 == v / 64 / 64 && v / 262144 == v / 4096 / 64;
  }

  lemma CharIsEncoded(s: seq<Byte>)
    requires CharLength(s) > 0
    ensures var v := ScalarAt(s);
      (0 <= v < 0xD800 || 0xE000 <= v < 0x110000) && EncodeScalar(v) == s[..CharLength(s)]
  {
    match CharLength(s)
    case 2 => TwoEncoded(s);
    case 3 => ThreeEncoded(s);
    case 4 => FourEncoded(s);
    case _ =>
  }

  lemma Reencoded(s: seq<Byte>, t: seq<Scalar>) returns (all: seq<Scalar>)
    requires CharLength(s) > 0 && s[CharLength(s)..] == EncodeAll(t)
    ensures s == EncodeAll(all)
  {
    CharIsEncoded(s);
    all := [ScalarAt(s)] + t;
    assert all[1..] == t && s == s[..CharLength(s)] + s[CharLength(s)..];
  }

  /** Bytes are valid text exactly when they encode some characters. */
  lemma {:induction false} ValidIff(s: seq<Byte>)
    ensures Valid(s) <==> exists t: seq<Scalar> :: s == EncodeAll(t)
  {
    if s == [] {
      assert s == EncodeAll([]);
    } else if Valid(s) {
      ValidIff(s[CharLength(s)..]);
      var t: seq<Scalar> :| s[CharLength(s)..] == EncodeAll(t);
      var all := Reencoded(s, t);
    } else {
      forall t: seq<Scalar> ensures s != EncodeAll(t) {
        EncodedReads(t);
      }
    }
  }

  // ---------------------------------------------------------------- byte lengths

  /** The byte length of a string, surrogate pairs and lone surrogates included, is that of its UTF-8. */
  lemma {:induction false} ByteLenCounts(t: Text)
    ensures Utf8Prefix.ByteLen(t) == |Encode(t)|
  {
    if t != [] {
      ByteLenCounts(if StartsWithPair(t) then t[2..] else t[1..]);
    }
  }

  /** So is the byte length of well-formed text. */
  lemma {:induction false} ByteLengthCounts(s: string)
    ensures forall k | 0 <= k < |Ordering.Units(s)| :: 0 <= Ordering.Units(s)[k] < 0x10000
    ensures Lines.ByteLength(s) == |Encode(Ordering.Units(s))|
  {
    if s != [] {
      ByteLengthCounts(s[1..]);
      var first, rest := Ordering.UnitsOfChar(s[0]), Ordering.Units(s[1..]);
      assert (first + rest)[|first|..] == rest;
    }
  }
}
