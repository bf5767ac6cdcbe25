/**
 Section 3 of RFC 3629: characters as encoded code points. The byte patterns of
 Utf8 accept exactly these.
 */
module CodePoints {
  import opened Octets
  import opened Utf8

  predicate ScalarValue(c: nat) {
    c <= 0x10FFFF && !(0xD800 <= c <= 0xDFFF)
  }

  function Encode(c: nat): (s: Bytes)
    requires ScalarValue(c)
    ensures s != []
  {
    if c < 0x80 then [c]
    else if c < 0x800 then [0xC0 + c / 0x40, 0x80 + c % 0x40]
    else if c < 0x10000 then [0xE0 + c / 0x1000, 0x80 + c / 0x40 % 0x40, 0x80 + c % 0x40]
    else [0xF0 + c / 0x40000, 0x80 + c / 0x1000 % 0x40, 0x80 + c / 0x40 % 0x40, 0x80 + c % 0x40]
  }

  /** The number with these digits to base 64. */
  function Base64(digits: seq<int>): int {
    if digits == [] then 0 else Base64(digits[..|digits| - 1]) * 0x40 + digits[|digits| - 1]
  }

  /** The payload of a character's bytes: the low bits of the first, six of each other. */
  function Payload(s: Bytes): seq<int>
    requires s != []
  {
    var n := CharLen(s);
    var base := if n == 2 then 0xC0 else if n == 3 then 0xE0 else if n == 4 then 0xF0 else 0;
    seq(n, i requires 0 <= i < n => if i == 0 then s[0] - base else s[i] - 0x80)
  }

  function Decode(s: Bytes): int
    requires s != []
  {
    Base64(Payload(s))
  }

  lemma Digits(a: int, b: int, c: int, d: int)
    ensures Base64([a]) == a
    ensures Base64([a, b]) == a * 0x40 + b
    ensures Base64([a, b, c]) == a * 0x1000 + b * 0x40 + c
    ensures Base64([a, b, c, d]) == a * 0x40000 + b * 0x1000 + c * 0x40 + d
  {
    assert [a][..0] == [] && [a, b][..1] == [a] && [a, b, c][..2] == [a, b] && [a, b, c, d][..3] == [a, b, c];
    assert Base64([a]) == a;
    assert Base64([a, b]) == a * 0x40 + b;
    assert Base64([a, b, c]) == (a * 0x40 + b) * 0x40 + c;
  }

  lemma Parts(a: nat, b: nat, c: nat, d: nat)
    requires b < 0x40 && c < 0x40 && d < 0x40
    ensures var n := a * 0x40 + b; n / 0x40 == a && n % 0x40 == b
    ensures var n := a * 0x1000 + b * 0x40 + c; n / 0x1000 == a && n / 0x40 % 0x40 == b && n % 0x40 == c
    ensures var n := a * 0x40000 + b * 0x1000 + c * 0x40 + d;
      n / 0x40000 == a && n / 0x1000 % 0x40 == b && n / 0x40 % 0x40 == c && n % 0x40 == d
  {
    var n3 := a * 0x1000 + b * 0x40 + c;
    assert n3 / 0x40 == a * 0x40 + b;
    var n4 := a * 0x40000 + b * 0x1000 + c * 0x40 + d;
    assert n4 / 0x40 == a * 0x1000 + b * 0x40 + c;
    assert n4 / 0x1000 == a * 0x40 + b;
  }

  /** Every character is the encoding of a scalar value. */
  lemma CharIsEncoded(s: Bytes)
    requires s != [] && CharLen(s) > 0
    ensures 0 <= Decode(s) && ScalarValue(Decode(s)) && Encode(Decode(s)) == s[..CharLen(s)]
  {
    match CharLen(s)
    case 1 => OneByte(s);
    case 2 => TwoBytes(s);
    case 3 => ThreeBytes(s);
    case _ => FourBytes(s);
  }

  lemma OneByte(s: Bytes)
    requires s != [] && CharLen(s) == 1
    ensures 0 <= Decode(s) && ScalarValue(Decode(s)) && Encode(Decode(s)) == s[..1]
  {
    assert Payload(s) == [s[0]];
    Digits(s[0], 0, 0, 0);
  }

  lemma TwoBytes(s: Bytes)
    requires s != [] && CharLen(s) == 2
    ensures 0 <= Decode(s) && ScalarValue(Decode(s)) && Encode(Decode(s)) == s[..2]
  {
    var a: nat, b: nat := s[0] - 0xC0, s[1] - 0x80;
    assert Payload(s) == [a, b];
    Digits(a, b, 0, 0);
    Parts(a, b, 0, 0);
  }

  lemma ThreeBytes(s: Bytes)
    requires s != [] && CharLen(s) == 3
    ensures 0 <= Decode(s) && ScalarValue(Decode(s)) && Encode(Decode(s)) == s[..3]
  {
    var a: nat, b: nat, c: nat := s[0] - 0xE0, s[1] - 0x80, s[2] - 0x80;
    assert Payload(s) == [a, b, c];
    Digits(a, b, c, 0);
    Parts(a, b, c, 0);
  }

  lemma FourBytes(s: Bytes)
    requires s != [] && CharLen(s) == 4
    ensures 0 <= Decode(s) && ScalarValue(Decode(s)) && Encode(Decode(s)) == s[..4]
  {
    var a: nat, b: nat, c: nat, d: nat := s[0] - 0xF0, s[1] - 0x80, s[2] - 0x80, s[3] - 0x80;
    assert Payload(s) == [a, b, c, d];
    Digits(a, b, c, d);
    Parts(a, b, c, d);
  }

  /** Every encoded scalar value is a character, whatever follows. */
  lemma EncodedIsChar(c: nat, t: Bytes)
    requires ScalarValue(c)
    ensures CharLen(Encode(c) + t) == |Encode(c)|
  {
    EncodedAlone(c);
    CharLenExtend(Encode(c), t);
  }

  lemma EncodedAlone(c: nat)
    requires ScalarValue(c)
    ensures CharLen(Encode(c)) == |Encode(c)|
  {
    if 0x800 <= c < 0x10000 {
      ThreeEncoded(c);
    } else if c >= 0x10000 {
      FourEncoded(c);
    }
  }

  lemma ThreeEncoded(c: nat)
    requires ScalarValue(c) && 0x800 <= c < 0x10000
    ensures CharLen(Encode(c)) == 3
  {
    var a, b, d := c / 0x1000, c / 0x40 % 0x40, c % 0x40;
    assert c == a * 0x1000 + b * 0x40 + d;
  }

  lemma FourParts(c: nat)
    requires 0x10000 <= c <= 0x10FFFF
    ensures var a, b := c / 0x40000, c / 0x1000 % 0x40; a <= 4 && b < 0x40 && (a == 0 ==> b >= 0x10) && (a == 4 ==> b < 0x10)
  {
    var h := c / 0x1000;
    assert 0x10 <= h <= 0x10F && h / 0x40 == c / 0x40000;
  }

  lemma FourPattern(a: nat, b: nat, d: nat, e: nat)
    requires a <= 4 && b < 0x40 && d < 0x40 && e < 0x40 && (a == 0 ==> b >= 0x10) && (a == 4 ==> b < 0x10)
    ensures CharLen([0xF0 + a, 0x80 + b, 0x80 + d, 0x80 + e]) == 4
  {}

  lemma FourEncoded(c: nat)
    requires ScalarValue(c) && c >= 0x10000
    ensures CharLen(Encode(c)) == 4
  {
    hide CharLen;
    FourParts(c);
    FourPattern(c / 0x40000, c / 0x1000 % 0x40, c / 0x40 % 0x40, c % 0x40);
  }

  /** A text begins with a well-formed character exactly when it begins with an encoded
      scalar value, and the character is that one. */
  lemma CharIffEncoded(s: Bytes)
    requires s != []
    ensures CharLen(s) > 0 <==> exists c: nat :: ScalarValue(c) && Encode(c) <= s
    ensures forall c: nat :: ScalarValue(c) && Encode(c) <= s ==> CharLen(s) == |Encode(c)|
  {
    hide CharLen, Encode, Decode;
    if CharLen(s) > 0 {
      CharIsEncoded(s);
    }
    forall c: nat | ScalarValue(c) && Encode(c) <= s ensures CharLen(s) == |Encode(c)| {
      EncodedIsChar(c, s[|Encode(c)|..]);
      assert s == Encode(c) + s[|Encode(c)|..];
    }
  }

  lemma RuneStartIs(b: byte)
    ensures RuneStart(b) <==> b / 0x40 != 2
  {}

  function EncodeAll(cs: seq<nat>): Bytes
    requires forall i :: 0 <= i < |cs| ==> ScalarValue(cs[i])
  {
    if cs == [] then [] else Encode(cs[0]) + EncodeAll(cs[1..])
  }

  /** A text is valid exactly when it is encoded scalar values, and they are its runes. */
  lemma {:induction false} EncodedIsValid(cs: seq<nat>)
    requires forall i :: 0 <= i < |cs| ==> ScalarValue(cs[i])
    ensures Valid(EncodeAll(cs)) && RuneCount(EncodeAll(cs)) == |cs|
    decreases |cs|
  {
    hide CharLen, Encode;
    if cs != [] {
      var c, rest := Encode(cs[0]), EncodeAll(cs[1..]);
      EncodedIsChar(cs[0], rest);
      EncodedIsValid(cs[1..]);
      assert (c + rest)[|c|..] == rest;
    }
  }

  lemma {:induction false} ValidIsEncoded(s: Bytes) returns (cs: seq<nat>)
    requires Valid(s)
    ensures (forall i :: 0 <= i < |cs| ==> ScalarValue(cs[i])) && EncodeAll(cs) == s && |cs| == RuneCount(s)
    decreases |s|
  {
    hide CharLen, Encode, Decode;
    if s == [] {
      cs := [];
    } else {
      var n := CharLen(s);
      CharIsEncoded(s);
      var rest := ValidIsEncoded(s[n..]);
      cs := [Decode(s)] + rest;
      assert cs[1..] == rest && s == s[..n] + s[n..];
    }
  }
}
