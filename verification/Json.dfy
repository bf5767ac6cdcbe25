/**
 JSON text as bytes: the value trees, their compact print, and the number
 grammar of section 6 of RFC 8259. String bodies are kept as the parser keeps
 them: plain bytes and opaque two-byte escape pairs (section 7).
 */
module Json {
  import opened Octets

  const QUOTE: byte := 0x22
  const PLUS: byte := 0x2B
  const COMMA: byte := 0x2C
  const MINUS: byte := 0x2D
  const DOT: byte := 0x2E
  const ZERO: byte := 0x30
  const COLON: byte := 0x3A
  const UPPER_E: byte := 0x45
  const LBRACKET: byte := 0x5B
  const BACKSLASH: byte := 0x5C
  const RBRACKET: byte := 0x5D
  const LOWER_E: byte := 0x65
  const LOWER_F: byte := 0x66
  const LOWER_N: byte := 0x6E
  const LOWER_T: byte := 0x74
  const LBRACE: byte := 0x7B
  const RBRACE: byte := 0x7D

  const LIT_TRUE: Bytes := [0x74, 0x72, 0x75, 0x65]
  const LIT_FALSE: Bytes := [0x66, 0x61, 0x6C, 0x73, 0x65]
  const LIT_NULL: Bytes := [0x6E, 0x75, 0x6C, 0x6C]

  predicate IsWs(b: byte) {
    b == 0x20 || b == 0x09 || b == 0x0A || b == 0x0D
  }

  predicate IsDigit(b: byte) {
    0x30 <= b <= 0x39
  }

  /** The bytes the number scanner swallows. */
  predicate IsNumChar(b: byte) {
    b == MINUS || b == PLUS || b == DOT || b == LOWER_E || b == UPPER_E || IsDigit(b)
  }

  // ---------- Value trees ----------

  datatype Json =
    | Null
    | True
    | False
    | Num(raw: Bytes)
    | Str(body: Bytes)
    | Arr(elems: Elems)
    | Obj(members: Members)

  datatype Elems = ENil | ECons(head: Json, tail: Elems)

  datatype Members = MNil | MCons(key: Bytes, val: Json, rest: Members)

  /** A string body: no bare quote, and every backslash is followed by a byte. */
  predicate BodyOk(b: Bytes) {
    b == [] ||
    if b[0] == BACKSLASH then |b| >= 2 && BodyOk(b[2..])
    else b[0] != QUOTE && BodyOk(b[1..])
  }

  ghost predicate WellFormed(t: Json) {
    match t
    case Num(raw) => IsNumber(raw)
    case Str(body) => BodyOk(body)
    case Arr(es) => ElemsOk(es)
    case Obj(ms) => MembersOk(ms)
    case _ => true
  }

  ghost predicate ElemsOk(es: Elems) {
    es.ECons? ==> WellFormed(es.head) && ElemsOk(es.tail)
  }

  ghost predicate MembersOk(ms: Members) {
    ms.MCons? ==> BodyOk(ms.key) && WellFormed(ms.val) && MembersOk(ms.rest)
  }

  // ---------- Compact print ----------

  function Quoted(body: Bytes): Bytes {
    [QUOTE] + body + [QUOTE]
  }

  function Print(t: Json): Bytes {
    match t
    case Null => LIT_NULL
    case True => LIT_TRUE
    case False => LIT_FALSE
    case Num(raw) => raw
    case Str(body) => Quoted(body)
    case Arr(es) => [LBRACKET] + PrintElems(es, true) + [RBRACKET]
    case Obj(ms) => [LBRACE] + PrintMembers(ms, true) + [RBRACE]
  }

  function Separator(first: bool): Bytes {
    if first then [] else [COMMA]
  }

  function PrintElems(es: Elems, first: bool): Bytes {
    match es
    case ENil => []
    case ECons(head, tail) => Separator(first) + Print(head) + PrintElems(tail, false)
  }

  function PrintMembers(ms: Members, first: bool): Bytes {
    match ms
    case MNil => []
    case MCons(key, val, rest) =>
      Separator(first) + Quoted(key) + [COLON] + Print(val) + PrintMembers(rest, false)
  }

  // ---------- Numbers (RFC 8259, section 6) ----------

  ghost predicate Digits(s: Bytes) {
    |s| >= 1 && forall i :: 0 <= i < |s| ==> IsDigit(s[i])
  }

  ghost predicate IntPart(s: Bytes) {
    s == [ZERO] || (Digits(s) && s[0] != ZERO)
  }

  ghost predicate FracPart(s: Bytes) {
    s == [] || (s[0] == DOT && Digits(s[1..]))
  }

  ghost predicate ExpPart(s: Bytes) {
    s == [] ||
    ((s[0] == LOWER_E || s[0] == UPPER_E) &&
     (Digits(s[1..]) || (|s| >= 2 && (s[1] == PLUS || s[1] == MINUS) && Digits(s[2..]))))
  }

  /** [ minus ] int [ frac ] [ exp ], cut at a, b and c. */
  ghost predicate NumberSplit(s: Bytes, a: nat, b: nat, c: nat) {
    && a <= b <= c <= |s|
    && (s[..a] == [] || s[..a] == [MINUS])
    && IntPart(s[a..b])
    && FracPart(s[b..c])
    && ExpPart(s[c..])
  }

  ghost predicate IsNumber(s: Bytes) {
    exists a: nat, b: nat, c: nat :: NumberSplit(s, a, b, c)
  }

  function DigitsEnd(s: Bytes, i: nat): (e: nat)
    requires i <= |s|
    ensures i <= e <= |s|
    ensures forall k :: i <= k < e ==> IsDigit(s[k])
    ensures e < |s| ==> !IsDigit(s[e])
    decreases |s| - i
  {
    if i < |s| && IsDigit(s[i]) then DigitsEnd(s, i + 1) else i
  }

  function MinusEnd(s: Bytes): (a: nat)
    ensures a <= |s|
  {
    if |s| > 0 && s[0] == MINUS then 1 else 0
  }

  function IntEnd(s: Bytes, a: nat): (b: nat)
    requires a <= |s|
    ensures a <= b <= |s|
  {
    if a < |s| && s[a] == ZERO then a + 1 else DigitsEnd(s, a)
  }

  function FracEnd(s: Bytes, b: nat): (c: nat)
    requires b <= |s|
    ensures b <= c <= |s|
  {
    if b < |s| && s[b] == DOT then DigitsEnd(s, b + 1) else b
  }

  lemma DigitsReach(s: Bytes, i: nat, e: nat)
    requires i <= e <= |s|
    requires forall k :: i <= k < e ==> IsDigit(s[k])
    requires e < |s| ==> !IsDigit(s[e])
    ensures DigitsEnd(s, i) == e
    decreases e - i
  {
    if i < e {
      DigitsReach(s, i + 1, e);
    }
  }

  /** The grammar is unambiguous: any cut of a number is the one a left-to-right
      scan finds. */
  lemma NumberSplitUnique(s: Bytes, a: nat, b: nat, c: nat)
    requires NumberSplit(s, a, b, c)
    ensures a == MinusEnd(s) && b == IntEnd(s, a) && c == FracEnd(s, b)
  {
    SplitBytes(s, a, b, c);
    IntSplitUnique(s, a, b);
    if b < c {
      var frac := s[b..c];
      assert forall k :: b + 1 <= k < c ==> frac[1..][k - b - 1] == s[k];
      DigitsReach(s, b + 1, c);
    }
  }

  /** What stands at the cuts of a number. */
  lemma SplitBytes(s: Bytes, a: nat, b: nat, c: nat)
    requires NumberSplit(s, a, b, c)
    ensures a < |s| && IsDigit(s[a]) && a == MinusEnd(s) && IntPart(s[a..b])
    ensures b < c ==> s[b] == DOT && Digits(s[b + 1..c])
    ensures b == c < |s| ==> s[b] != DOT
    ensures b < |s| ==> !IsDigit(s[b])
    ensures c < |s| ==> !IsDigit(s[c])
  {
    var ip, frac, exp := s[a..b], s[b..c], s[c..];
    assert ip[0] == s[a];
    assert c < |s| ==> s[c] == exp[0];
    assert b < c ==> s[b] == frac[0] && frac[1..] == s[b + 1..c];
    if a == 1 {
      assert s[..a][0] == s[0];
    }
  }

  lemma IntSplitUnique(s: Bytes, a: nat, b: nat)
    requires a <= b <= |s| && IntPart(s[a..b]) && (b < |s| ==> !IsDigit(s[b]))
    ensures b == IntEnd(s, a)
  {
    var ip := s[a..b];
    if ip != [ZERO] {
      assert forall k :: a <= k < b ==> ip[k - a] == s[k];
      DigitsReach(s, a, b);
    }
  }

  /** Every byte of a number is one the scanner swallows. */
  lemma NumberChars(s: Bytes)
    requires IsNumber(s)
    ensures |s| > 0 && (s[0] == MINUS || IsDigit(s[0]))
    ensures forall k :: 0 <= k < |s| ==> IsNumChar(s[k])
  {
    var a: nat, b: nat, c: nat :| NumberSplit(s, a, b, c);
    assert s[a..b][0] == s[a];
    if a == 1 {
      assert s[..a][0] == s[0];
    }
    forall k | 0 <= k < |s| ensures IsNumChar(s[k]) {
      if k < a {
        assert s[..a][k] == s[k];
      } else if k < b {
        assert s[a..b][k - a] == s[k];
      } else if k < c {
        assert s[b..c][k - b] == s[k];
        if k > b { assert s[b..c][1..][k - b - 1] == s[k]; }
      } else {
        var e := s[c..];
        assert e[k - c] == s[k];
        if k > c { assert e[1..][k - c - 1] == s[k]; }
        if k > c + 1 { assert e[2..][k - c - 2] == s[k]; }
      }
    }
  }

  // ---------- Integers are numbers ----------

  function Decimal(n: nat): Bytes {
    if n < 10 then [0x30 + n] else Decimal(n / 10) + [0x30 + n % 10]
  }

  lemma {:induction false} DecimalDigits(n: nat)
    ensures Digits(Decimal(n)) && (n > 0 ==> Decimal(n)[0] != ZERO)
    decreases n
  {
    if n >= 10 {
      DecimalDigits(n / 10);
    }
  }

  /** Every integer in decimal, with or without a minus, is a number. */
  lemma DecimalIsNumber(n: nat, minus: bool)
    ensures IsNumber((if minus then [MINUS] else []) + Decimal(n))
  {
    var d := Decimal(n);
    var s := (if minus then [MINUS] else []) + d;
    var a := if minus then 1 else 0;
    DecimalDigits(n);
    assert s[a..|s|] == d && s[|s|..|s|] == [] && s[|s|..] == [] && s[..a] == if minus then [MINUS] else [];
    assert NumberSplit(s, a, |s|, |s|);
  }

  /** Nothing but a decimal digit counts as one. */
  lemma DigitIs(b: byte)
    ensures IsDigit(b) <==> exists d :: 0 <= d < 10 && Decimal(d) == [b]
  {
    if IsDigit(b) {
      assert Decimal(b - 0x30) == [b];
    }
  }
}
