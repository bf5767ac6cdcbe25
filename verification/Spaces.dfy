/**
 White space in UTF-8 text: Go's unicode.IsSpace, strings.TrimSpace,
 strings.Fields and strings.Split on a blank line, and the text that is left when
 all white space is dropped.
 */
module Spaces {
  import opened Octets
  import opened Utf8
  import opened CodePoints

  const SPACE: byte := 0x20
  const NEWLINE: byte := 0x0A

  /** The encodings of the code points unicode.IsSpace accepts. */
  predicate IsSpaceChar(c: Bytes) {
    if |c| == 1 then 0x09 <= c[0] <= 0x0D || c[0] == SPACE
    else if |c| == 2 then c[0] == 0xC2 && (c[1] == 0x85 || c[1] == 0xA0)
    else if |c| == 3 then
      || (c[0] == 0xE1 && c[1] == 0x9A && c[2] == 0x80)
      || (c[0] == 0xE2 && c[1] == 0x80 &&
          (0x80 <= c[2] <= 0x8A || c[2] == 0xA8 || c[2] == 0xA9 || c[2] == 0xAF))
      || (c[0] == 0xE2 && c[1] == 0x81 && c[2] == 0x9F)
      || (c[0] == 0xE3 && c[1] == 0x80 && c[2] == 0x80)
    else false
  }

  function Head(s: Bytes): Bytes
    requires s != []
  {
    s[..DecodeSize(s)]
  }

  /** White space by code point, as unicode.IsSpace has it. */
  predicate IsSpace(c: nat) {
    || 0x09 <= c <= 0x0D || c == 0x20 || c == 0x85 || c == 0xA0 || c == 0x1680
    || 0x2000 <= c <= 0x200A || c == 0x2028 || c == 0x2029 || c == 0x202F || c == 0x205F || c == 0x3000
  }

  lemma SpaceByCodePoint(c: nat)
    requires ScalarValue(c)
    ensures IsSpaceChar(Encode(c)) <==> IsSpace(c)
  {
    if 0x800 <= c < 0x10000 {
      var a, b, d := c / 0x1000, c / 0x40 % 0x40, c % 0x40;
      assert c == a * 0x1000 + b * 0x40 + d;
    }
  }

  predicate SpaceFirst(s: Bytes) {
    s != [] && IsSpaceChar(Head(s))
  }

  /** The text without its white space: what splitting must conserve. */
  function NonSpace(s: Bytes): (r: Bytes)
    ensures |r| <= |s|
  {
    if s == [] then []
    else Visible(Head(s)) + NonSpace(s[DecodeSize(s)..])
  }

  function Visible(c: Bytes): (r: Bytes)
    ensures |r| <= |c|
  {
    if IsSpaceChar(c) then [] else c
  }

  lemma NonSpaceEmpty()
    ensures NonSpace([]) == []
  {
  }

  lemma NonSpaceStep(s: Bytes)
    requires s != [] && Valid(s)
    ensures CharLen(s) > 0 && Valid(s[CharLen(s)..])
    ensures NonSpace(s) == Visible(s[..CharLen(s)]) + NonSpace(s[CharLen(s)..])
  {
  }

  lemma NonSpaceExtend(a: Bytes, b: Bytes)
    requires a != [] && CharLen(a) > 0
    ensures NonSpace(a + b) == Visible(a[..CharLen(a)]) + NonSpace(a[CharLen(a)..] + b)
  {
    var n := CharLen(a);
    CharLenExtend(a, b);
    assert (a + b)[n..] == a[n..] + b;
    assert (a + b)[..n] == a[..n];
  }

  lemma {:induction false} NonSpaceConcat(a: Bytes, b: Bytes)
    requires Valid(a)
    ensures NonSpace(a + b) == NonSpace(a) + NonSpace(b)
    decreases |a|
  {
    hide *;
    if a == [] {
      assert a + b == b;
      NonSpaceEmpty();
    } else {
      NonSpaceStep(a);
      NonSpaceExtend(a, b);
      var rest := a[CharLen(a)..];
      NonSpaceConcat(rest, b);
      assert Visible(a[..CharLen(a)]) + (NonSpace(rest) + NonSpace(b))
          == Visible(a[..CharLen(a)]) + NonSpace(rest) + NonSpace(b);
    }
  }

  lemma NonSpaceSplit(s: Bytes, k: nat)
    requires Valid(s) && Boundary(s, k)
    ensures Valid(s[..k]) && Valid(s[k..])
    ensures NonSpace(s) == NonSpace(s[..k]) + NonSpace(s[k..])
  {
    hide NonSpace, Valid, RuneStart;
    ValidSplit(s, k);
    NonSpaceConcat(s[..k], s[k..]);
    assert s == s[..k] + s[k..];
  }

  /** A part of a text without white space has none either. */
  lemma SolidSplit(s: Bytes, k: nat)
    requires Valid(s) && Boundary(s, k) && NonSpace(s) == s
    ensures NonSpace(s[..k]) == s[..k] && NonSpace(s[k..]) == s[k..]
  {
    NonSpaceSplit(s, k);
    var a, b := NonSpace(s[..k]), NonSpace(s[k..]);
    assert |a| == k;
    assert (a + b)[..k] == a && (a + b)[k..] == b;
  }

  lemma SpaceCharIsNothing(c: Bytes)
    requires c != [] && CharLen(c) == |c| && IsSpaceChar(c)
    ensures Valid(c) && NonSpace(c) == []
  {
    assert c[..|c|] == c && c[|c|..] == [];
  }

  lemma SeparatorIsNothing(b: byte)
    requires b == SPACE || b == NEWLINE
    ensures Valid([b]) && NonSpace([b]) == []
  {
    SpaceCharIsNothing([b]);
  }

  // ---------- strings.TrimSpace ----------

  function TrimLeft(s: Bytes): Bytes {
    if SpaceFirst(s) then TrimLeft(s[DecodeSize(s)..]) else s
  }

  /** The width DecodeLastRune reports. */
  function LastSize(s: Bytes): (k: nat)
    requires s != []
    ensures 1 <= k <= |s|
  {
    if EndsWithChar(s, 1) then 1
    else if EndsWithChar(s, 2) then 2
    else if EndsWithChar(s, 3) then 3
    else if EndsWithChar(s, 4) then 4
    else 1
  }

  predicate EndsWithChar(s: Bytes, k: nat) {
    0 < k <= |s| && CharLen(s[|s| - k..]) == k
  }

  predicate SpaceLast(s: Bytes) {
    s != [] && EndsWithChar(s, LastSize(s)) && IsSpaceChar(s[|s| - LastSize(s)..])
  }

  function TrimRight(s: Bytes): Bytes {
    if SpaceLast(s) then TrimRight(s[..|s| - LastSize(s)]) else s
  }

  function TrimSpace(s: Bytes): Bytes {
    TrimRight(TrimLeft(s))
  }

  lemma {:induction false} TrimLeftKeeps(s: Bytes)
    requires Valid(s)
    ensures Valid(TrimLeft(s)) && NonSpace(TrimLeft(s)) == NonSpace(s) && |TrimLeft(s)| <= |s|
    ensures TrimLeft(s) == [] <==> NonSpace(s) == []
    decreases |s|
  {
    if SpaceFirst(s) {
      TrimLeftKeeps(s[DecodeSize(s)..]);
    }
  }

  lemma {:induction false} TrimRightKeeps(s: Bytes)
    requires Valid(s)
    ensures Valid(TrimRight(s)) && NonSpace(TrimRight(s)) == NonSpace(s) && |TrimRight(s)| <= |s|
    decreases |s|
  {
    hide IsSpaceChar, CharLen, NonSpace, Valid, LastSize;
    if SpaceLast(s) {
      var k := |s| - LastSize(s);
      var c := s[k..];
      assert c[0] == s[k];
      NonSpaceSplit(s, k);
      SpaceCharIsNothing(c);
      TrimRightKeeps(s[..k]);
    }
  }

  /** Trimming keeps everything but white space, and leaves nothing exactly when
      there was only white space. */
  lemma TrimSpaceKeeps(s: Bytes)
    requires Valid(s)
    ensures Valid(TrimSpace(s)) && NonSpace(TrimSpace(s)) == NonSpace(s)
    ensures TrimSpace(s) == [] <==> NonSpace(s) == []
  {
    TrimLeftKeeps(s);
    TrimRightKeeps(TrimLeft(s));
    TrimLeftKeeps(TrimSpace(s));
  }

  lemma {:induction false} TrimRightShorter(s: Bytes)
    ensures |TrimRight(s)| <= |s|
    decreases |s|
  {
    hide LastSize, EndsWithChar, IsSpaceChar;
    if SpaceLast(s) {
      TrimRightShorter(s[..|s| - LastSize(s)]);
    }
  }

  lemma TrimSpaceShorter(s: Bytes)
    ensures |TrimSpace(s)| <= |s|
  {
    hide TrimLeft, TrimRight;
    TrimLeftShorter(s);
    TrimRightShorter(TrimLeft(s));
  }

  // ---------- strings.Fields ----------

  /** Bytes before the first white space. */
  function WordLen(s: Bytes): (n: nat)
    ensures n <= |s|
    ensures s != [] && !SpaceFirst(s) ==> n > 0
  {
    if s == [] || SpaceFirst(s) then 0 else DecodeSize(s) + WordLen(s[DecodeSize(s)..])
  }

  function Fields(s: Bytes): seq<Bytes>
    decreases |s|
  {
    TrimLeftShorter(s);
    var t := TrimLeft(s);
    if t == [] then []
    else
      TrimLeftStops(s);
      [t[..WordLen(t)]] + Fields(t[WordLen(t)..])
  }

  lemma TrimLeftShorter(s: Bytes)
    ensures |TrimLeft(s)| <= |s|
  {
  }

  lemma TrimLeftStops(s: Bytes)
    ensures !SpaceFirst(TrimLeft(s))
  {
  }

  lemma {:induction false} WordSolid(s: Bytes)
    requires Valid(s)
    ensures var w := s[..WordLen(s)];
            && Valid(w) && NonSpace(w) == w && Valid(s[WordLen(s)..])
            && NonSpace(s) == w + NonSpace(s[WordLen(s)..])
    decreases |s|
  {
    if s == [] || SpaceFirst(s) {
      assert s[..0] == [] && s[0..] == s;
    } else {
      WordSolid(s[CharLen(s)..]);
      WordStep(s);
    }
  }

  lemma WordStep(s: Bytes)
    requires Valid(s) && s != [] && !SpaceFirst(s)
    requires var rest := s[CharLen(s)..]; var w := rest[..WordLen(rest)];
             Valid(w) && NonSpace(w) == w && NonSpace(rest) == w + NonSpace(rest[WordLen(rest)..])
    ensures var w := s[..WordLen(s)];
            Valid(w) && NonSpace(w) == w && NonSpace(s) == w + NonSpace(s[WordLen(s)..])
    ensures s[WordLen(s)..] == s[CharLen(s)..][WordLen(s[CharLen(s)..])..]
  {
    hide *;
    var n := CharLen(s);
    var rest := s[n..];
    var m := WordLen(rest);
    var c := s[..n];
    var w := rest[..m];
    NonSpaceStep(s);
    FirstChar(s);
    ValidConcat(c, w);
    NonSpaceConcat(c, w);
    assert s[..n + m] == c + w && s[n + m..] == rest[m..];
    assert c + (w + NonSpace(rest[m..])) == c + w + NonSpace(rest[m..]);
  }

  lemma FirstChar(s: Bytes)
    requires Valid(s) && s != [] && !SpaceFirst(s)
    ensures WordLen(s) == CharLen(s) + WordLen(s[CharLen(s)..])
    ensures var c := s[..CharLen(s)]; Valid(c) && NonSpace(c) == c && Visible(c) == c
  {
    var n := CharLen(s);
    var c := s[..n];
    CharLenPrefix(s, n);
    assert c[n..] == [] && c[..n] == c;
    NonSpaceStep(c);
  }

  ghost predicate IsWord(w: Bytes) {
    w != [] && Valid(w) && NonSpace(w) == w
  }

  /** Not empty, and not beginning with white space. */
  predicate Solid(s: Bytes) {
    s != [] && !SpaceFirst(s)
  }

  lemma SpaceIsChar(s: Bytes)
    requires SpaceFirst(s)
    ensures CharLen(s) > 0
  {}

  lemma SpaceFirstGrows(s: Bytes, k: nat)
    requires 0 < k <= |s| && SpaceFirst(s[..k])
    ensures SpaceFirst(s)
  {
    hide CharLen, IsSpaceChar;
    SpaceIsChar(s[..k]);
    CharLenExtend(s[..k], s[k..]);
    assert s[..k] + s[k..] == s;
    assert s[..k][..CharLen(s[..k])] == s[..CharLen(s)];
  }

  lemma SolidPrefix(s: Bytes, k: nat)
    requires Solid(s) && 0 < k <= |s|
    ensures Solid(s[..k])
  {
    if SpaceFirst(s[..k]) {
      SpaceFirstGrows(s, k);
    }
  }

  lemma {:induction false} SolidTrimRight(s: Bytes)
    requires Solid(s)
    ensures TrimRight(s) != []
    decreases |s|
  {
    hide CharLen, IsSpaceChar, LastSize;
    if SpaceLast(s) {
      var k := |s| - LastSize(s);
      assert s[0..] == s && s[..|s|] == s;
      SolidPrefix(s, k);
      SolidTrimRight(s[..k]);
    }
  }

  lemma SolidTrim(s: Bytes)
    requires Solid(s)
    ensures TrimSpace(s) != []
  {
    SolidTrimRight(s);
  }

  /** A separator ends whatever character might have begun before it. */
  lemma SpaceFirstShrinks(a: Bytes, sep: byte, b: Bytes)
    requires a != [] && (sep == SPACE || sep == NEWLINE) && SpaceFirst(a + [sep] + b)
    ensures SpaceFirst(a)
  {
    hide IsSpaceChar;
    var s := a + [sep] + b;
    var n := CharLen(s);
    assert s[|a|] == sep && s[..|a|] == a;
    SpaceIsChar(s);
    assert n <= |a|;
    CharLenPrefix(s, |a|);
    assert s[..n] == a[..n];
  }

  lemma SolidJoin(a: Bytes, sep: byte, b: Bytes)
    requires Solid(a) && (sep == SPACE || sep == NEWLINE)
    ensures Solid(a + [sep] + b)
  {
    if SpaceFirst(a + [sep] + b) {
      SpaceFirstShrinks(a, sep, b);
    }
  }

  lemma {:induction false} FieldsSolid(s: Bytes)
    ensures forall i :: 0 <= i < |Fields(s)| ==> Fields(s)[i] != [] && Solid(Fields(s)[i])
    decreases |s|
  {
    hide CharLen;
    TrimLeftShorter(s);
    TrimLeftStops(s);
    var t := TrimLeft(s);
    if t != [] {
      SolidPrefix(t, WordLen(t));
      FieldsSolid(t[WordLen(t)..]);
    }
  }

  /** The words of a text, joined, are the text without its white space. */
  lemma {:induction false} FieldsKeep(s: Bytes)
    requires Valid(s)
    ensures Flatten(Fields(s)) == NonSpace(s)
    ensures forall i :: 0 <= i < |Fields(s)| ==> IsWord(Fields(s)[i])
    decreases |s|
  {
    hide NonSpace, Valid, SpaceFirst, TrimLeft, WordLen;
    TrimLeftShorter(s);
    TrimLeftStops(s);
    TrimLeftKeeps(s);
    var t := TrimLeft(s);
    if t != [] {
      WordSolid(t);
      FieldsKeep(t[WordLen(t)..]);
    }
  }

  // ---------- strings.Split(text, "\n\n") ----------

  lemma AfterNewline(s: Bytes)
    requires Valid(s) && s != [] && s[0] == NEWLINE
    ensures Valid(s[1..]) && NonSpace(s[1..]) == NonSpace(s)
  {
    hide NonSpace, Valid;
    NonSpaceStep(s);
    assert CharLen(s) == 1 && s[..1] == [NEWLINE];
  }

  /** Offset of the first blank line, or the length. */
  function BlankLine(s: Bytes): (k: nat)
    ensures k <= |s|
    ensures k < |s| ==> k + 2 <= |s| && s[k] == NEWLINE && s[k + 1] == NEWLINE
  {
    if |s| < 2 then |s|
    else if s[0] == NEWLINE && s[1] == NEWLINE then 0
    else 1 + BlankLine(s[1..])
  }

  function Paragraphs(s: Bytes): (ps: seq<Bytes>)
    ensures |ps| >= 1
    decreases |s|
  {
    var k := BlankLine(s);
    if k == |s| then [s] else [s[..k]] + Paragraphs(s[k + 2..])
  }

  /** What is left of a list of texts without their white space. */
  function Kept(parts: seq<Bytes>): Bytes {
    if parts == [] then [] else NonSpace(parts[0]) + Kept(parts[1..])
  }

  lemma {:induction false} KeptConcat(a: seq<Bytes>, b: seq<Bytes>)
    ensures Kept(a + b) == Kept(a) + Kept(b)
    decreases |a|
  {
    if a == [] {
      assert a + b == b;
    } else {
      assert (a + b)[1..] == a[1..] + b;
      KeptConcat(a[1..], b);
    }
  }

  lemma KeptSnoc(a: seq<Bytes>, s: Bytes)
    ensures Kept(a + [s]) == Kept(a) + NonSpace(s)
  {
    KeptConcat(a, [s]);
    assert [s][1..] == [];
  }

  lemma {:induction false} ParagraphsKeep(s: Bytes)
    requires Valid(s)
    ensures Kept(Paragraphs(s)) == NonSpace(s)
    ensures forall i :: 0 <= i < |Paragraphs(s)| ==> Valid(Paragraphs(s)[i])
    decreases |s|
  {
    hide IsSpaceChar, CharLen, NonSpace, Valid;
    var k := BlankLine(s);
    if k < |s| {
      var rest := s[k + 2..];
      NonSpaceSplit(s, k);
      var b := s[k..];
      AfterNewline(b);
      AfterNewline(b[1..]);
      assert b[1..][1..] == rest;
      ParagraphsKeep(rest);
    } else {
      assert [s][1..] == [];
    }
  }
}
