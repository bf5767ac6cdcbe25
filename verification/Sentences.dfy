/**
 findSentenceBoundaries of ingest/chunker.go. The Unicode tables (upper case) and
 the abbreviation list are arbitrary predicates here.
 */
module Sentences {
  import opened Octets
  import opened Utf8
  import opened CodePoints

  const DOT: Bytes := [0x2E]
  const BANG: Bytes := [0x21]
  const QUERY: Bytes := [0x3F]
  const BLANK: Bytes := [0x20]
  const LINE_END: Bytes := [0x0A]
  const CJK_STOP: Bytes := [0xE3, 0x80, 0x82]
  const CJK_BANG: Bytes := [0xEF, 0xBC, 0x81]
  const CJK_QUERY: Bytes := [0xEF, 0xBC, 0x9F]
  /** utf8.RuneError, which every undecodable byte turns into. */
  const REPLACEMENT: Bytes := [0xEF, 0xBF, 0xBD]

  /** The oracles: unicode.IsUpper on a rune, isAbbreviation at a byte offset. */
  datatype Tables = Tables(isUpper: Bytes -> bool, isAbbreviation: (Bytes, nat) -> bool)

  /** []rune(text), each rune as the bytes that encode it. */
  function Runes(s: Bytes): seq<Bytes> {
    if s == [] then []
    else [if CharLen(s) == 0 then REPLACEMENT else s[..CharLen(s)]] + Runes(s[DecodeSize(s)..])
  }

  /** byteOffsets[i]: the encoded lengths of the runes before i. */
  function Offset(runes: seq<Bytes>, i: nat): nat
    requires i <= |runes|
  {
    |Flatten(runes[..i])|
  }

  predicate IsDecimalDot(text: Bytes, dot: nat) {
    0 < dot && dot + 1 < |text| && 0x30 <= text[dot - 1] <= 0x39 && 0x30 <= text[dot + 1] <= 0x39
  }

  /** The rune index after which the sentence ending at rune i may be cut, or none. */
  datatype Mark = NoMark | Mark(at: nat)

  function MarkAt(t: Tables, text: Bytes, runes: seq<Bytes>, i: nat): (m: Mark)
    requires i < |runes|
    ensures m.Mark? ==> i < m.at <= |runes|
  {
    var r := runes[i];
    if r == CJK_STOP || r == CJK_BANG || r == CJK_QUERY then Mark(i + 1)
    else if r != DOT && r != BANG && r != QUERY then NoMark
    else if r == DOT && IsDecimalDot(text, Offset(runes, i)) then NoMark
    else if r == DOT && t.isAbbreviation(text, Offset(runes, i)) then NoMark
    else if i + 1 < |runes| && runes[i + 1] == LINE_END then Mark(i + 1)
    else if i + 1 < |runes| && runes[i + 1] == BLANK then
      if i + 2 < |runes| && t.isUpper(runes[i + 2]) then Mark(i + 2)
      else if i + 2 >= |runes| then Mark(|runes|)
      else NoMark
    else NoMark
  }

  function Marks(t: Tables, text: Bytes, runes: seq<Bytes>, n: nat): seq<nat>
    requires n <= |runes|
  {
    if n == 0 then []
    else
      var before := Marks(t, text, runes, n - 1);
      match MarkAt(t, text, runes, n - 1)
      case NoMark => before
      case Mark(at) => before + [at]
  }

  ghost predicate Increasing(s: seq<nat>) {
    forall i, j :: 0 <= i < j < |s| ==> s[i] < s[j]
  }

  /** Cuts come in order: the rune after a cut that skipped a blank has none. */
  lemma {:induction false} MarksIncrease(t: Tables, text: Bytes, runes: seq<Bytes>, n: nat)
    requires n <= |runes|
    ensures var ms := Marks(t, text, runes, n);
            && Increasing(ms)
            && (forall i :: 0 <= i < |ms| ==> 0 < ms[i] <= |runes|)
            && (ms != [] ==> ms[|ms| - 1] <= n + 1)
            && (ms != [] && ms[|ms| - 1] == n + 1 ==> n < |runes| && runes[n] == BLANK)
    decreases n
  {
    if n > 0 {
      MarksIncrease(t, text, runes, n - 1);
    }
  }

  // ---------- Byte offsets ----------

  lemma {:induction false} RunesOfValid(s: Bytes)
    requires Valid(s)
    ensures Flatten(Runes(s)) == s
    ensures forall i :: 0 <= i < |Runes(s)| ==> Runes(s)[i] != [] && RuneStart(Runes(s)[i][0])
    decreases |s|
  {
    hide CharLen;
    if s != [] {
      var n := CharLen(s);
      RunesOfValid(s[n..]);
      assert s == s[..n] + s[n..];
      assert Runes(s)[1..] == Runes(s[n..]);
    }
  }

  /** The offsets add up to the length of the text exactly when the text is valid
      UTF-8: an undecodable byte is counted as three. */
  lemma {:induction false} OffsetsExact(s: Bytes)
    ensures Offset(Runes(s), |Runes(s)|) >= |s|
    ensures Offset(Runes(s), |Runes(s)|) == |s| <==> Valid(s)
    decreases |s|
  {
    var rs := Runes(s);
    assert rs[..|rs|] == rs;
    if s != [] {
      var n := DecodeSize(s);
      OffsetsExact(s[n..]);
      assert rs[1..] == Runes(s[n..]);
      assert Runes(s[n..])[..|Runes(s[n..])|] == Runes(s[n..]);
      assert CharLen(s) == 0 ==> |rs[0]| == 3;
      assert CharLen(s) > 0 ==> |rs[0]| == n;
    }
  }

  /** In a valid text every offset is a place where it may be cut. */
  lemma OffsetBoundary(s: Bytes, i: nat)
    requires Valid(s) && i <= |Runes(s)|
    ensures Boundary(s, Offset(Runes(s), i))
  {
    hide Runes, Valid;
    RunesOfValid(s);
    if i < |Runes(s)| {
      StartAt(Runes(s), i);
    } else {
      assert Runes(s)[..i] == Runes(s);
    }
  }

  lemma StartAt(runes: seq<Bytes>, i: nat)
    requires i < |runes| && runes[i] != []
    ensures Offset(runes, i) < |Flatten(runes)| && Flatten(runes)[Offset(runes, i)] == runes[i][0]
  {
    FlattenConcat(runes[..i], runes[i..]);
    assert runes == runes[..i] + runes[i..];
    assert Flatten(runes[i..]) == runes[i] + Flatten(runes[i..][1..]);
  }

  lemma OffsetIncreases(runes: seq<Bytes>, i: nat, j: nat)
    requires i < j <= |runes| && forall k :: 0 <= k < |runes| ==> runes[k] != []
    ensures Offset(runes, i) < Offset(runes, j)
  {
    assert runes[..j] == runes[..i] + runes[i..j];
    FlattenConcat(runes[..i], runes[i..j]);
    assert Flatten(runes[i..j]) == runes[i] + Flatten(runes[i..j][1..]);
  }

  // ---------- The scan ----------

  /** Byte offsets where the text may be cut between sentences. */
  ghost predicate CutPoints(text: Bytes, bs: seq<nat>) {
    && Increasing(bs)
    && forall i :: 0 <= i < |bs| ==> 0 < bs[i] && Boundary(text, bs[i])
  }

  /** One boundary per mark, at the mark's byte offset. */
  ghost predicate IsBoundaries(t: Tables, text: Bytes, boundaries: seq<nat>) {
    var ms := Marks(t, text, Runes(text), |Runes(text)|);
    |boundaries| == |ms| && forall k :: 0 <= k < |ms| ==> ms[k] <= |Runes(text)| && boundaries[k] == Offset(Runes(text), ms[k])
  }

  method ByteOffsets(runes: seq<Bytes>) returns (offsets: seq<nat>)
    ensures |offsets| == |runes| + 1 && forall i :: 0 <= i <= |runes| ==> offsets[i] == Offset(runes, i)
  {
    offsets := [];
    var off := 0;
    for i := 0 to |runes|
      invariant |offsets| == i && off == Offset(runes, i)
      invariant forall k :: 0 <= k < i ==> offsets[k] == Offset(runes, k)
    {
      offsets := offsets + [off];
      assert runes[..i + 1] == runes[..i] + [runes[i]];
      FlattenSnoc(runes[..i], runes[i]);
      off := off + |runes[i]|;
    }
    offsets := offsets + [off];
  }

  /** Some dot's computed offset lies beyond the text, where isAbbreviation slices. */
  ghost predicate DotBeyond(text: Bytes) {
    exists i :: 0 <= i < |Runes(text)| && Runes(text)[i] == DOT && Offset(Runes(text), i) > |text|
  }

  /** On any bytes: increasing positions, one per mark, or a panic exactly when a dot
      lies beyond the text. In valid text it never does, and every position is a
      place where the text may be cut. */
  method FindSentenceBoundaries(t: Tables, text: Bytes) returns (boundaries: seq<nat>, panics: bool)
    ensures panics <==> DotBeyond(text)
    ensures !panics ==> IsBoundaries(t, text, boundaries) && Rising(boundaries)
    ensures Valid(text) ==> !panics && CutPoints(text, boundaries) && AreEnds(t, text, boundaries)
  {
    hide Runes, Valid, Offset, EndsSentence;
    var runes := Runes(text);
    var n := |runes|;
    var offsets := ByteOffsets(runes);
    boundaries, panics := [], false;
    ghost var marks: seq<nat> := [];
    if Valid(text) {
      NoDotBeyond(text);
    }
    for i := 0 to n
      invariant marks == Marks(t, text, runes, i) && |boundaries| == |marks|
      invariant forall k :: 0 <= k < |marks| ==> marks[k] <= n && boundaries[k] == Offset(runes, marks[k])
      invariant forall k :: 0 <= k < i && runes[k] == DOT ==> Offset(runes, k) <= |text|
    {
      var r := runes[i];
      if r == CJK_STOP || r == CJK_BANG || r == CJK_QUERY {
        boundaries := boundaries + [offsets[i + 1]];
        marks := marks + [i + 1];
        continue;
      }
      if r != DOT && r != BANG && r != QUERY {
        continue;
      }
      var dot := offsets[i];
      if r == DOT && IsDecimalDot(text, dot) {
        continue;
      }
      if r == DOT {
        if dot > |text| {
          return boundaries, true;
        }
        if t.isAbbreviation(text, dot) {
          continue;
        }
      }
      if i + 1 < n && (runes[i + 1] == BLANK || runes[i + 1] == LINE_END) {
        if runes[i + 1] == LINE_END {
          boundaries := boundaries + [offsets[i + 1]];
          marks := marks + [i + 1];
        } else if i + 2 < n && t.isUpper(runes[i + 2]) {
          boundaries := boundaries + [offsets[i + 2]];
          marks := marks + [i + 2];
        } else if i + 2 >= n {
          boundaries := boundaries + [offsets[n]];
          marks := marks + [n];
        }
      }
    }
    RisingOfMarks(t, text, boundaries);
    if Valid(text) {
      CutPointsOfMarks(t, text, boundaries);
      BoundariesAreEnds(t, text, boundaries);
    }
  }

  ghost predicate Rising(bs: seq<nat>) {
    Increasing(bs) && forall i :: 0 <= i < |bs| ==> 0 < bs[i]
  }

  lemma {:induction false} RunesNonEmpty(s: Bytes)
    ensures forall i :: 0 <= i < |Runes(s)| ==> Runes(s)[i] != []
    decreases |s|
  {
    if s != [] {
      RunesNonEmpty(s[DecodeSize(s)..]);
    }
  }

  lemma RisingOfMarks(t: Tables, text: Bytes, bs: seq<nat>)
    requires IsBoundaries(t, text, bs)
    ensures Rising(bs)
  {
    hide Runes, Offset;
    var runes := Runes(text);
    var ms := Marks(t, text, runes, |runes|);
    MarksIncrease(t, text, runes, |runes|);
    RunesNonEmpty(text);
    forall i | 0 <= i < |bs| ensures 0 < bs[i] {
      OffsetIncreases(runes, 0, ms[i]);
    }
    forall i, j | 0 <= i < j < |bs| ensures bs[i] < bs[j] {
      OffsetIncreases(runes, ms[i], ms[j]);
    }
  }

  lemma NoDotBeyond(text: Bytes)
    requires Valid(text)
    ensures !DotBeyond(text)
  {
    hide Runes, Valid, Offset;
    forall i | 0 <= i < |Runes(text)| ensures Offset(Runes(text), i) <= |text| {
      OffsetBoundary(text, i);
    }
  }

  lemma CutPointsOfMarks(t: Tables, text: Bytes, bs: seq<nat>)
    requires Valid(text) && IsBoundaries(t, text, bs)
    ensures CutPoints(text, bs)
  {
    hide Runes, Valid, Offset;
    RisingOfMarks(t, text, bs);
    var ms := Marks(t, text, Runes(text), |Runes(text)|);
    forall i | 0 <= i < |bs| ensures Boundary(text, bs[i]) {
      OffsetBoundary(text, ms[i]);
    }
  }

  // ---------- Which positions they are ----------

  /** The character that stands at p. */
  function CharAt(text: Bytes, p: nat): Bytes
    requires p < |text|
  {
    text[p..][..DecodeSize(text[p..])]
  }

  /** This code point stands at p. */
  predicate Stands(text: Bytes, p: nat, c: nat)
    requires ScalarValue(c)
  {
    p < |text| && Encode(c) <= text[p..]
  }

  /** A dot that ends a sentence: neither inside a number nor behind an abbreviation. */
  predicate EndingDot(t: Tables, text: Bytes, p: nat) {
    && Stands(text, p, 0x2E)
    && !(0 < p && p + 1 < |text| && 0x30 <= text[p - 1] <= 0x39 && 0x30 <= text[p + 1] <= 0x39)
    && !t.isAbbreviation(text, p)
  }

  /** A sentence ends with the mark at p, and the text may be cut at b: an ideographic full
      stop or a full-width exclamation or question mark, right behind it; an ending
      dot, exclamation or question mark, before a line break, or behind a blank that
      ends the text or that an upper-case letter follows. */
  predicate EndsSentence(t: Tables, text: Bytes, p: nat, b: nat) {
    || ((Stands(text, p, 0x3002) || Stands(text, p, 0xFF01) || Stands(text, p, 0xFF1F)) && b == p + 3)
    || (&& (EndingDot(t, text, p) || Stands(text, p, 0x21) || Stands(text, p, 0x3F))
        && (|| (Stands(text, p + 1, 0x0A) && b == p + 1)
            || (&& Stands(text, p + 1, 0x20) && b == p + 2
                && (p + 2 == |text| || t.isUpper(CharAt(text, p + 2))))))
  }

  /** Exactly the ends of sentences are boundaries. */
  ghost predicate AreEnds(t: Tables, text: Bytes, bs: seq<nat>) {
    forall b :: b in bs <==> exists p :: EndsSentence(t, text, p, b)
  }

  lemma {:induction false} MarksFrom(t: Tables, text: Bytes, runes: seq<Bytes>, n: nat, m: nat)
    requires n <= |runes|
    ensures m in Marks(t, text, runes, n) <==> exists i :: 0 <= i < n && MarkAt(t, text, runes, i) == Mark(m)
    decreases n
  {
    if n > 0 {
      MarksFrom(t, text, runes, n - 1, m);
      if MarkAt(t, text, runes, n - 1) == Mark(m) {
        var ms := Marks(t, text, runes, n);
        assert ms[|ms| - 1] == m;
      }
    }
  }

  /** Rune i of a valid text: where it stands, and what follows. */
  lemma {:induction false} RuneStands(s: Bytes, i: nat)
    requires Valid(s) && i < |Runes(s)|
    ensures var p := Offset(Runes(s), i);
      && p < |s| && CharLen(s[p..]) > 0 && Runes(s)[i] == s[p..][..CharLen(s[p..])] == CharAt(s, p)
      && Offset(Runes(s), i + 1) == p + |Runes(s)[i]| <= |s|
      && (i + 1 < |Runes(s)| <==> p + |Runes(s)[i]| < |s|)
    decreases |s|
  {
    hide CharLen, Offset, Runes;
    RestEmpty(s);
    var n := CharLen(s);
    OffsetStart(s);
    if i > 0 {
      RuneStands(s[n..], i - 1);
      OffsetRest(s, i);
      OffsetRest(s, i + 1);
      var q := Offset(Runes(s[n..]), i - 1);
      assert s[n..][q..] == s[n + q..];
    } else {
      assert s[0..] == s;
      RestEmpty(s[n..]);
    }
  }

  lemma RestEmpty(s: Bytes)
    ensures |Runes(s)| > 0 <==> |s| > 0
  {}

  lemma OffsetStart(s: Bytes)
    requires Valid(s) && s != []
    ensures Runes(s) == [s[..CharLen(s)]] + Runes(s[CharLen(s)..])
    ensures Offset(Runes(s), 0) == 0 && Offset(Runes(s), 1) == CharLen(s)
  {
    var rs := Runes(s);
    assert rs[..0] == [] && rs[..1] == [] + [rs[0]];
    FlattenSnoc([], rs[0]);
  }

  lemma OffsetRest(s: Bytes, i: nat)
    requires Valid(s) && s != [] && 0 < i <= |Runes(s)|
    ensures Offset(Runes(s), i) == CharLen(s) + Offset(Runes(s[CharLen(s)..]), i - 1)
  {
    hide CharLen;
    var n := CharLen(s);
    var rs := Runes(s);
    assert rs[1..] == Runes(s[n..]);
    assert rs[..i][1..] == Runes(s[n..])[..i - 1] && rs[..i][0] == rs[0];
  }

  /** Every rune start of a valid text is where some rune stands. */
  lemma {:induction false} RuneIndex(s: Bytes, p: nat) returns (i: nat)
    requires Valid(s) && p < |s| && RuneStart(s[p])
    ensures i < |Runes(s)| && Offset(Runes(s), i) == p
    decreases |s|
  {
    OffsetStart(s);
    if p == 0 {
      i := 0;
    } else {
      var n := CharLen(s);
      assert n <= p && s[n..][p - n] == s[p];
      i := RuneIndex(s[n..], p - n);
      i := i + 1;
      OffsetRest(s, i);
    }
  }

  /** A code point stands where its encoding is the whole rune. */
  lemma StandsIsChar(text: Bytes, p: nat, c: nat)
    requires ScalarValue(c) && p < |text| && CharLen(text[p..]) > 0
    ensures Stands(text, p, c) <==> CharAt(text, p) == Encode(c)
  {
    hide CharLen, Encode;
    if Stands(text, p, c) {
      EncodedIsChar(c, text[p..][|Encode(c)|..]);
      assert text[p..] == Encode(c) + text[p..][|Encode(c)|..];
    }
  }

  /** The marks by their code points. */
  lemma MarkCodePoints()
    ensures Encode(0x2E) == DOT && Encode(0x21) == BANG && Encode(0x3F) == QUERY
    ensures Encode(0x20) == BLANK && Encode(0x0A) == LINE_END
    ensures Encode(0x3002) == CJK_STOP && Encode(0xFF01) == CJK_BANG && Encode(0xFF1F) == CJK_QUERY
  {}

  /** What the loop tests at rune i, as tests on the text at the place of that rune. */
  lemma RuneTests(text: Bytes, i: nat)
    requires Valid(text) && i < |Runes(text)|
    ensures var p, r := Offset(Runes(text), i), Runes(text)[i];
      && p < |text| && RuneStart(text[p]) && r == CharAt(text, p)
      && (r == DOT <==> Stands(text, p, 0x2E)) && (r == BANG <==> Stands(text, p, 0x21))
      && (r == QUERY <==> Stands(text, p, 0x3F)) && (r == BLANK <==> Stands(text, p, 0x20))
      && (r == LINE_END <==> Stands(text, p, 0x0A)) && (r == CJK_STOP <==> Stands(text, p, 0x3002))
      && (r == CJK_BANG <==> Stands(text, p, 0xFF01)) && (r == CJK_QUERY <==> Stands(text, p, 0xFF1F))
  {
    hide Runes, Valid, Offset, Stands, Encode, CharAt;
    var p := Offset(Runes(text), i);
    RuneStands(text, i);
    MarkCodePoints();
    StandsIsChar(text, p, 0x2E);
    StandsIsChar(text, p, 0x21);
    StandsIsChar(text, p, 0x3F);
    StandsIsChar(text, p, 0x20);
    StandsIsChar(text, p, 0x0A);
    StandsIsChar(text, p, 0x3002);
    StandsIsChar(text, p, 0xFF01);
    StandsIsChar(text, p, 0xFF1F);
    assert text[p..][0] == text[p];
  }

  /** The mark of rune i is the end of the sentence at its place. */
  lemma MarkIsEnd(t: Tables, text: Bytes, i: nat)
    requires Valid(text) && i < |Runes(text)|
    ensures var runes := Runes(text);
      var p, m := Offset(runes, i), MarkAt(t, text, runes, i);
      forall b :: EndsSentence(t, text, p, b) <==> m.Mark? && b == Offset(runes, m.at)
  {
    hide Runes, Valid, Offset, Stands, CharAt;
    var runes := Runes(text);
    var p := Offset(runes, i);
    RuneStands(text, i);
    RuneTests(text, i);
    if i + 1 < |runes| {
      RuneStands(text, i + 1);
      RuneTests(text, i + 1);
      if i + 2 < |runes| {
        RuneStands(text, i + 2);
      }
    } else {
      NoneStands(text, p + |runes[i]|);
    }
  }

  lemma NoneStands(text: Bytes, p: nat)
    requires p >= |text|
    ensures !Stands(text, p, 0x20) && !Stands(text, p, 0x0A)
  {}

  lemma BoundaryEnds(t: Tables, text: Bytes, bs: seq<nat>, k: nat) returns (p: nat)
    requires Valid(text) && IsBoundaries(t, text, bs) && k < |bs|
    ensures EndsSentence(t, text, p, bs[k])
  {
    hide Runes, Valid, Offset, MarkAt, EndsSentence, Marks;
    var runes := Runes(text);
    var ms := Marks(t, text, runes, |runes|);
    MarksFrom(t, text, runes, |runes|, ms[k]);
    var i :| 0 <= i < |runes| && MarkAt(t, text, runes, i) == Mark(ms[k]);
    MarkIsEnd(t, text, i);
    p := Offset(runes, i);
    assert bs[k] == Offset(runes, MarkAt(t, text, runes, i).at);
  }

  lemma EndIsBoundary(t: Tables, text: Bytes, bs: seq<nat>, p: nat, b: nat)
    requires Valid(text) && IsBoundaries(t, text, bs) && EndsSentence(t, text, p, b)
    ensures b in bs
  {
    hide Runes, Valid, Offset, MarkAt, EndsSentence, Marks;
    var runes := Runes(text);
    var ms := Marks(t, text, runes, |runes|);
    EndsAtStart(t, text, p, b);
    var i := RuneIndex(text, p);
    MarkIsEnd(t, text, i);
    var m := MarkAt(t, text, runes, i).at;
    assert MarkAt(t, text, runes, i) == Mark(m);
    MarksFrom(t, text, runes, |runes|, m);
    var k :| 0 <= k < |ms| && ms[k] == m;
    assert bs[k] == b;
  }

  /** Soundness and completeness of the boundaries, by the bytes of the text. */
  lemma BoundariesAreEnds(t: Tables, text: Bytes, bs: seq<nat>)
    requires Valid(text) && IsBoundaries(t, text, bs)
    ensures AreEnds(t, text, bs)
  {
    hide Valid, EndsSentence, IsBoundaries;
    forall b: nat ensures b in bs <==> exists p :: EndsSentence(t, text, p, b) {
      if b in bs {
        var k :| 0 <= k < |bs| && bs[k] == b;
        var p := BoundaryEnds(t, text, bs, k);
      } else if p: nat :| EndsSentence(t, text, p, b) {
        EndIsBoundary(t, text, bs, p, b);
      }
    }
  }

  lemma EndsAtStart(t: Tables, text: Bytes, p: nat, b: nat)
    requires EndsSentence(t, text, p, b)
    ensures p < |text| && RuneStart(text[p])
  {
    MarkCodePoints();
    assert p < |text| ==> text[p..][0] == text[p];
  }

  const STRAY_DOT: Bytes := [0xFF, 0x2E]

  /** A stray byte before a dot: the dot's offset is 3 in a text of 2 bytes. */
  lemma StrayByteMovesDot()
    ensures DotBeyond(STRAY_DOT)
  {
    var s := STRAY_DOT;
    assert CharLen(s) == 0 && s[1..] == DOT && CharLen(DOT) == 1 && DOT[1..] == [];
    assert DecodeSize(DOT) == 1 && DOT[..1] == DOT && Runes([]) == [];
    assert Runes(DOT) == [DOT[..1]] + Runes(DOT[1..]) == [DOT];
    assert Runes(s) == [REPLACEMENT] + Runes(DOT) == [REPLACEMENT, DOT];
    assert [REPLACEMENT, DOT][..1] == [REPLACEMENT];
    FlattenSnoc([], REPLACEMENT);
    assert [] + [REPLACEMENT] == [REPLACEMENT] && Flatten([REPLACEMENT]) == [] + REPLACEMENT;
    assert Offset(Runes(s), 1) == 3;
  }

  /** An invalid text need not panic. */
  lemma StrayByteAlone()
    ensures !Valid([0xFF]) && !DotBeyond([0xFF])
  {
    var s: Bytes := [0xFF];
    assert CharLen(s) == 0 && s[1..] == [];
    assert Runes(s) == [REPLACEMENT] + Runes([]) == [REPLACEMENT];
  }
}
