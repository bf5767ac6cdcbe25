/**
 What strings.TrimSpace, strings.Fields and strings.Split(text, "\n\n") return, by the
 text alone: Spaces defines them as they run, this says which answer is the only one.
 */
module Splitting {
  import opened Octets
  import opened Utf8
  import opened Spaces

  // ---------- TrimSpace ----------

  /** t is s without some white space before it. */
  ghost predicate CutsBefore(s: Bytes, t: Bytes) {
    |t| <= |s| && t == s[|s| - |t|..] && Valid(s[..|s| - |t|]) && NonSpace(s[..|s| - |t|]) == []
  }

  lemma TrimLeftStep(s: Bytes)
    requires SpaceFirst(s) && Valid(s)
    ensures s != [] && 0 < CharLen(s) && Valid(s[CharLen(s)..]) && TrimLeft(s) == TrimLeft(s[CharLen(s)..])
    ensures IsSpaceChar(s[..CharLen(s)])
  {
    hide IsSpaceChar, CharLen;
    SpaceIsChar(s);
  }

  lemma CutsOneMore(s: Bytes, t: Bytes)
    requires s != [] && 0 < CharLen(s) && IsSpaceChar(s[..CharLen(s)]) && CutsBefore(s[CharLen(s)..], t)
    ensures CutsBefore(s, t)
  {
    hide IsSpaceChar, CharLen, NonSpace, Valid;
    var n := CharLen(s);
    var c, rest := s[..n], s[n..];
    var gap := rest[..|rest| - |t|];
    assert s[..|s| - |t|] == c + gap && s[|s| - |t|..] == rest[|rest| - |t|..];
    CharLenPrefix(s, n);
    SpaceCharIsNothing(c);
    ValidOne(c);
    ValidConcat(c, gap);
    NonSpaceConcat(c, gap);
  }

  lemma NothingBefore(s: Bytes)
    requires !SpaceFirst(s)
    ensures TrimLeft(s) == s && CutsBefore(s, s)
  {
    assert s[..0] == [] && s[0..] == s;
  }

  lemma {:induction false} TrimLeftIsSuffix(s: Bytes)
    requires Valid(s)
    ensures CutsBefore(s, TrimLeft(s))
    decreases |s|
  {
    hide *;
    if SpaceFirst(s) {
      TrimLeftStep(s);
      TrimLeftIsSuffix(s[CharLen(s)..]);
      CutsOneMore(s, TrimLeft(s));
    } else {
      NothingBefore(s);
    }
  }

  lemma ValidOne(c: Bytes)
    requires c != [] && CharLen(c) == |c|
    ensures Valid(c)
  {
    assert c[|c|..] == [];
  }

  /** t is s without some white space behind it. */
  ghost predicate CutsBehind(s: Bytes, t: Bytes) {
    t <= s && Valid(s[|t|..]) && NonSpace(s[|t|..]) == []
  }

  lemma TrimRightStep(s: Bytes)
    requires SpaceLast(s)
    ensures s != []
    ensures var k := |s| - LastSize(s);
      TrimRight(s) == TrimRight(s[..k]) && k < |s| && CharLen(s[k..]) == |s| - k && IsSpaceChar(s[k..])
  {
    hide IsSpaceChar, CharLen;
  }

  lemma CutsMore(s: Bytes, k: nat, t: Bytes)
    requires k < |s| && CutsBehind(s[..k], t) && CharLen(s[k..]) == |s| - k && IsSpaceChar(s[k..])
    ensures CutsBehind(s, t)
  {
    hide IsSpaceChar, CharLen, NonSpace, Valid;
    var gap, c := s[..k][|t|..], s[k..];
    assert s[|t|..] == gap + c;
    SpaceCharIsNothing(c);
    ValidOne(c);
    NonSpaceConcat(gap, c);
    ValidConcat(gap, c);
  }

  lemma {:induction false} TrimRightIsPrefix(s: Bytes)
    requires Valid(s)
    ensures CutsBehind(s, TrimRight(s)) && !SpaceLast(TrimRight(s))
    decreases |s|
  {
    hide *;
    if SpaceLast(s) {
      TrimRightStep(s);
      var k := |s| - LastSize(s);
      FrontValid(s, k);
      TrimRightIsPrefix(s[..k]);
      CutsMore(s, k, TrimRight(s));
    } else {
      NothingTrimmed(s);
    }
  }

  lemma FrontValid(s: Bytes, k: nat)
    requires Valid(s) && k < |s| && CharLen(s[k..]) == |s| - k
    ensures Valid(s[..k])
  {
    assert s[k..][0] == s[k];
    ValidSplit(s, k);
  }

  lemma NothingTrimmed(s: Bytes)
    requires !SpaceLast(s)
    ensures TrimRight(s) == s && CutsBehind(s, s)
  {
    assert s[|s|..] == [];
  }

  /** Neither end of t is white space. */
  predicate Tight(t: Bytes) {
    && (forall k :: 0 < k <= |t| ==> !IsSpaceChar(t[..k]))
    && (forall k :: 0 <= k < |t| ==> !IsSpaceChar(t[k..]))
  }

  lemma SpaceCharIsChar(c: Bytes)
    requires IsSpaceChar(c)
    ensures 1 <= |c| <= 3 && CharLen(c) == |c|
  {}

  lemma SpaceHead(t: Bytes, k: nat)
    requires 0 < k <= |t| && IsSpaceChar(t[..k])
    ensures SpaceFirst(t)
  {
    SpaceCharIsChar(t[..k]);
    CharLenExtend(t[..k], t[k..]);
    assert t[..k] + t[k..] == t;
  }

  lemma SpaceTail(t: Bytes, k: nat)
    requires k < |t| && IsSpaceChar(t[k..])
    ensures SpaceLast(t)
  {
    var c := t[k..];
    SpaceCharIsChar(c);
    if |c| == 1 {
      assert LastSize(t) == 1;
    } else {
      NotShorter(t, c);
      assert LastSize(t) == |c|;
    }
  }

  /** No shorter end of a text that ends in a longer white-space character is one. */
  lemma NotShorter(t: Bytes, c: Bytes)
    requires IsSpaceChar(c) && 1 < |c| <= 3 && |c| <= |t| && t[|t| - |c|..] == c
    ensures !EndsWithChar(t, 1) && (|c| == 3 ==> !EndsWithChar(t, 2))
  {
    assert t[|t| - 1] == c[|c| - 1] && t[|t| - 1..][0] == t[|t| - 1];
    if |c| == 3 {
      assert t[|t| - 2] == c[1] && t[|t| - 2..][0] == t[|t| - 2];
    }
  }

  lemma TightEnds(t: Bytes)
    requires !SpaceFirst(t) && !SpaceLast(t)
    ensures Tight(t)
  {
    hide IsSpaceChar, SpaceFirst, SpaceLast;
    forall k | 0 < k <= |t| ensures !IsSpaceChar(t[..k]) {
      if IsSpaceChar(t[..k]) {
        SpaceHead(t, k);
      }
    }
    forall k | 0 <= k < |t| ensures !IsSpaceChar(t[k..]) {
      if IsSpaceChar(t[k..]) {
        SpaceTail(t, k);
      }
    }
  }

  /** Trimming cuts off white space on both sides, and all of it. */
  lemma TrimSpaceExact(s: Bytes) returns (i: nat, j: nat)
    requires Valid(s)
    ensures i <= j <= |s| && TrimSpace(s) == s[i..j]
    ensures NonSpace(s[..i]) == [] && NonSpace(s[j..]) == [] && Tight(TrimSpace(s))
  {
    hide NonSpace, Valid, SpaceFirst, SpaceLast, TrimLeft, TrimRight, Tight;
    ghost var t := TrimLeft(s);
    TrimLeftIsSuffix(s);
    TrimLeftKeeps(s);
    TrimRightIsPrefix(t);
    i := |s| - |t|;
    j := i + |TrimRight(t)|;
    assert s[j..] == t[|TrimRight(t)|..];
    TrimLeftStops(s);
    PrefixStops(t, TrimRight(t));
    TightEnds(TrimSpace(s));
  }

  lemma PrefixStops(t: Bytes, p: Bytes)
    requires p <= t && !SpaceFirst(t)
    ensures !SpaceFirst(p)
  {
    hide SpaceFirst;
    if p != [] {
      if SpaceFirst(p) {
        assert p == t[..|p|];
        SpaceFirstGrows(t, |p|);
      }
    } else {
      NothingFirst();
    }
  }

  lemma NothingFirst()
    ensures !SpaceFirst([])
  {}

  // ---------- Fields ----------

  /** Words with gaps before, between and behind them. */
  function Woven(gaps: seq<Bytes>, words: seq<Bytes>): Bytes
    requires |gaps| == |words| + 1
  {
    if words == [] then gaps[0] else gaps[0] + words[0] + Woven(gaps[1..], words[1..])
  }

  /** Gaps of white space, and between two words not an empty one. */
  ghost predicate AreGaps(gaps: seq<Bytes>) {
    && |gaps| >= 1
    && (forall k :: 0 <= k < |gaps| ==> NonSpace(gaps[k]) == [])
    && forall k :: 0 < k < |gaps| - 1 ==> gaps[k] != []
  }

  /** The fields of a text are its words: runs without white space, and white space
      between any two. */
  lemma {:induction false} FieldsExact(s: Bytes) returns (gaps: seq<Bytes>)
    requires Valid(s)
    ensures |gaps| == |Fields(s)| + 1 && AreGaps(gaps) && Woven(gaps, Fields(s)) == s
    ensures forall k :: 0 <= k < |Fields(s)| ==> IsWord(Fields(s)[k])
    ensures SpaceFirst(s) ==> gaps[0] != []
    decreases |s|
  {
    hide *;
    FieldsKeep(s);
    TrimLeftShorter(s);
    TrimLeftKeeps(s);
    TrimLeftIsSuffix(s);
    CutsWhat(s, TrimLeft(s));
    FieldsUnfold(s);
    var t := TrimLeft(s);
    var gap := s[..|s| - |t|];
    GapThere(s);
    if t == [] {
      gaps := [s];
      assert gap == s;
      OneGap(s);
    } else {
      WordSolid(t);
      WordEnds(t);
      var w, rest := t[..WordLen(t)], t[WordLen(t)..];
      var more := FieldsExact(rest);
      RestHasGap(rest, more);
      gaps := [gap] + more;
      assert s == gap + w + rest;
      MoreGaps(gap, w, more, Fields(rest));
    }
  }

  lemma FieldsUnfold(s: Bytes)
    ensures var t := TrimLeft(s);
      if t == [] then Fields(s) == []
      else 0 < WordLen(t) <= |t| && Fields(s) == [t[..WordLen(t)]] + Fields(t[WordLen(t)..])
  {
    hide CharLen, IsSpaceChar;
    TrimLeftStops(s);
  }

  lemma CutsWhat(s: Bytes, t: Bytes)
    requires CutsBefore(s, t)
    ensures |t| <= |s| && s == s[..|s| - |t|] + t && NonSpace(s[..|s| - |t|]) == []
  {
    hide NonSpace, Valid;
  }

  lemma OneGap(s: Bytes)
    requires NonSpace(s) == []
    ensures AreGaps([s]) && Woven([s], []) == s
  {}

  lemma MoreGaps(gap: Bytes, w: Bytes, more: seq<Bytes>, words: seq<Bytes>)
    requires NonSpace(gap) == [] && AreGaps(more) && |more| == |words| + 1 && (|more| > 1 ==> more[0] != [])
    ensures AreGaps([gap] + more) && Woven([gap] + more, [w] + words) == gap + w + Woven(more, words)
  {
    hide NonSpace;
    var gaps := [gap] + more;
    assert gaps[1..] == more && ([w] + words)[1..] == words;
    assert forall k :: 0 < k < |gaps| ==> gaps[k] == more[k - 1];
  }

  lemma GapThere(s: Bytes)
    ensures SpaceFirst(s) ==> |TrimLeft(s)| < |s|
  {
    if SpaceFirst(s) {
      TrimLeftShorter(s[DecodeSize(s)..]);
    }
  }

  lemma {:induction false} WordEnds(s: Bytes)
    ensures var rest := s[WordLen(s)..]; rest == [] || SpaceFirst(rest)
    decreases |s|
  {
    hide CharLen, IsSpaceChar;
    if s == [] || SpaceFirst(s) {
      assert s[0..] == s;
    } else {
      var n := DecodeSize(s);
      WordEnds(s[n..]);
      assert s[n..][WordLen(s[n..])..] == s[n + WordLen(s[n..])..];
    }
  }

  lemma RestHasGap(rest: Bytes, more: seq<Bytes>)
    requires |more| == |Fields(rest)| + 1 && (SpaceFirst(rest) ==> more[0] != [])
    requires rest == [] || SpaceFirst(rest)
    ensures |more| > 1 ==> more[0] != []
  {
    hide CharLen, IsSpaceChar;
  }

  // ---------- Split at blank lines ----------

  /** The parts with a blank line between any two. */
  function Spread(parts: seq<Bytes>): Bytes
    requires parts != []
  {
    if |parts| == 1 then parts[0] else parts[0] + [NEWLINE, NEWLINE] + Spread(parts[1..])
  }

  lemma SpreadMore(p: Bytes, parts: seq<Bytes>)
    requires parts != []
    ensures Spread([p] + parts) == p + [NEWLINE, NEWLINE] + Spread(parts)
  {
    assert ([p] + parts)[1..] == parts;
  }

  lemma SpreadOne(p: Bytes)
    ensures Spread([p]) == p
  {}

  predicate NoBlankLine(s: Bytes) {
    forall k :: 0 <= k < |s| - 1 ==> !(s[k] == NEWLINE && s[k + 1] == NEWLINE)
  }

  lemma {:induction false} BlankLineFirst(s: Bytes)
    ensures var k := BlankLine(s); NoBlankLine(s[..k]) && (0 < k < |s| ==> s[k - 1] != NEWLINE)
    decreases |s|
  {
    if |s| >= 2 && !(s[0] == NEWLINE && s[1] == NEWLINE) {
      BlankLineFirst(s[1..]);
      var m := BlankLine(s[1..]);
      forall k | 0 <= k < m ensures !(s[k] == NEWLINE && s[k + 1] == NEWLINE) {
        if k > 0 {
          assert s[1..][..m][k - 1] == s[k] && s[1..][..m][k] == s[k + 1];
        }
      }
    }
  }

  /** No part holds a blank line or, but for the last, ends in half of one. */
  predicate AreParts(parts: seq<Bytes>) {
    && (forall i :: 0 <= i < |parts| ==> NoBlankLine(parts[i]))
    && forall i :: 0 <= i < |parts| - 1 ==> !EndsHalf(parts[i])
  }

  predicate EndsHalf(s: Bytes) {
    s != [] && s[|s| - 1] == NEWLINE
  }

  lemma MoreParts(p: Bytes, parts: seq<Bytes>)
    requires parts != [] && AreParts(parts) && NoBlankLine(p) && !EndsHalf(p)
    ensures AreParts([p] + parts)
  {
    hide NoBlankLine, EndsHalf;
  }

  /** The parts are the text cut at every blank line, the first ones there are: with blank
      lines put back they are the text. */
  lemma {:induction false} ParagraphsExact(s: Bytes)
    ensures Spread(Paragraphs(s)) == s && AreParts(Paragraphs(s))
    decreases |s|
  {
    hide NoBlankLine, BlankLine, Spread, AreParts;
    var k := BlankLine(s);
    BlankLineFirst(s);
    if k < |s| {
      var rest := s[k + 2..];
      ParagraphsExact(rest);
      SpreadMore(s[..k], Paragraphs(rest));
      MoreParts(s[..k], Paragraphs(rest));
      assert s == s[..k] + [NEWLINE, NEWLINE] + rest;
    } else {
      assert s[..k] == s;
      SpreadOne(s);
      OnePart(s);
    }
  }

  lemma OnePart(p: Bytes)
    requires NoBlankLine(p)
    ensures AreParts([p])
  {
    hide NoBlankLine;
  }
}
