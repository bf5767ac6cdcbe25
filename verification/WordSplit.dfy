/**
 splitOnWords of ingest/chunker.go: words wrapped into lines, oversized words cut.
 It never fails; what is said of characters and sizes needs valid UTF-8.
 */
module WordSplit {
  import opened Octets
  import opened Utf8
  import opened Spaces

  /** No segment or chunk is longer: a single rune may exceed a limit below four. */
  function Limit(maxBytes: nat): nat {
    if maxBytes < 4 then 4 else maxBytes
  }

  /** What every segment and chunk is: not only white space, whole characters,
      within the limit. */
  ghost predicate Piece(s: Bytes, maxBytes: nat) {
    NonSpace(s) != [] && Valid(s) && |s| <= Limit(maxBytes)
  }

  ghost predicate Pieces(ss: seq<Bytes>, maxBytes: nat) {
    forall i :: 0 <= i < |ss| ==> Piece(ss[i], maxBytes)
  }

  lemma {:induction false} PiecesConcat(a: seq<Bytes>, b: seq<Bytes>, maxBytes: nat)
    requires Pieces(a, maxBytes) && Pieces(b, maxBytes)
    ensures Pieces(a + b, maxBytes)
  {
  }

  lemma NonSpaceNonEmpty(s: Bytes)
    requires NonSpace(s) != []
    ensures s != []
  {
  }

  // ---------- Words ----------

  /** No segment is empty. */
  predicate Full(ss: seq<Bytes>) {
    forall i :: 0 <= i < |ss| ==> ss[i] != []
  }

  /** The end of the next cut of an oversized word: back from maxBytes to a rune
      start, or one whole rune. The cut always moves forward. */
  method WordCut(word: Bytes, i: nat, maxBytes: nat) returns (e: nat)
    requires i + maxBytes < |word|
    ensures i < e <= |word| && e - i <= Limit(maxBytes)
    ensures forall k :: e < k <= i + maxBytes ==> !RuneStart(word[k])
    ensures Valid(word) && Boundary(word, i) ==> Boundary(word, e)
  {
    var end := i + maxBytes;
    e := end;
    while e > i && !RuneStart(word[e])
      invariant i <= e <= end
      invariant forall k :: e < k <= end ==> !RuneStart(word[k])
    {
      e := e - 1;
    }
    if e == i {
      var size := DecodeSize(word[i..]);
      if Valid(word) && Boundary(word, i) {
        ValidSplit(word, i);
        AfterFirst(word[i..]);
      }
      e := i + size;
      assert e < |word| ==> word[e] == word[i..][size];
    }
  }

  /** The cuts of an oversized word: they join to it, and each is as long as it may be. */
  ghost predicate AreCuts(word: Bytes, cuts: seq<Bytes>, maxBytes: nat) {
    |word| > maxBytes && Flatten(cuts) == word && Full(cuts) && LongCuts(word, cuts, maxBytes)
  }

  /** No cut exceeds the limit, and none but the last could have been longer: up to the
      limit no rune starts. */
  ghost predicate LongCuts(word: Bytes, cuts: seq<Bytes>, maxBytes: nat) {
    forall k :: 0 <= k < |cuts| ==> LongCut(word, |Flatten(cuts[..k])|, |cuts[k]|, maxBytes)
  }

  predicate LongCut(word: Bytes, i: nat, n: nat, maxBytes: nat) {
    n <= Limit(maxBytes) &&
    forall j :: i + n < j <= i + maxBytes && j < |word| ==> !RuneStart(word[j])
  }

  lemma LongCutsSnoc(word: Bytes, cuts: seq<Bytes>, c: Bytes, maxBytes: nat)
    requires LongCuts(word, cuts, maxBytes) && LongCut(word, |Flatten(cuts)|, |c|, maxBytes)
    ensures LongCuts(word, cuts + [c], maxBytes)
  {
    hide LongCut, Flatten;
    var all := cuts + [c];
    assert all[..|cuts|] == cuts;
    forall k | 0 <= k < |all| ensures LongCut(word, |Flatten(all[..k])|, |all[k]|, maxBytes) {
      assert k < |cuts| ==> all[..k] == cuts[..k];
    }
  }

  /** The inner loop of splitOnWords: an oversized word in consecutive cuts, each as
      long as the limit allows. */
  method CutWord(word: Bytes, maxBytes: nat) returns (cuts: seq<Bytes>)
    requires |word| > maxBytes
    ensures AreCuts(word, cuts, maxBytes)
    ensures IsWord(word) ==> Pieces(cuts, maxBytes) && Kept(cuts) == word
  {
    hide Valid, NonSpace, RuneStart, LongCuts, Kept, Flatten;
    cuts := [];
    var i := 0;
    StartCuts(word, maxBytes);
    while i < |word|
      invariant i <= |word| && LongCuts(word, cuts, maxBytes) && Flatten(cuts) == word[..i] && Full(cuts)
      invariant IsWord(word) ==> CutSoFar(cuts, word, i, maxBytes)
    {
      var end := i + maxBytes;
      if end >= |word| {
        NextCut(cuts, word, i, |word|, maxBytes);
        assert word[i..] == word[i..|word|] && word == word[..|word|];
        cuts := cuts + [word[i..]];
        return;
      }
      var e := WordCut(word, i, maxBytes);
      NextCut(cuts, word, i, e, maxBytes);
      cuts := cuts + [word[i..e]];
      i := e;
    }
    assert word[..i] == word;
  }

  /** The first i bytes of a word of whole characters, in pieces. */
  ghost predicate CutSoFar(cuts: seq<Bytes>, word: Bytes, i: nat, maxBytes: nat) {
    i <= |word| && Boundary(word, i) && Pieces(cuts, maxBytes) && Kept(cuts) == word[..i]
  }

  lemma StartCuts(word: Bytes, maxBytes: nat)
    ensures LongCuts(word, [], maxBytes) && Flatten([]) == word[..0] && Kept([]) == word[..0]
    ensures Valid(word) ==> Boundary(word, 0)
  {}

  lemma NextCut(cuts: seq<Bytes>, word: Bytes, i: nat, e: nat, maxBytes: nat)
    requires i < e <= |word| && e - i <= Limit(maxBytes) && LongCuts(word, cuts, maxBytes) && Flatten(cuts) == word[..i]
    requires forall k :: e < k <= i + maxBytes && k < |word| ==> !RuneStart(word[k])
    ensures LongCuts(word, cuts + [word[i..e]], maxBytes) && Flatten(cuts + [word[i..e]]) == word[..e]
    ensures IsWord(word) && CutSoFar(cuts, word, i, maxBytes) && Boundary(word, e) ==>
      CutSoFar(cuts + [word[i..e]], word, e, maxBytes)
  {
    hide Valid, NonSpace, Flatten, Kept, LongCuts, Pieces, RuneStart;
    FlattenSnoc(cuts, word[i..e]);
    assert word[..i] + word[i..e] == word[..e];
    LongCutsSnoc(word, cuts, word[i..e], maxBytes);
    if IsWord(word) && CutSoFar(cuts, word, i, maxBytes) && Boundary(word, e) {
      SolidSlice(word, i, e);
      AppendSolid(cuts, word, i, e, maxBytes);
    }
  }

  lemma StartBoundary(s: Bytes)
    requires Valid(s)
    ensures Boundary(s, 0)
  {
  }

  lemma SolidSlice(s: Bytes, i: nat, j: nat)
    requires Valid(s) && NonSpace(s) == s && i <= j && Boundary(s, i) && Boundary(s, j)
    ensures Valid(s[i..j]) && NonSpace(s[i..j]) == s[i..j]
  {
    hide Valid, NonSpace;
    ValidSplit(s, j);
    SolidSplit(s, j);
    assert i < j ==> s[..j][i] == s[i];
    SolidSplit(s[..j], i);
    ValidSplit(s[..j], i);
    assert s[..j][i..] == s[i..j];
  }

  lemma AppendSolid(cuts: seq<Bytes>, word: Bytes, i: nat, e: nat, maxBytes: nat)
    requires i < e <= |word| && e - i <= Limit(maxBytes) && Pieces(cuts, maxBytes)
    requires Valid(word[i..e]) && NonSpace(word[i..e]) == word[i..e]
    requires Kept(cuts) == word[..i]
    ensures Pieces(cuts + [word[i..e]], maxBytes) && Kept(cuts + [word[i..e]]) == word[..e]
  {
    hide Valid, NonSpace, Kept;
    KeptSnoc(cuts, word[i..e]);
    assert word[..i] + word[i..e] == word[..e];
  }

  /** Words collected in the builder, joined by single blanks. */
  ghost predicate Building(current: Bytes, maxBytes: nat) {
    current != [] ==> Piece(current, maxBytes)
  }

  lemma AppendCurrent(segments: seq<Bytes>, current: Bytes, maxBytes: nat)
    requires Pieces(segments, maxBytes) && Piece(current, maxBytes)
    ensures var s := TrimSpace(current);
            && Pieces(segments + [s], maxBytes)
            && Kept(segments + [s]) == Kept(segments) + NonSpace(current)
  {
    hide Valid, NonSpace, Kept, TrimSpace;
    TrimSpaceKeeps(current);
    TrimSpaceShorter(current);
    KeptSnoc(segments, TrimSpace(current));
  }

  lemma JoinWord(current: Bytes, sep: byte, word: Bytes)
    requires Valid(current) && Valid(word) && (sep == SPACE || sep == NEWLINE)
    ensures Valid(current + [sep] + word)
    ensures NonSpace(current + [sep] + word) == NonSpace(current) + NonSpace(word)
  {
    hide *;
    SeparatorIsNothing(sep);
    ValidConcat(current, [sep]);
    NonSpaceConcat(current, [sep]);
    ValidConcat(current + [sep], word);
    NonSpaceConcat(current + [sep], word);
  }

  function Flushed(current: Bytes): seq<Bytes> {
    if current == [] then [] else [TrimSpace(current)]
  }

  /** Finished segments and the line under construction are pieces that hold `kept`. */
  ghost predicate Holds(segments: seq<Bytes>, current: Bytes, kept: Bytes, maxBytes: nat) {
    Pieces(segments, maxBytes) && Building(current, maxBytes) && Kept(segments) + NonSpace(current) == kept
  }

  /** Where a word goes: on the current line if it fits there, else on a new one, and in
      cuts if it fits on none. */
  ghost predicate Placed(segments: seq<Bytes>, current: Bytes, word: Bytes, segments': seq<Bytes>, current': Bytes, maxBytes: nat) {
    if |word| > maxBytes then
      current' == [] && exists cuts :: segments' == segments + Flushed(current) + cuts && AreCuts(word, cuts, maxBytes)
    else if current != [] && |current| + 1 + |word| <= maxBytes then
      segments' == segments && current' == current + [SPACE] + word
    else segments' == segments + Flushed(current) && current' == word
  }

  /** One word of splitOnWords. */
  method AddWord(segments: seq<Bytes>, current: Bytes, word: Bytes, maxBytes: nat, ghost kept: Bytes)
    returns (segments': seq<Bytes>, current': Bytes)
    ensures Placed(segments, current, word, segments', current', maxBytes)
    ensures Full(segments) && (current == [] || Solid(current)) && Solid(word) ==>
      Full(segments') && (current' == [] || Solid(current'))
    ensures IsWord(word) && Holds(segments, current, kept, maxBytes) ==> Holds(segments', current', kept + word, maxBytes)
  {
    hide Solid, Valid, NonSpace, Kept, TrimSpace, LongCuts, Holds, Pieces;
    segments', current' := segments, current;
    if Solid(current) {
      SolidTrim(current);
      SolidJoin(current, SPACE, word);
    }
    if |word| > maxBytes {
      if |current'| > 0 {
        segments' := segments' + [TrimSpace(current')];
        current' := [];
      }
      var cuts := CutWord(word, maxBytes);
      assert segments' == segments + Flushed(current);
      if IsWord(word) && Holds(segments, current, kept, maxBytes) {
        FlushHolds(segments, current, kept, maxBytes);
        CutsHold(segments', kept, cuts, word, maxBytes);
      }
      segments' := segments' + cuts;
      return;
    }
    if IsWord(word) && Holds(segments, current, kept, maxBytes) {
      FlushHolds(segments, current, kept, maxBytes);
      WordHolds(segments, current, kept, word, maxBytes);
    }
    var needed := |word|;
    if |current'| > 0 {
      needed := |current'| + 1 + |word|;
    }
    if needed > maxBytes {
      if |current'| > 0 {
        segments' := segments' + [TrimSpace(current')];
        current' := [];
      }
      current' := word;
    } else {
      if |current'| > 0 {
        current' := current' + [SPACE] + word;
      } else {
        current' := word;
      }
    }
  }

  lemma FlushHolds(segments: seq<Bytes>, current: Bytes, kept: Bytes, maxBytes: nat)
    requires Holds(segments, current, kept, maxBytes)
    ensures Pieces(segments + Flushed(current), maxBytes) && Kept(segments + Flushed(current)) == kept
  {
    hide Valid, NonSpace, Kept, TrimSpace;
    if current != [] {
      AppendCurrent(segments, current, maxBytes);
    } else {
      NonSpaceEmpty();
      assert segments + [] == segments;
    }
  }

  lemma CutsHold(segments: seq<Bytes>, kept: Bytes, cuts: seq<Bytes>, word: Bytes, maxBytes: nat)
    requires Pieces(segments, maxBytes) && Kept(segments) == kept && Pieces(cuts, maxBytes) && Kept(cuts) == word
    ensures Holds(segments + cuts, [], kept + word, maxBytes)
  {
    hide Valid, NonSpace, Kept;
    NonSpaceEmpty();
    KeptConcat(segments, cuts);
    PiecesConcat(segments, cuts, maxBytes);
  }

  /** A word that fits, on the current line or on a new one. */
  lemma WordHolds(segments: seq<Bytes>, current: Bytes, kept: Bytes, word: Bytes, maxBytes: nat)
    requires IsWord(word) && |word| <= maxBytes && Holds(segments, current, kept, maxBytes)
    requires Pieces(segments + Flushed(current), maxBytes) && Kept(segments + Flushed(current)) == kept
    ensures Holds(segments + Flushed(current), word, kept + word, maxBytes)
    ensures current != [] && |current| + 1 + |word| <= maxBytes ==>
      Holds(segments, current + [SPACE] + word, kept + word, maxBytes)
  {
    hide Valid, NonSpace, Kept, TrimSpace;
    if current != [] {
      JoinWord(current, SPACE, word);
      assert Kept(segments) + (NonSpace(current) + word) == Kept(segments) + NonSpace(current) + word;
    }
  }

  /** Words on one line, with single blanks between them. */
  function Spaced(words: seq<Bytes>): Bytes {
    if words == [] then []
    else if |words| == 1 then words[0]
    else Spaced(words[..|words| - 1]) + [SPACE] + words[|words| - 1]
  }

  function Concat(lines: seq<seq<Bytes>>): seq<Bytes> {
    if lines == [] then [] else Concat(lines[..|lines| - 1]) + lines[|lines| - 1]
  }

  lemma ConcatSnoc(parts: seq<seq<Bytes>>, part: seq<Bytes>)
    ensures Concat(parts + [part]) == Concat(parts) + part
  {
    assert (parts + [part])[..|parts|] == parts;
  }

  /** What one stretch of words becomes: a line of words that fit, or the cuts of an
      oversized one. */
  datatype Row = Line(words: seq<Bytes>) | Cuts(word: Bytes, cuts: seq<Bytes>)

  ghost predicate RowOk(row: Row, maxBytes: nat) {
    match row
    case Line(words) => words != [] && |Spaced(words)| <= maxBytes
    case Cuts(word, cuts) => AreCuts(word, cuts, maxBytes)
  }

  function RowWords(row: Row): seq<Bytes> {
    match row
    case Line(words) => words
    case Cuts(word, _) => [word]
  }

  function RowSegments(row: Row): seq<Bytes> {
    match row
    case Line(words) => [TrimSpace(Spaced(words))]
    case Cuts(_, cuts) => cuts
  }

  /** The words on the rows, in order. */
  function Listed(rows: seq<Row>): seq<Bytes> {
    if rows == [] then [] else Listed(rows[..|rows| - 1]) + RowWords(rows[|rows| - 1])
  }

  /** The segments the rows become. */
  function Printed(rows: seq<Row>): seq<Bytes> {
    if rows == [] then [] else Printed(rows[..|rows| - 1]) + RowSegments(rows[|rows| - 1])
  }

  lemma RowsSnoc(rows: seq<Row>, row: Row)
    ensures Listed(rows + [row]) == Listed(rows) + RowWords(row)
    ensures Printed(rows + [row]) == Printed(rows) + RowSegments(row)
  {
    hide RowWords, RowSegments;
    assert (rows + [row])[..|rows|] == rows;
  }

  /** No line had room for the first word of a line right after it. */
  ghost predicate Wrapped(rows: seq<Row>, maxBytes: nat) {
    && (forall k :: 0 <= k < |rows| ==> RowOk(rows[k], maxBytes))
    && forall k :: 0 < k < |rows| ==> Tight(rows[k - 1], rows[k], maxBytes)
  }

  predicate Tight(row: Row, next: Row, maxBytes: nat) {
    row.Line? && next.Line? && next.words != [] ==> |Spaced(row.words)| + 1 + |next.words[0]| > maxBytes
  }

  lemma WrappedSnoc(rows: seq<Row>, row: Row, maxBytes: nat)
    requires Wrapped(rows, maxBytes) && RowOk(row, maxBytes) && (rows != [] ==> Tight(rows[|rows| - 1], row, maxBytes))
    ensures Wrapped(rows + [row], maxBytes)
  {
    hide RowOk, Tight;
    var all := rows + [row];
    forall k | 0 < k < |all| ensures Tight(all[k - 1], all[k], maxBytes) {
      assert k < |rows| ==> Tight(rows[k - 1], rows[k], maxBytes);
    }
  }

  /** The line under construction, after the finished rows; it is empty at the beginning
      and after cuts. */
  ghost predicate Wrapping(rows: seq<Row>, line: seq<Bytes>, maxBytes: nat) {
    && Wrapped(rows, maxBytes) && (line != [] ==> RowOk(Line(line), maxBytes))
    && (rows != [] ==> Tight(rows[|rows| - 1], Line(line), maxBytes) && (line == [] ==> rows[|rows| - 1].Cuts?))
  }

  /** Rows and line hold these words, and print as these segments and this text. */
  ghost predicate Sets(rows: seq<Row>, line: seq<Bytes>, words: seq<Bytes>, segments: seq<Bytes>, current: Bytes, maxBytes: nat) {
    && Wrapping(rows, line, maxBytes) && Listed(rows) + line == words
    && segments == Printed(rows) && current == Spaced(line) && (line == [] <==> current == [])
  }

  lemma SpacedMore(line: seq<Bytes>, word: Bytes)
    ensures Spaced(line + [word]) == if line == [] then word else Spaced(line) + [SPACE] + word
  {
    var l := line + [word];
    assert l[..|l| - 1] == line;
  }

  lemma LineFlushed(rows: seq<Row>, line: seq<Bytes>, words: seq<Bytes>, segments: seq<Bytes>, current: Bytes, maxBytes: nat)
    returns (rows': seq<Row>)
    requires Sets(rows, line, words, segments, current, maxBytes)
    ensures Wrapped(rows', maxBytes) && Listed(rows') == words && Printed(rows') == segments + Flushed(current)
    ensures rows' == if line == [] then rows else rows + [Line(line)]
  {
    hide Wrapped, Tight, Listed, Printed, Spaced, TrimSpace;
    if line == [] {
      assert Listed(rows) + [] == Listed(rows) && segments + [] == segments;
      rows' := rows;
    } else {
      WrappedSnoc(rows, Line(line), maxBytes);
      RowsSnoc(rows, Line(line));
      rows' := rows + [Line(line)];
    }
  }

  lemma WrapWord(rows: seq<Row>, line: seq<Bytes>, words: seq<Bytes>, segments: seq<Bytes>, current: Bytes,
                 word: Bytes, segments': seq<Bytes>, current': Bytes, maxBytes: nat)
    returns (rows': seq<Row>, line': seq<Bytes>)
    requires Sets(rows, line, words, segments, current, maxBytes) && word != []
    requires Placed(segments, current, word, segments', current', maxBytes)
    ensures Sets(rows', line', words + [word], segments', current', maxBytes)
  {
    hide Wrapped, Listed, Printed, Spaced, TrimSpace, AreCuts, Flushed, Sets, Wrapping;
    var flushed := LineFlushed(rows, line, words, segments, current, maxBytes);
    if |word| > maxBytes {
      var cuts :| segments' == segments + Flushed(current) + cuts && AreCuts(word, cuts, maxBytes);
      rows', line' := flushed + [Cuts(word, cuts)], [];
      AfterCuts(flushed, word, cuts, words, segments + Flushed(current), maxBytes);
    } else if current != [] && |current| + 1 + |word| <= maxBytes {
      rows', line' := rows, line + [word];
      SameLine(rows, line, words, segments, current, word, maxBytes);
    } else {
      rows', line' := flushed, [word];
      NextLine(rows, flushed, line, words, segments, current, word, maxBytes);
    }
  }

  lemma AfterCuts(rows: seq<Row>, word: Bytes, cuts: seq<Bytes>, words: seq<Bytes>, segments: seq<Bytes>, maxBytes: nat)
    requires Wrapped(rows, maxBytes) && Listed(rows) == words && Printed(rows) == segments && AreCuts(word, cuts, maxBytes)
    ensures Sets(rows + [Cuts(word, cuts)], [], words + [word], segments + cuts, [], maxBytes)
  {
    hide Wrapped, Listed, Printed, AreCuts;
    WrappedSnoc(rows, Cuts(word, cuts), maxBytes);
    RowsSnoc(rows, Cuts(word, cuts));
    assert words + [word] + [] == words + [word];
  }

  lemma SameLine(rows: seq<Row>, line: seq<Bytes>, words: seq<Bytes>, segments: seq<Bytes>, current: Bytes, word: Bytes, maxBytes: nat)
    requires Sets(rows, line, words, segments, current, maxBytes) && current != [] && |current| + 1 + |word| <= maxBytes
    ensures Sets(rows, line + [word], words + [word], segments, current + [SPACE] + word, maxBytes)
  {
    hide Wrapped, Listed, Printed, Spaced;
    SpacedMore(line, word);
    assert (line + [word])[0] == line[0];
    assert Listed(rows) + (line + [word]) == words + [word];
  }

  lemma NextLine(rows: seq<Row>, flushed: seq<Row>, line: seq<Bytes>, words: seq<Bytes>, segments: seq<Bytes>, current: Bytes,
                 word: Bytes, maxBytes: nat)
    requires Sets(rows, line, words, segments, current, maxBytes) && word != [] && |word| <= maxBytes
    requires current == [] || |current| + 1 + |word| > maxBytes
    requires Wrapped(flushed, maxBytes) && Listed(flushed) == words && Printed(flushed) == segments + Flushed(current)
    requires flushed == if line == [] then rows else rows + [Line(line)]
    ensures Sets(flushed, [word], words + [word], segments + Flushed(current), word, maxBytes)
  {
    hide Wrapped, Listed, Printed, Spaced, Flushed;
    SpacedMore([], word);
    assert [] + [word] == [word];
  }

  /** The rows a text is set in. */
  ghost predicate AreRows(text: Bytes, segments: seq<Bytes>, rows: seq<Row>, maxBytes: nat) {
    segments == Printed(rows) && Wrapped(rows, maxBytes) && Listed(rows) == Fields(text)
  }

  /** How word splitting cuts a text: into its words in order, those that fit whole and
      wrapped as tightly as the limit allows, each oversized one cut by itself. A valid
      text keeps all its characters in pieces. */
  ghost predicate SplitIntoWords(text: Bytes, segments: seq<Bytes>, maxBytes: nat) {
    && (exists rows :: AreRows(text, segments, rows, maxBytes))
    && (Valid(text) ==> Pieces(segments, maxBytes) && Kept(segments) == NonSpace(text))
  }

  method SplitOnWords(text: Bytes, maxBytes: nat) returns (segments: seq<Bytes>)
    ensures SplitIntoWords(text, segments, maxBytes) && Full(segments)
  {
    hide Solid, Valid, NonSpace, Kept, Fields, IsWord, Wrapped, TrimSpace, AreCuts, Spaced, Printed, Listed, Holds, Flatten, Sets;
    var words := Fields(text);
    segments := [];
    var current: Bytes := [];
    ghost var rows: seq<Row>, line: seq<Bytes> := [], [];
    WordsStart(text, maxBytes);
    for i := 0 to |words|
      invariant Full(segments) && (current == [] || Solid(current))
      invariant Valid(text) ==> Holds(segments, current, Flatten(words[..i]), maxBytes)
      invariant Sets(rows, line, words[..i], segments, current, maxBytes)
    {
      FlattenSnoc(words[..i], words[i]);
      assert words[..i + 1] == words[..i] + [words[i]];
      var segments', current' := AddWord(segments, current, words[i], maxBytes, Flatten(words[..i]));
      rows, line := WrapWord(rows, line, words[..i], segments, current, words[i], segments', current', maxBytes);
      segments, current := segments', current';
    }
    assert words[..|words|] == words;
    if Valid(text) {
      FlushHolds(segments, current, Flatten(words), maxBytes);
    }
    rows := LineFlushed(rows, line, words, segments, current, maxBytes);
    if |current| > 0 {
      SolidTrim(current);
      segments := segments + [TrimSpace(current)];
    } else {
      assert segments + Flushed(current) == segments;
    }
    assert AreRows(text, segments, rows, maxBytes);
  }

  lemma WordsStart(text: Bytes, maxBytes: nat)
    ensures Sets([], [], Fields(text)[..0], [], [], maxBytes)
    ensures Holds([], [], Flatten(Fields(text)[..0]), maxBytes)
    ensures forall i :: 0 <= i < |Fields(text)| ==> Fields(text)[i] != [] && Solid(Fields(text)[i])
    ensures Valid(text) ==>
      Flatten(Fields(text)) == NonSpace(text) && forall i :: 0 <= i < |Fields(text)| ==> IsWord(Fields(text)[i])
  {
    hide Fields, Valid, NonSpace, IsWord, SpaceFirst;
    assert Fields(text)[..0] == [];
    NonSpaceEmpty();
    FieldsSolid(text);
    if Valid(text) {
      FieldsKeep(text);
    }
  }

  lemma ConcatNone()
    ensures Concat([]) == []
  {}

  lemma KeptEmpty()
    ensures Kept([]) == []
  {
  }
}
