/**
 Sentence and paragraph splitting of ingest/chunker.go: what the segments of a text
 are, for any bytes, when splitting panics, and that a valid text is conserved.
 */
module SentenceSplit {
  import opened Octets
  import opened Utf8
  import opened Spaces
  import opened Sentences
  import opened WordSplit

  /** What a stretch of text becomes: nothing if blank, itself if it fits, else words. */
  ghost predicate SegmentsOf(seg: Bytes, r: seq<Bytes>, maxBytes: nat) {
    var trimmed := TrimSpace(seg);
    if trimmed == [] then r == []
    else if |trimmed| <= maxBytes then r == [trimmed]
    else SplitIntoWords(trimmed, r, maxBytes)
  }

  method AppendSegment(segments: seq<Bytes>, seg: Bytes, maxBytes: nat) returns (r: seq<Bytes>)
    ensures segments <= r && SegmentsOf(seg, r[|segments|..], maxBytes)
    ensures Full(segments) ==> Full(r)
  {
    hide TrimSpace, SplitIntoWords;
    var trimmed := TrimSpace(seg);
    if trimmed == [] {
      return segments;
    }
    if |trimmed| <= maxBytes {
      return segments + [trimmed];
    }
    var words := SplitOnWords(trimmed, maxBytes);
    assert (segments + words)[|segments|..] == words;
    return segments + words;
  }

  lemma SegmentsKeep(seg: Bytes, r: seq<Bytes>, maxBytes: nat)
    requires Valid(seg) && SegmentsOf(seg, r, maxBytes)
    ensures Pieces(r, maxBytes) && Kept(r) == NonSpace(seg)
  {
    hide Valid, NonSpace, Kept, TrimSpace;
    TrimSpaceKeeps(seg);
    KeptEmpty();
    KeptSnoc([], TrimSpace(seg));
    assert [] + [TrimSpace(seg)] == [TrimSpace(seg)];
  }

  lemma SliceAdds(text: Bytes, i: nat, j: nat)
    requires Valid(text) && i <= j && Boundary(text, i) && Boundary(text, j)
    ensures Valid(text[i..j]) && NonSpace(text[..i]) + NonSpace(text[i..j]) == NonSpace(text[..j])
  {
    hide Valid, NonSpace;
    ValidSplit(text, j);
    assert i < j ==> text[..j][i] == text[i];
    NonSpaceSplit(text[..j], i);
    assert text[..j][..i] == text[..i] && text[..j][i..] == text[i..j];
  }

  /** A stretch from s to e of a text of n bytes that could not reach any later
      boundary, and, if it did not fit, held no boundary within reach either. */
  ghost predicate Stretch(bounds: seq<nat>, n: nat, s: nat, e: nat, fits: bool, maxBytes: nat) {
    && s <= e <= n
    && (forall k :: 0 <= k < |bounds| && bounds[k] > e ==> bounds[k] - s > maxBytes)
    && (!fits ==> forall k :: 0 <= k < |bounds| && s < bounds[k] <= e ==> bounds[k] - s > maxBytes)
  }

  /** Consecutive stretches of the text from its start, between sentence boundaries,
      and the segments each became. */
  ghost predicate Stretches(text: Bytes, bounds: seq<nat>, starts: seq<nat>, parts: seq<seq<Bytes>>,
                            segments: seq<Bytes>, maxBytes: nat)
  {
    && |starts| == |parts| + 1 && starts[0] == 0 && segments == Concat(parts)
    && (forall k :: 0 < k < |parts| ==> starts[k] in bounds)
    && forall k :: 0 <= k < |parts| ==> StretchPart(text, bounds, starts[k], starts[k + 1], parts[k], maxBytes)
  }

  ghost predicate StretchPart(text: Bytes, bounds: seq<nat>, s: nat, e: nat, part: seq<Bytes>, maxBytes: nat) {
    && s <= e <= |text|
    && Stretch(bounds, |text|, s, e, |TrimSpace(text[s..e])| <= maxBytes, maxBytes)
    && SegmentsOf(text[s..e], part, maxBytes)
  }

  /** The scan before boundary b: `lastGood` is the boundary just passed, if the
      text from `start` to it fits; otherwise none since `start` was within reach. */
  ghost predicate Scanned(bounds: seq<nat>, b: nat, start: nat, lastGood: int, maxBytes: nat) {
    && b <= |bounds| && (start == 0 || start in bounds)
    && (forall k :: b <= k < |bounds| ==> start < bounds[k] && lastGood < bounds[k])
    && (lastGood > start ==> lastGood in bounds && forall k :: 0 <= k < b ==> bounds[k] <= lastGood)
    && (lastGood <= start ==> forall k :: 0 <= k < b && bounds[k] > start ==> bounds[k] - start > maxBytes)
  }

  lemma ScanExtend(bounds: seq<nat>, n: nat, b: nat, start: nat, lastGood: int, maxBytes: nat)
    requires Rising(bounds) && b < |bounds| && bounds[b] <= n && Scanned(bounds, b, start, lastGood, maxBytes)
    ensures Scanned(bounds, b + 1, start, bounds[b], maxBytes)
  {}

  lemma ScanFlush(bounds: seq<nat>, n: nat, b: nat, start: nat, lastGood: int, maxBytes: nat)
    requires Rising(bounds) && b < |bounds| && bounds[b] <= n && Scanned(bounds, b, start, lastGood, maxBytes)
    requires bounds[b] - start > maxBytes && lastGood > start
    ensures Stretch(bounds, n, start, lastGood, true, maxBytes) && lastGood in bounds && lastGood < bounds[b]
    ensures Scanned(bounds, b + 1, lastGood, bounds[b], maxBytes)
    ensures bounds[b] - lastGood > maxBytes ==> Scanned(bounds, b + 1, lastGood, -1, maxBytes)
  {}

  lemma ScanCut(bounds: seq<nat>, n: nat, b: nat, start: nat, lastGood: int, maxBytes: nat)
    requires Rising(bounds) && b < |bounds| && bounds[b] <= n && Scanned(bounds, b, start, lastGood, maxBytes)
    requires bounds[b] - start > maxBytes && lastGood <= start
    ensures Stretch(bounds, n, start, bounds[b], false, maxBytes)
    ensures Scanned(bounds, b + 1, bounds[b], -1, maxBytes)
  {}

  /** After the last boundary: what was passed last, if anything, and the rest. */
  lemma ScanEnd(bounds: seq<nat>, n: nat, start: nat, lastGood: int, maxBytes: nat)
    requires Rising(bounds) && start <= n && (forall k :: 0 <= k < |bounds| ==> bounds[k] <= n)
    requires Scanned(bounds, |bounds|, start, lastGood, maxBytes)
    ensures lastGood > start ==>
      && lastGood in bounds && lastGood <= n && Stretch(bounds, n, start, lastGood, true, maxBytes)
      && Scanned(bounds, |bounds|, lastGood, -1, maxBytes)
    ensures lastGood <= start ==> Stretch(bounds, n, start, n, false, maxBytes)
  {}

  // ---------- Sentences ----------

  /** The segments so far are those of the text up to `start`. */
  ghost predicate Collected(text: Bytes, bounds: seq<nat>, starts: seq<nat>, parts: seq<seq<Bytes>>,
                            segments: seq<Bytes>, start: nat, maxBytes: nat)
  {
    Stretches(text, bounds, starts, parts, segments, maxBytes) && starts[|parts|] == start && start <= |text|
  }

  lemma CollectedNone(text: Bytes, bounds: seq<nat>, maxBytes: nat)
    ensures Collected(text, bounds, [0], [], [], 0, maxBytes)
  {
    ConcatNone();
  }

  /** The stretch from `start` to e becomes segments. */
  method Flush(text: Bytes, segments: seq<Bytes>, start: nat, e: nat, maxBytes: nat,
               ghost bounds: seq<nat>, ghost starts: seq<nat>, ghost parts: seq<seq<Bytes>>)
    returns (segments': seq<Bytes>, ghost starts': seq<nat>, ghost parts': seq<seq<Bytes>>)
    requires start <= e <= |text| && Stretch(bounds, |text|, start, e, |TrimSpace(text[start..e])| <= maxBytes, maxBytes)
    requires Collected(text, bounds, starts, parts, segments, start, maxBytes) && (parts != [] ==> start in bounds)
    ensures segments <= segments' && SegmentsOf(text[start..e], segments'[|segments|..], maxBytes)
    ensures Collected(text, bounds, starts', parts', segments', e, maxBytes) && parts' != []
    ensures Full(segments) ==> Full(segments')
  {
    hide TrimSpace, SegmentsOf, Stretch, StretchPart, Concat;
    segments' := AppendSegment(segments, text[start..e], maxBytes);
    ghost var part := segments'[|segments|..];
    assert segments' == segments + part;
    PartOf(text, bounds, start, e, part, maxBytes);
    ConcatSnoc(parts, part);
    starts', parts' := starts + [e], parts + [part];
    forall k | 0 <= k < |parts'| ensures StretchPart(text, bounds, starts'[k], starts'[k + 1], parts'[k], maxBytes) {
      assert k < |parts| ==> StretchPart(text, bounds, starts[k], starts[k + 1], parts[k], maxBytes);
    }
  }

  lemma PartOf(text: Bytes, bounds: seq<nat>, s: nat, e: nat, part: seq<Bytes>, maxBytes: nat)
    requires s <= e <= |text| && Stretch(bounds, |text|, s, e, |TrimSpace(text[s..e])| <= maxBytes, maxBytes)
    requires SegmentsOf(text[s..e], part, maxBytes)
    ensures StretchPart(text, bounds, s, e, part, maxBytes)
  {
    hide TrimSpace, SegmentsOf;
  }

  lemma AnyFit(bounds: seq<nat>, n: nat, s: nat, e: nat, fits: bool, maxBytes: nat)
    requires Stretch(bounds, n, s, e, false, maxBytes)
    ensures Stretch(bounds, n, s, e, fits, maxBytes)
  {}

  /** Sentence splitting panics: a dot, or the last boundary, lies beyond the text. */
  ghost predicate SentencePanics(t: Tables, text: Bytes) {
    var runes := Runes(text);
    var ms := Marks(t, text, runes, |runes|);
    DotBeyond(text) || (ms != [] && Beyond(runes, ms[|ms| - 1], |text|))
  }

  ghost predicate Beyond(runes: seq<Bytes>, m: nat, n: nat) {
    m <= |runes| && Offset(runes, m) > n
  }

  lemma PanicsIffLast(t: Tables, text: Bytes, bounds: seq<nat>)
    requires IsBoundaries(t, text, bounds) && !DotBeyond(text)
    ensures SentencePanics(t, text) <==> bounds != [] && bounds[|bounds| - 1] > |text|
  {
    hide Runes, Marks, DotBeyond, Offset;
  }

  lemma ValidNeverPanics(t: Tables, text: Bytes, bounds: seq<nat>)
    requires Valid(text) && IsBoundaries(t, text, bounds)
    ensures !SentencePanics(t, text) && CutPoints(text, bounds)
  {
    hide Runes, Marks, DotBeyond, Offset, Valid;
    NoDotBeyond(text);
    CutPointsOfMarks(t, text, bounds);
    PanicsIffLast(t, text, bounds);
  }

  ghost predicate SentenceParts(t: Tables, text: Bytes, bounds: seq<nat>, starts: seq<nat>, parts: seq<seq<Bytes>>,
                                segments: seq<Bytes>, maxBytes: nat)
  {
    && IsBoundaries(t, text, bounds)
    && if bounds == [] then SplitIntoWords(text, segments, maxBytes)
       else Stretches(text, bounds, starts, parts, segments, maxBytes) && parts != [] && starts[|parts|] == |text|
  }

  /** How sentence splitting cuts a text: greedily. A stretch ends at a boundary only
      where the next one is out of reach, and is cut into words only where none is
      within reach. */
  ghost predicate SplitIntoSentences(t: Tables, text: Bytes, segments: seq<Bytes>, maxBytes: nat) {
    exists bounds, starts, parts :: SentenceParts(t, text, bounds, starts, parts, segments, maxBytes)
  }

  method SplitOnSentences(t: Tables, text: Bytes, maxBytes: nat) returns (segments: seq<Bytes>, panics: bool)
    ensures panics <==> SentencePanics(t, text)
    ensures !panics ==> SplitIntoSentences(t, text, segments, maxBytes) && Full(segments)
  {
    hide Valid, TrimSpace, Scanned, Stretch, Stretches, IsBoundaries, SplitIntoWords, SegmentsOf, SentencePanics, DotBeyond;
    var boundaries, wild := FindSentenceBoundaries(t, text);
    segments, panics := [], false;
    if wild {
      DotPanics(t, text);
      return segments, true;
    }
    PanicsIffLast(t, text, boundaries);
    if |boundaries| == 0 {
      segments := SplitOnWords(text, maxBytes);
      assert SentenceParts(t, text, boundaries, [], [], segments, maxBytes);
      return;
    }
    ghost var starts: seq<nat>, parts: seq<seq<Bytes>> := [0], [];
    var start := 0;
    var lastGood := -1;
    ScanStart(boundaries, maxBytes);
    CollectedNone(text, boundaries, maxBytes);
    for b := 0 to |boundaries|
      invariant 0 <= start <= |text| && Full(segments)
      invariant forall k :: 0 <= k < b ==> boundaries[k] <= |text|
      invariant Scanned(boundaries, b, start, lastGood, maxBytes)
      invariant lastGood > start ==> lastGood <= |text| && |TrimSpace(text[start..lastGood])| <= maxBytes
      invariant Collected(text, boundaries, starts, parts, segments, start, maxBytes) && (parts != [] ==> start in boundaries)
    {
      var boundary := boundaries[b];
      if boundary > |text| {
        assert boundaries[|boundaries| - 1] >= boundary;
        return segments, true;
      }
      StartBefore(boundaries, b, start, lastGood, maxBytes);
      if boundary - start <= maxBytes {
        ScanExtend(boundaries, |text|, b, start, lastGood, maxBytes);
        TrimSpaceShorter(text[start..boundary]);
        lastGood := boundary;
        continue;
      }
      if lastGood > start {
        ScanFlush(boundaries, |text|, b, start, lastGood, maxBytes);
        segments, starts, parts := Flush(text, segments, start, lastGood, maxBytes, boundaries, starts, parts);
        start := lastGood;
        TrimSpaceShorter(text[start..boundary]);
        if |TrimSpace(text[start..boundary])| <= maxBytes {
          lastGood := boundary;
        } else {
          lastGood := -1;
        }
      } else {
        ScanCut(boundaries, |text|, b, start, lastGood, maxBytes);
        AnyFit(boundaries, |text|, start, boundary, |TrimSpace(text[start..boundary])| <= maxBytes, maxBytes);
        segments, starts, parts := Flush(text, segments, start, boundary, maxBytes, boundaries, starts, parts);
        start := boundary;
        lastGood := -1;
      }
    }
    ScanEnd(boundaries, |text|, start, lastGood, maxBytes);
    if lastGood > start {
      segments, starts, parts := Flush(text, segments, start, lastGood, maxBytes, boundaries, starts, parts);
      start := lastGood;
      ScanEnd(boundaries, |text|, start, -1, maxBytes);
    }
    AnyFit(boundaries, |text|, start, |text|, |TrimSpace(text[start..|text|])| <= maxBytes, maxBytes);
    segments, starts, parts := Flush(text, segments, start, |text|, maxBytes, boundaries, starts, parts);
    assert SentenceParts(t, text, boundaries, starts, parts, segments, maxBytes);
  }

  lemma DotPanics(t: Tables, text: Bytes)
    requires DotBeyond(text)
    ensures SentencePanics(t, text)
  {}

  /** One undecodable byte before a dot is enough. */
  lemma StrayBytePanics(t: Tables)
    ensures SentencePanics(t, STRAY_DOT)
  {
    StrayByteMovesDot();
    DotPanics(t, STRAY_DOT);
  }

  lemma ScanStart(bounds: seq<nat>, maxBytes: nat)
    requires Rising(bounds)
    ensures Scanned(bounds, 0, 0, -1, maxBytes)
  {}

  lemma StartBefore(bounds: seq<nat>, b: nat, start: nat, lastGood: int, maxBytes: nat)
    requires Scanned(bounds, b, start, lastGood, maxBytes) && b < |bounds|
    ensures start < bounds[b]
  {}

  /** Of a valid text the first k stretches become pieces that hold it up to their end. */
  lemma {:induction false} StretchesKeep(text: Bytes, bounds: seq<nat>, starts: seq<nat>, parts: seq<seq<Bytes>>,
                                         segments: seq<Bytes>, maxBytes: nat, k: nat)
    requires Valid(text) && CutPoints(text, bounds) && Stretches(text, bounds, starts, parts, segments, maxBytes)
    requires k <= |parts| && starts[|parts|] == |text|
    ensures starts[k] <= |text| && Boundary(text, starts[k])
    ensures Pieces(Concat(parts[..k]), maxBytes) && Kept(Concat(parts[..k])) == NonSpace(text[..starts[k]])
    decreases k
  {
    hide Valid, NonSpace, Kept, SegmentsOf, Concat, Stretch, RuneStart;
    if k == 0 {
      assert parts[..0] == [] && text[..0] == [];
      ConcatNone();
      KeptEmpty();
      NonSpaceEmpty();
      StartBoundary(text);
    } else {
      StretchesKeep(text, bounds, starts, parts, segments, maxBytes, k - 1);
      var s, e := starts[k - 1], starts[k];
      assert StretchPart(text, bounds, s, e, parts[k - 1], maxBytes);
      assert k < |parts| ==> e in bounds;
      SliceAdds(text, s, e);
      SegmentsKeep(text[s..e], parts[k - 1], maxBytes);
      assert parts[..k] == parts[..k - 1] + [parts[k - 1]];
      ConcatSnoc(parts[..k - 1], parts[k - 1]);
      KeptConcat(Concat(parts[..k - 1]), parts[k - 1]);
      PiecesConcat(Concat(parts[..k - 1]), parts[k - 1], maxBytes);
    }
  }

  lemma SentencesKeep(t: Tables, text: Bytes, segments: seq<Bytes>, maxBytes: nat)
    requires Valid(text) && SplitIntoSentences(t, text, segments, maxBytes)
    ensures Pieces(segments, maxBytes) && Kept(segments) == NonSpace(text)
  {
    hide Valid, NonSpace, Kept, Concat, IsBoundaries, StretchPart;
    var bounds, starts, parts :| SentenceParts(t, text, bounds, starts, parts, segments, maxBytes);
    if bounds != [] {
      CutPointsOfMarks(t, text, bounds);
      StretchesKeep(text, bounds, starts, parts, segments, maxBytes, |parts|);
      assert parts[..|parts|] == parts && text[..|text|] == text;
    }
  }

  // ---------- Paragraphs ----------

  /** What a paragraph becomes: nothing if blank, itself if it fits, else sentences. */
  ghost predicate ParagraphOf(t: Tables, p: Bytes, r: seq<Bytes>, maxBytes: nat) {
    var trimmed := TrimSpace(p);
    if trimmed == [] then r == []
    else if |trimmed| <= maxBytes then r == [trimmed]
    else SplitIntoSentences(t, trimmed, r, maxBytes)
  }

  ghost predicate ParagraphPanics(t: Tables, p: Bytes, maxBytes: nat) {
    |TrimSpace(p)| > maxBytes && SentencePanics(t, TrimSpace(p))
  }

  /** Every paragraph becomes segments of its own. */
  ghost predicate SplitIntoParagraphs(t: Tables, ps: seq<Bytes>, parts: seq<seq<Bytes>>, segments: seq<Bytes>, maxBytes: nat) {
    && |parts| == |ps| && segments == Concat(parts)
    && forall i :: 0 <= i < |ps| ==> ParagraphOf(t, ps[i], parts[i], maxBytes)
  }

  /** The paragraph loop of splitRecursive. */
  method SplitParagraphs(t: Tables, paragraphs: seq<Bytes>, maxBytes: nat)
    returns (segments: seq<Bytes>, panics: bool, ghost parts: seq<seq<Bytes>>)
    ensures panics <==> exists i :: 0 <= i < |paragraphs| && ParagraphPanics(t, paragraphs[i], maxBytes)
    ensures !panics ==> SplitIntoParagraphs(t, paragraphs, parts, segments, maxBytes) && Full(segments)
  {
    hide Concat, TrimSpace, SentencePanics, SplitIntoSentences;
    ConcatNone();
    segments, panics, parts := [], false, [];
    for i := 0 to |paragraphs|
      invariant Full(segments) && |parts| == i && segments == Concat(parts)
      invariant forall k :: 0 <= k < i ==> !ParagraphPanics(t, paragraphs[k], maxBytes)
      invariant forall k :: 0 <= k < i ==> ParagraphOf(t, paragraphs[k], parts[k], maxBytes)
    {
      var p := TrimSpace(paragraphs[i]);
      if p == [] {
        ConcatSnoc(parts, []);
        parts := parts + [[]];
        continue;
      }
      if |p| <= maxBytes {
        ConcatSnoc(parts, [p]);
        segments, parts := segments + [p], parts + [[p]];
      } else {
        var more, wild := SplitOnSentences(t, p, maxBytes);
        if wild {
          return segments, true, parts;
        }
        ConcatSnoc(parts, more);
        segments, parts := segments + more, parts + [more];
      }
    }
  }

  lemma ParagraphKeeps(t: Tables, p: Bytes, r: seq<Bytes>, maxBytes: nat)
    requires Valid(p) && ParagraphOf(t, p, r, maxBytes)
    ensures Pieces(r, maxBytes) && Kept(r) == NonSpace(p)
  {
    hide Valid, NonSpace, Kept, TrimSpace, SplitIntoSentences;
    TrimSpaceKeeps(p);
    KeptEmpty();
    KeptSnoc([], TrimSpace(p));
    assert [] + [TrimSpace(p)] == [TrimSpace(p)];
    if |TrimSpace(p)| > maxBytes {
      SentencesKeep(t, TrimSpace(p), r, maxBytes);
    }
  }

  lemma {:induction false} PartsKeep(t: Tables, ps: seq<Bytes>, parts: seq<seq<Bytes>>, segments: seq<Bytes>, maxBytes: nat, k: nat)
    requires SplitIntoParagraphs(t, ps, parts, segments, maxBytes) && k <= |ps|
    requires forall i :: 0 <= i < |ps| ==> Valid(ps[i])
    ensures Pieces(Concat(parts[..k]), maxBytes) && Kept(Concat(parts[..k])) == Kept(ps[..k])
    decreases k
  {
    hide Valid, NonSpace, Kept, ParagraphOf, Concat;
    if k == 0 {
      assert parts[..0] == [] && ps[..0] == [];
      ConcatNone();
      KeptEmpty();
    } else {
      PartsKeep(t, ps, parts, segments, maxBytes, k - 1);
      ParagraphKeeps(t, ps[k - 1], parts[k - 1], maxBytes);
      assert parts[..k] == parts[..k - 1] + [parts[k - 1]] && ps[..k] == ps[..k - 1] + [ps[k - 1]];
      ConcatSnoc(parts[..k - 1], parts[k - 1]);
      KeptSnoc(ps[..k - 1], ps[k - 1]);
      KeptConcat(Concat(parts[..k - 1]), parts[k - 1]);
      PiecesConcat(Concat(parts[..k - 1]), parts[k - 1], maxBytes);
    }
  }

  // ---------- All three levels ----------

  /** How recursive splitting cuts a text: into paragraphs if it has several, else into
      sentences, else into words. */
  ghost predicate SplitRecursively(t: Tables, text: Bytes, r: seq<Bytes>, maxBytes: nat) {
    var trimmed := TrimSpace(text);
    if trimmed == [] then r == []
    else if |trimmed| <= maxBytes then r == [trimmed]
    else if |Paragraphs(trimmed)| > 1 then
      exists parts :: SplitIntoParagraphs(t, Paragraphs(trimmed), parts, r, maxBytes)
    else if |r| > 1 && SplitIntoSentences(t, trimmed, r, maxBytes) then true
    else FewSentences(t, trimmed, maxBytes) && SplitIntoWords(trimmed, r, maxBytes)
  }

  ghost predicate FewSentences(t: Tables, text: Bytes, maxBytes: nat) {
    exists s :: |s| <= 1 && SplitIntoSentences(t, text, s, maxBytes)
  }

  ghost predicate RecursivePanics(t: Tables, text: Bytes, maxBytes: nat) {
    var trimmed := TrimSpace(text);
    && |trimmed| > maxBytes
    && if |Paragraphs(trimmed)| > 1
       then exists i :: 0 <= i < |Paragraphs(trimmed)| && ParagraphPanics(t, Paragraphs(trimmed)[i], maxBytes)
       else SentencePanics(t, trimmed)
  }

  method SplitRecursive(t: Tables, text: Bytes, maxBytes: nat) returns (segments: seq<Bytes>, panics: bool)
    ensures panics <==> RecursivePanics(t, text, maxBytes)
    ensures !panics ==> SplitRecursively(t, text, segments, maxBytes) && Full(segments)
  {
    hide Paragraphs, TrimSpace, SentencePanics, SplitIntoSentences, SplitIntoWords, SplitIntoParagraphs, ParagraphPanics;
    var trimmed := TrimSpace(text);
    if trimmed == [] {
      return [], false;
    }
    if |trimmed| <= maxBytes {
      return [trimmed], false;
    }
    var paragraphs := Paragraphs(trimmed);
    if |paragraphs| > 1 {
      var parted, wild, _ := SplitParagraphs(t, paragraphs, maxBytes);
      return parted, wild;
    }
    segments, panics := SplitOnSentences(t, trimmed, maxBytes);
    if panics || |segments| > 1 {
      return;
    }
    assert FewSentences(t, trimmed, maxBytes);
    segments := SplitOnWords(trimmed, maxBytes);
  }

  /** Of a valid text nothing but white space is lost, and nothing is reordered or
      repeated, in pieces within the limit. */
  lemma RecursiveKeeps(t: Tables, text: Bytes, r: seq<Bytes>, maxBytes: nat)
    requires Valid(text) && SplitRecursively(t, text, r, maxBytes)
    ensures Pieces(r, maxBytes) && Kept(r) == NonSpace(text)
  {
    hide Valid, NonSpace, Kept, TrimSpace, SplitIntoSentences, SplitIntoParagraphs, Paragraphs, FewSentences;
    var trimmed := TrimSpace(text);
    TrimSpaceKeeps(text);
    KeptEmpty();
    KeptSnoc([], trimmed);
    assert [] + [trimmed] == [trimmed];
    if |trimmed| > maxBytes {
      if |Paragraphs(trimmed)| > 1 {
        ManyKeep(t, trimmed, r, maxBytes);
      } else if |r| > 1 && SplitIntoSentences(t, trimmed, r, maxBytes) {
        SentencesKeep(t, trimmed, r, maxBytes);
      }
    }
  }

  lemma ManyKeep(t: Tables, text: Bytes, r: seq<Bytes>, maxBytes: nat)
    requires Valid(text) && exists parts :: SplitIntoParagraphs(t, Paragraphs(text), parts, r, maxBytes)
    ensures Pieces(r, maxBytes) && Kept(r) == NonSpace(text)
  {
    hide Valid, NonSpace, Kept, Paragraphs, ParagraphOf, Concat;
    var parts :| SplitIntoParagraphs(t, Paragraphs(text), parts, r, maxBytes);
    ParagraphsKeep(text);
    PartsKeep(t, Paragraphs(text), parts, r, maxBytes, |parts|);
    assert parts[..|parts|] == parts && Paragraphs(text)[..|parts|] == Paragraphs(text);
  }

  /** A valid text is never split into a panic. */
  lemma ValidIsSafe(t: Tables, text: Bytes, maxBytes: nat)
    requires Valid(text)
    ensures !RecursivePanics(t, text, maxBytes)
  {
    hide Valid, TrimSpace, Paragraphs, SentencePanics, NonSpace;
    var trimmed := TrimSpace(text);
    TrimSpaceKeeps(text);
    ParagraphsKeep(trimmed);
    NeverPanics(t, trimmed);
    forall i | 0 <= i < |Paragraphs(trimmed)| ensures !SentencePanics(t, TrimSpace(Paragraphs(trimmed)[i])) {
      TrimSpaceKeeps(Paragraphs(trimmed)[i]);
      NeverPanics(t, TrimSpace(Paragraphs(trimmed)[i]));
    }
  }

  lemma NeverPanics(t: Tables, text: Bytes)
    requires Valid(text)
    ensures !SentencePanics(t, text)
  {
    hide Valid, SentencePanics;
    ValidNeverPanics(t, text, BoundariesOf(t, text));
  }

  ghost function BoundariesOf(t: Tables, text: Bytes): (bs: seq<nat>)
    ensures IsBoundaries(t, text, bs)
  {
    var runes := Runes(text);
    MarksIncrease(t, text, runes, |runes|);
    var ms := Marks(t, text, runes, |runes|);
    seq(|ms|, i requires 0 <= i < |ms| => Offset(runes, ms[i]))
  }
}
