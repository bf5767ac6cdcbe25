/**
 The recursive chunker of ingest/chunker.go: a text is split recursively and the
 segments are merged greedily, with overlap.
 */
module Chunker {
  import opened Octets
  import opened Utf8
  import opened Spaces
  import opened Sentences
  import opened WordSplit
  import opened SentenceSplit

  // ---------- Merge with overlap ----------

  /** Where the overlap of a longer chunk starts: at the first rune start within the
      last n bytes, and from there behind the first blank, if there is one. */
  predicate OverlapAt(c: Bytes, n: nat, pos: nat, cut: nat)
    requires |c| > n
  {
    && |c| - n <= pos <= cut <= |c|
    && (forall k :: |c| - n <= k < pos ==> !RuneStart(c[k])) && (pos < |c| ==> RuneStart(c[pos]))
    && (if SPACE in c[pos..] then cut > pos && c[cut - 1] == SPACE && SPACE !in c[pos..cut - 1] else cut == pos)
  }

  /** ov is the overlap of chunk c: all of it, or its last whole words of n bytes. */
  ghost predicate OverlapOf(c: Bytes, n: nat, ov: Bytes) {
    && |ov| <= n
    && if |c| <= n then ov == c
       else exists pos: nat, cut: nat :: OverlapAt(c, n, pos, cut) && ov == TrimSpace(c[cut..])
  }

  method GetOverlapSuffix(text: Bytes, n: nat) returns (ov: Bytes)
    ensures OverlapOf(text, n, ov)
  {
    hide TrimSpace, RuneStart;
    if |text| <= n {
      return text;
    }
    var pos := |text| - n;
    while pos < |text| && !RuneStart(text[pos])
      invariant |text| - n <= pos <= |text|
      invariant forall k :: |text| - n <= k < pos ==> !RuneStart(text[k])
    {
      pos := pos + 1;
    }
    var suffix := text[pos..];
    var idx := 0;
    while idx < |suffix| && suffix[idx] != SPACE
      invariant idx <= |suffix|
      invariant SPACE !in suffix[..idx]
    {
      idx := idx + 1;
    }
    if idx < |suffix| {
      assert suffix[idx + 1..] == text[pos + idx + 1..] && suffix[..idx] == text[pos..pos + idx];
      assert OverlapAt(text, n, pos, pos + idx + 1);
      TrimSpaceShorter(suffix[idx + 1..]);
      return TrimSpace(suffix[idx + 1..]);
    }
    assert OverlapAt(text, n, pos, pos);
    TrimSpaceShorter(suffix);
    return TrimSpace(suffix);
  }

  lemma OverlapValid(c: Bytes, n: nat, ov: Bytes)
    requires Valid(c) && OverlapOf(c, n, ov)
    ensures Valid(ov)
  {
    hide Valid, TrimSpace, NonSpace;
    if |c| > n {
      var pos: nat, cut: nat :| OverlapAt(c, n, pos, cut) && ov == TrimSpace(c[cut..]);
      if cut > pos {
        AfterBlank(c, cut - 1);
      } else {
        ValidSplit(c, pos);
      }
      TrimSpaceKeeps(c[cut..]);
    }
  }

  lemma AfterBlank(s: Bytes, i: nat)
    requires Valid(s) && i < |s| && s[i] == SPACE
    ensures Valid(s[i + 1..])
  {
    ValidSplit(s, i);
    assert s[i..][0] == SPACE && s[i..][1..] == s[i + 1..];
  }

  ghost predicate Prefixed(chunks: seq<Bytes>, prefixes: seq<nat>) {
    |prefixes| == |chunks| && forall k :: 0 <= k < |chunks| ==> prefixes[k] <= |chunks[k]|
  }

  /** The chunks without their overlaps. */
  ghost function Bodies(chunks: seq<Bytes>, prefixes: seq<nat>): (r: seq<Bytes>)
    requires Prefixed(chunks, prefixes)
    ensures |r| == |chunks|
  {
    seq(|chunks|, k requires 0 <= k < |chunks| => chunks[k][prefixes[k]..])
  }

  lemma DropJoined(a: Bytes, b: Bytes, c: Bytes, p: nat)
    requires p <= |a|
    ensures a <= a + b + c && (a + b + c)[p..] == a[p..] + b + c
  {
  }

  /** Segments on lines of their own. */
  function Joined(segments: seq<Bytes>): Bytes {
    if segments == [] then []
    else if |segments| == 1 then segments[0]
    else Joined(segments[..|segments| - 1]) + [NEWLINE] + segments[|segments| - 1]
  }

  /** The overlap a chunk begins with: that of the chunk before it, unless there is
      none or it does not fit in front of the chunk's first segment, of length len. */
  ghost predicate StartsWithOverlap(before: seq<Bytes>, c: Bytes, prefix: nat, len: nat, maxBytes: nat, overlapBytes: nat) {
    if before == [] then prefix == 0
    else exists ov ::
      && OverlapOf(before[|before| - 1], overlapBytes, ov)
      && (if ov != [] && |ov| + 1 + len <= maxBytes then prefix == |ov| + 1 && ov + [NEWLINE] <= c else prefix == 0)
  }

  /** A chunk is its overlap followed by the segments `from` up to `to`, within the
      limit unless it is a single segment. */
  ghost predicate Assembled(c: Bytes, before: seq<Bytes>, prefix: nat, segments: seq<Bytes>, from: nat, to: nat,
                            maxBytes: nat, overlapBytes: nat)
  {
    && from < to <= |segments| && prefix <= |c|
    && c[prefix..] == Joined(segments[from..to])
    && ((prefix == 0 && to == from + 1) || |c| <= maxBytes)
    && StartsWithOverlap(before, c, prefix, |segments[from]|, maxBytes, overlapBytes)
  }

  /** The finished chunks, each closed because its next segment did not fit. */
  ghost predicate Packed(chunks: seq<Bytes>, prefixes: seq<nat>, starts: seq<nat>, segments: seq<Bytes>,
                         maxBytes: nat, overlapBytes: nat)
  {
    && |prefixes| == |chunks| && |starts| == |chunks| + 1 && starts[0] == 0
    && forall k :: 0 <= k < |chunks| ==>
      && Assembled(chunks[k], chunks[..k], prefixes[k], segments, starts[k], starts[k + 1], maxBytes, overlapBytes)
      && (starts[k + 1] < |segments| ==> |chunks[k]| + 1 + |segments[starts[k + 1]]| > maxBytes)
  }

  lemma PackedStart(segments: seq<Bytes>, maxBytes: nat, overlapBytes: nat)
    ensures Packed([], [], [0], segments, maxBytes, overlapBytes)
  {}

  /** Closing the chunk under construction. */
  lemma PackedSnoc(chunks: seq<Bytes>, prefixes: seq<nat>, starts: seq<nat>, segments: seq<Bytes>,
                   c: Bytes, prefix: nat, to: nat, maxBytes: nat, overlapBytes: nat)
    requires Packed(chunks, prefixes, starts, segments, maxBytes, overlapBytes)
    requires Assembled(c, chunks, prefix, segments, starts[|chunks|], to, maxBytes, overlapBytes)
    requires to < |segments| ==> |c| + 1 + |segments[to]| > maxBytes
    ensures Packed(chunks + [c], prefixes + [prefix], starts + [to], segments, maxBytes, overlapBytes)
  {
    hide Assembled;
    var cs, ps, ss := chunks + [c], prefixes + [prefix], starts + [to];
    forall k | 0 <= k < |cs|
      ensures Assembled(cs[k], cs[..k], ps[k], segments, ss[k], ss[k + 1], maxBytes, overlapBytes)
    {
      assert k < |chunks| ==> cs[..k] == chunks[..k];
      assert cs[..|chunks|] == chunks;
    }
  }

  /** One more segment on its own line. */
  lemma AssembledMore(c: Bytes, before: seq<Bytes>, prefix: nat, segments: seq<Bytes>, from: nat, to: nat,
                      maxBytes: nat, overlapBytes: nat)
    requires Assembled(c, before, prefix, segments, from, to, maxBytes, overlapBytes) && to < |segments|
    requires |c| + 1 + |segments[to]| <= maxBytes
    ensures Assembled(c + [NEWLINE] + segments[to], before, prefix, segments, from, to + 1, maxBytes, overlapBytes)
  {
    hide StartsWithOverlap, Joined;
    var c' := c + [NEWLINE] + segments[to];
    DropJoined(c, [NEWLINE], segments[to], prefix);
    JoinedSnoc(segments, from, to);
    StartsLonger(before, c, c', prefix, |segments[from]|, maxBytes, overlapBytes);
  }

  lemma JoinedSnoc(segments: seq<Bytes>, from: nat, to: nat)
    requires from < to < |segments|
    ensures Joined(segments[from..to + 1]) == Joined(segments[from..to]) + [NEWLINE] + segments[to]
  {
    assert segments[from..to + 1][..to - from] == segments[from..to];
  }

  lemma StartsLonger(before: seq<Bytes>, c: Bytes, c': Bytes, prefix: nat, len: nat, maxBytes: nat, overlapBytes: nat)
    requires StartsWithOverlap(before, c, prefix, len, maxBytes, overlapBytes) && c <= c'
    ensures StartsWithOverlap(before, c', prefix, len, maxBytes, overlapBytes)
  {
    hide OverlapOf;
  }

  /** A chunk that begins with segment i, with or without the overlap. */
  lemma AssembledOne(before: seq<Bytes>, ov: Bytes, segments: seq<Bytes>, i: nat, maxBytes: nat, overlapBytes: nat)
    requires i < |segments|
    requires before != [] ==> OverlapOf(before[|before| - 1], overlapBytes, ov)
    ensures var fits := before != [] && ov != [] && |ov| + 1 + |segments[i]| <= maxBytes;
      var c := if fits then ov + [NEWLINE] + segments[i] else segments[i];
      Assembled(c, before, if fits then |ov| + 1 else 0, segments, i, i + 1, maxBytes, overlapBytes)
  {
    hide OverlapOf;
    assert segments[i..i + 1] == [segments[i]];
    assert (ov + [NEWLINE] + segments[i])[|ov| + 1..] == segments[i];
    assert ov + [NEWLINE] <= ov + [NEWLINE] + segments[i];
    assert segments[i][0..] == segments[i];
  }

  lemma {:induction false} JoinedKeeps(segments: seq<Bytes>)
    requires forall i :: 0 <= i < |segments| ==> Valid(segments[i])
    ensures Valid(Joined(segments)) && NonSpace(Joined(segments)) == Kept(segments)
    decreases |segments|
  {
    hide Valid, NonSpace, Kept;
    NonSpaceEmpty();
    KeptEmpty();
    ValidEmpty();
    if segments != [] {
      var n := |segments| - 1;
      assert segments == segments[..n] + [segments[n]];
      KeptSnoc(segments[..n], segments[n]);
      JoinedKeeps(segments[..n]);
      JoinWord(Joined(segments[..n]), NEWLINE, segments[n]);
    }
  }

  lemma ValidEmpty()
    ensures Valid([])
  {}

  /** Without their overlaps the first k chunks hold the segments they were made of. */
  lemma {:induction false} PackedKeeps(chunks: seq<Bytes>, prefixes: seq<nat>, starts: seq<nat>, segments: seq<Bytes>,
                                       maxBytes: nat, overlapBytes: nat, k: nat)
    requires Packed(chunks, prefixes, starts, segments, maxBytes, overlapBytes) && k <= |chunks|
    requires forall i :: 0 <= i < |segments| ==> Valid(segments[i])
    ensures Prefixed(chunks, prefixes) && starts[k] <= |segments|
    ensures Kept(Bodies(chunks, prefixes)[..k]) == Kept(segments[..starts[k]])
    decreases k
  {
    hide Valid, NonSpace, Kept, Joined, StartsWithOverlap;
    KeptEmpty();
    forall j | 0 <= j < |chunks| ensures prefixes[j] <= |chunks[j]| {
      assert Assembled(chunks[j], chunks[..j], prefixes[j], segments, starts[j], starts[j + 1], maxBytes, overlapBytes);
    }
    var bodies := Bodies(chunks, prefixes);
    if k > 0 {
      PackedKeeps(chunks, prefixes, starts, segments, maxBytes, overlapBytes, k - 1);
      var from, to := starts[k - 1], starts[k];
      assert Assembled(chunks[k - 1], chunks[..k - 1], prefixes[k - 1], segments, from, to, maxBytes, overlapBytes);
      assert bodies[..k] == bodies[..k - 1] + [bodies[k - 1]];
      KeptSnoc(bodies[..k - 1], bodies[k - 1]);
      JoinedKeeps(segments[from..to]);
      assert segments[..to] == segments[..from] + segments[from..to];
      KeptConcat(segments[..from], segments[from..to]);
    } else {
      assert bodies[..0] == [] && segments[..0] == [];
    }
  }

  /** The chunks that are not white space only. */
  function NonBlank(chunks: seq<Bytes>): seq<Bytes> {
    if chunks == [] then []
    else
      var n := |chunks| - 1;
      NonBlank(chunks[..n]) + if TrimSpace(chunks[n]) == [] then [] else [chunks[n]]
  }

  method FilterEmpty(chunks: seq<Bytes>) returns (result: seq<Bytes>)
    ensures result == NonBlank(chunks)
  {
    hide TrimSpace;
    result := [];
    for i := 0 to |chunks|
      invariant result == NonBlank(chunks[..i])
    {
      assert chunks[..i + 1][..i] == chunks[..i];
      if TrimSpace(chunks[i]) != [] {
        result := result + [chunks[i]];
      }
    }
    assert chunks[..|chunks|] == chunks;
  }

  /** The filter removes none of the chunks of a valid text. */
  lemma {:induction false} PiecesStay(chunks: seq<Bytes>, maxBytes: nat)
    requires Pieces(chunks, maxBytes)
    ensures NonBlank(chunks) == chunks
    decreases |chunks|
  {
    hide Valid, NonSpace, TrimSpace;
    if chunks != [] {
      var n := |chunks| - 1;
      PiecesStay(chunks[..n], maxBytes);
      assert Piece(chunks[n], maxBytes);
      TrimSpaceKeeps(chunks[n]);
      assert chunks == chunks[..n] + [chunks[n]];
    }
  }

  /** All segments packed, less the blank chunks. */
  ghost predicate Merges(result: seq<Bytes>, segments: seq<Bytes>, maxBytes: nat, overlapBytes: nat) {
    exists packed, prefixes, starts ::
      && Packed(packed, prefixes, starts, segments, maxBytes, overlapBytes)
      && starts[|packed|] == |segments| && result == NonBlank(packed)
  }

  lemma MergesPacked(result: seq<Bytes>, packed: seq<Bytes>, prefixes: seq<nat>, starts: seq<nat>, segments: seq<Bytes>,
                     maxBytes: nat, overlapBytes: nat)
    requires Packed(packed, prefixes, starts, segments, maxBytes, overlapBytes)
    requires starts[|packed|] == |segments| && result == NonBlank(packed)
    ensures Merges(result, segments, maxBytes, overlapBytes)
  {}

  /** Greedy packing: each chunk takes the segments that fit, no fewer, after the
      overlap with its predecessor; blank chunks are filtered out at the end. */
  method MergeWithOverlap(segments: seq<Bytes>, maxBytes: nat, overlapBytes: nat)
    returns (result: seq<Bytes>, ghost packed: seq<Bytes>, ghost prefixes: seq<nat>, ghost starts: seq<nat>)
    requires Full(segments)
    ensures Packed(packed, prefixes, starts, segments, maxBytes, overlapBytes) && starts[|packed|] == |segments|
    ensures result == NonBlank(packed) && Merges(result, segments, maxBytes, overlapBytes)
  {
    hide OverlapOf, TrimSpace, Assembled, Joined, Packed, Merges, NonBlank;
    PackedStart(segments, maxBytes, overlapBytes);
    var chunks: seq<Bytes> := [];
    prefixes, starts := [], [0];
    var current: Bytes := [];
    ghost var p: nat := 0;
    for i := 0 to |segments|
      invariant (i == 0 <==> current == []) && (i == 0 ==> chunks == [] && starts == [0])
      invariant |starts| == |chunks| + 1
      invariant Packed(chunks, prefixes, starts, segments, maxBytes, overlapBytes)
      invariant i > 0 ==> Assembled(current, chunks, p, segments, starts[|chunks|], i, maxBytes, overlapBytes)
    {
      var seg := segments[i];
      var needed := |seg|;
      if |current| > 0 {
        needed := |current| + 1 + |seg|;
      }
      if needed <= maxBytes {
        if |current| > 0 {
          AssembledMore(current, chunks, p, segments, starts[|chunks|], i, maxBytes, overlapBytes);
          current := current + [NEWLINE] + seg;
        } else {
          AssembledOne(chunks, [], segments, i, maxBytes, overlapBytes);
          current, p := seg, 0;
        }
      } else if |current| > 0 {
        PackedSnoc(chunks, prefixes, starts, segments, current, p, i, maxBytes, overlapBytes);
        var chunk := current;
        var overlap := GetOverlapSuffix(chunk, overlapBytes);
        chunks, prefixes, starts := chunks + [chunk], prefixes + [p], starts + [i];
        AssembledOne(chunks, overlap, segments, i, maxBytes, overlapBytes);
        if overlap != [] && |overlap| + 1 + |seg| <= maxBytes {
          current, p := overlap + [NEWLINE] + seg, |overlap| + 1;
        } else {
          current, p := seg, 0;
        }
      } else {
        AssembledOne(chunks, [], segments, i, maxBytes, overlapBytes);
        current, p := seg, 0;
      }
    }
    if |current| > 0 {
      PackedSnoc(chunks, prefixes, starts, segments, current, p, |segments|, maxBytes, overlapBytes);
      chunks, prefixes, starts := chunks + [current], prefixes + [p], starts + [|segments|];
    }
    packed := chunks;
    result := FilterEmpty(chunks);
    MergesPacked(result, packed, prefixes, starts, segments, maxBytes, overlapBytes);
  }

  // ---------- The chunker ----------

  /** How a text is chunked: not at all if it fits, else split recursively and packed. */
  ghost predicate Chunked(t: Tables, text: Bytes, chunks: seq<Bytes>, segments: seq<Bytes>,
                          packed: seq<Bytes>, prefixes: seq<nat>, starts: seq<nat>, maxBytes: nat, overlapBytes: nat)
  {
    var trimmed := TrimSpace(text);
    if trimmed == [] then chunks == packed == [] && prefixes == []
    else if |trimmed| <= maxBytes then chunks == packed == [trimmed] && prefixes == [0]
    else
      && SplitRecursively(t, trimmed, segments, maxBytes)
      && Packed(packed, prefixes, starts, segments, maxBytes, overlapBytes) && starts[|packed|] == |segments|
      && chunks == NonBlank(packed)
  }

  ghost predicate ChunkPanics(t: Tables, text: Bytes, maxBytes: nat) {
    |TrimSpace(text)| > maxBytes && RecursivePanics(t, TrimSpace(text), maxBytes)
  }

  lemma StrayDotIsSolid()
    ensures TrimSpace(STRAY_DOT) == STRAY_DOT && Paragraphs(STRAY_DOT) == [STRAY_DOT]
  {
    assert CharLen(STRAY_DOT) == 0;
    assert STRAY_DOT[1..] == [0x2E];
  }

  /** One undecodable byte before a dot panics the chunker itself. */
  lemma StrayByteStopsChunker(t: Tables)
    ensures ChunkPanics(t, STRAY_DOT, 1)
  {
    hide TrimSpace, Paragraphs, SentencePanics;
    StrayDotIsSolid();
    StrayBytePanics(t);
  }

  /** RecursiveChunker on any bytes: it panics exactly when sentence splitting does, and
      otherwise chunks the text as said. */
  method ChunkText(t: Tables, text: Bytes, maxBytes: nat, overlapBytes: nat)
    returns (chunks: seq<Bytes>, panics: bool,
             ghost segments: seq<Bytes>, ghost packed: seq<Bytes>, ghost prefixes: seq<nat>, ghost starts: seq<nat>)
    ensures panics <==> ChunkPanics(t, text, maxBytes)
    ensures !panics ==> Chunked(t, text, chunks, segments, packed, prefixes, starts, maxBytes, overlapBytes)
  {
    hide TrimSpace, RecursivePanics, SplitRecursively, Packed;
    var trimmed := TrimSpace(text);
    chunks, panics, segments, packed, prefixes, starts := [], false, [], [], [], [];
    if trimmed == [] {
      return;
    }
    if |trimmed| <= maxBytes {
      return [trimmed], false, [], [trimmed], [0], [];
    }
    var cut, wild := SplitRecursive(t, trimmed, maxBytes);
    if wild {
      return [], true, [], [], [], [];
    }
    segments := cut;
    chunks, packed, prefixes, starts := MergeWithOverlap(cut, maxBytes, overlapBytes);
  }

  /** What chunking conserves: a valid text never panics, no chunk is filtered out,
      every chunk is a piece, and the chunks without their overlaps hold all the text,
      in order and once, up to white space. */
  lemma ChunksKeep(t: Tables, text: Bytes, chunks: seq<Bytes>, segments: seq<Bytes>,
                   packed: seq<Bytes>, prefixes: seq<nat>, starts: seq<nat>, maxBytes: nat, overlapBytes: nat)
    requires Valid(text) && Chunked(t, text, chunks, segments, packed, prefixes, starts, maxBytes, overlapBytes)
    ensures !ChunkPanics(t, text, maxBytes)
    ensures chunks == packed && Pieces(chunks, maxBytes)
    ensures Prefixed(chunks, prefixes) && Kept(Bodies(chunks, prefixes)) == NonSpace(text)
  {
    hide Valid, NonSpace, Kept, TrimSpace, RecursivePanics, SplitRecursively, Packed, NonBlank;
    var trimmed := TrimSpace(text);
    TrimSpaceKeeps(text);
    ValidIsSafe(t, trimmed, maxBytes);
    KeptEmpty();
    if trimmed == [] {
      assert Bodies([], []) == [];
    } else if |trimmed| <= maxBytes {
      KeptSnoc([], trimmed);
      assert Bodies([trimmed], [0]) == [] + [trimmed];
    } else {
      RecursiveKeeps(t, trimmed, segments, maxBytes);
      PackedPieces(packed, prefixes, starts, segments, maxBytes, overlapBytes);
    }
  }

  /** A chunk assembled from pieces, after a valid chunk, is a piece. */
  lemma ChunkIsPiece(c: Bytes, before: seq<Bytes>, prefix: nat, segments: seq<Bytes>, from: nat, to: nat,
                     maxBytes: nat, overlapBytes: nat)
    requires Assembled(c, before, prefix, segments, from, to, maxBytes, overlapBytes) && Pieces(segments, maxBytes)
    requires before != [] ==> Valid(before[|before| - 1])
    ensures Piece(c, maxBytes)
  {
    hide Valid, NonSpace, Kept, OverlapOf, Joined;
    var body := Joined(segments[from..to]);
    JoinedKeeps(segments[from..to]);
    FirstKept(segments[from..to], maxBytes);
    if prefix == 0 {
      assert c[0..] == c;
      if to == from + 1 {
        JoinedOne(segments, from);
        assert Piece(segments[from], maxBytes);
      }
    } else {
      var ov :| OverlapOf(before[|before| - 1], overlapBytes, ov) && prefix == |ov| + 1 && ov + [NEWLINE] <= c;
      OverlapValid(before[|before| - 1], overlapBytes, ov);
      JoinWord(ov, NEWLINE, body);
      assert c == (ov + [NEWLINE]) + c[prefix..];
    }
  }

  lemma FirstKept(segments: seq<Bytes>, maxBytes: nat)
    requires segments != [] && Pieces(segments, maxBytes)
    ensures Kept(segments) != []
  {
    assert Piece(segments[0], maxBytes);
  }

  lemma JoinedOne(segments: seq<Bytes>, i: nat)
    requires i < |segments|
    ensures Joined(segments[i..i + 1]) == segments[i]
  {}

  lemma {:induction false} PackedArePieces(packed: seq<Bytes>, prefixes: seq<nat>, starts: seq<nat>, segments: seq<Bytes>,
                                           maxBytes: nat, overlapBytes: nat, k: nat)
    requires Packed(packed, prefixes, starts, segments, maxBytes, overlapBytes) && Pieces(segments, maxBytes) && k <= |packed|
    ensures Pieces(packed[..k], maxBytes)
    decreases k
  {
    hide Piece, Assembled;
    if k > 0 {
      PackedArePieces(packed, prefixes, starts, segments, maxBytes, overlapBytes, k - 1);
      var before := packed[..k - 1];
      assert Assembled(packed[k - 1], before, prefixes[k - 1], segments, starts[k - 1], starts[k], maxBytes, overlapBytes);
      if before != [] {
        PieceIsValid(before[|before| - 1], maxBytes);
      }
      ChunkIsPiece(packed[k - 1], before, prefixes[k - 1], segments, starts[k - 1], starts[k], maxBytes, overlapBytes);
    }
  }

  lemma PieceIsValid(s: Bytes, maxBytes: nat)
    requires Piece(s, maxBytes)
    ensures Valid(s) && s != [] && |s| <= Limit(maxBytes)
  {
    NonSpaceNonEmpty(s);
  }

  lemma PackedPieces(packed: seq<Bytes>, prefixes: seq<nat>, starts: seq<nat>, segments: seq<Bytes>,
                     maxBytes: nat, overlapBytes: nat)
    requires Packed(packed, prefixes, starts, segments, maxBytes, overlapBytes) && starts[|packed|] == |segments|
    requires Pieces(segments, maxBytes)
    ensures Pieces(packed, maxBytes) && NonBlank(packed) == packed
    ensures Prefixed(packed, prefixes) && Kept(Bodies(packed, prefixes)) == Kept(segments)
  {
    hide Piece, Assembled, NonBlank, Kept;
    forall i | 0 <= i < |segments| ensures Valid(segments[i]) {
      PieceIsValid(segments[i], maxBytes);
    }
    PackedArePieces(packed, prefixes, starts, segments, maxBytes, overlapBytes, |packed|);
    assert packed[..|packed|] == packed && segments[..|segments|] == segments;
    PiecesStay(packed, maxBytes);
    PackedKeeps(packed, prefixes, starts, segments, maxBytes, overlapBytes, |packed|);
    assert Bodies(packed, prefixes)[..|packed|] == Bodies(packed, prefixes);
  }
}
