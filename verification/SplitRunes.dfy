/** splitContentRunes of agent/iteration.go: oversized tool results are cut into
    consecutive messages at byte offsets. */
module SplitRunes {
  import opened Octets
  import opened Utf8

  lemma FirstRune(s: Bytes)
    requires s != []
    ensures RuneCount(s[..DecodeSize(s)]) == 1
  {
    var n := DecodeSize(s);
    if CharLen(s) > 0 {
      CharLenPrefix(s, n);
    }
    assert s[..n][DecodeSize(s[..n])..] == [];
  }

  /** Where a longer text is cut: at the last rune start within the limit and three bytes
      before it; at the limit if there is none; behind the first rune if that is it. */
  ghost predicate IsCut(s: Bytes, maxRunes: nat, cut: nat)
    requires 0 < maxRunes < |s|
  {
    || (cut == maxRunes && forall k :: 0 <= k <= maxRunes && maxRunes - 3 <= k ==> !RuneStart(s[k]))
    || (exists b: nat :: LastStart(s, maxRunes, b) && cut == if b > 0 then b else DecodeSize(s))
  }

  predicate LastStart(s: Bytes, maxRunes: nat, b: nat)
    requires maxRunes < |s|
  {
    b <= maxRunes <= b + 3 && RuneStart(s[b]) && forall k :: b < k <= maxRunes ==> !RuneStart(s[k])
  }

  /** Where the next chunk ends. The search goes back at most three bytes; without
      a rune start there the cut stays put, and a cut of nothing takes one rune. */
  method Cut(s: Bytes, maxRunes: nat) returns (cut: nat)
    requires 0 < maxRunes < |s|
    ensures 0 < cut <= |s| && IsCut(s, maxRunes, cut)
    ensures cut <= maxRunes || (maxRunes < 4 && cut == DecodeSize(s))
    ensures maxRunes >= 4 ==> maxRunes - 3 <= cut
    ensures RuneCount(s[..cut]) <= maxRunes
    ensures Valid(s) ==> Boundary(s, cut)
  {
    cut := maxRunes;
    var back := 0;
    while back < 3 && cut > 0 && !RuneStart(s[cut])
      invariant 0 <= back <= 3 && cut == maxRunes - back
      invariant forall k :: cut < k <= maxRunes ==> !RuneStart(s[k])
    {
      cut := cut - 1;
      back := back + 1;
    }
    if Valid(s) {
      StartWithinThree(s, maxRunes);
    }
    ghost var b := cut;
    if !RuneStart(s[cut]) {
      cut := maxRunes;
    } else {
      assert LastStart(s, maxRunes, b);
    }
    if cut == 0 {
      cut := DecodeSize(s);
      FirstRune(s);
      if Valid(s) {
        AfterFirst(s);
      }
    }
  }

  /** The chunks join up to the input, each holds at most maxRunes runes, and a
      valid text is never cut inside a character. Chunks before the last are at most
      three bytes short of the limit. */
  method SplitContentRunes(s: Bytes, maxRunes: nat) returns (chunks: seq<Bytes>)
    requires maxRunes > 0
    ensures Flatten(chunks) == s
    ensures forall i :: 0 <= i < |chunks| ==> RuneCount(chunks[i]) <= maxRunes
    ensures Valid(s) ==> forall i :: 0 <= i < |chunks| ==> Valid(chunks[i])
    ensures |chunks| >= 1 && forall i :: 0 <= i < |chunks| - 1 ==> chunks[i] != []
    ensures maxRunes >= 4 && s != [] ==> chunks[|chunks| - 1] != []
    ensures maxRunes >= 4 ==> forall i :: 0 <= i < |chunks| - 1 ==> |chunks[i]| >= maxRunes - 3
    ensures |chunks[|chunks| - 1]| <= maxRunes
    ensures forall i :: 0 <= i < |chunks| - 1 ==> CutsAt(s, chunks, i, maxRunes)
  {
    hide Valid, RuneCount, DecodeSize, RuneStart, IsCut, CutsAt;
    if |s| <= maxRunes {
      FlattenSnoc([], s);
      assert [] + [s] == [s];
      return [s];
    }
    chunks := [];
    var rest := s;
    assert Flatten([]) + s == s;
    while |rest| > maxRunes
      invariant Flatten(chunks) + rest == s
      invariant Valid(s) ==> Valid(rest)
      invariant forall i :: 0 <= i < |chunks| ==> Cutting(chunks[i], Valid(s), maxRunes)
      invariant maxRunes >= 4 ==> rest != []
      invariant forall i :: 0 <= i < |chunks| ==> CutsAt(s, chunks, i, maxRunes)
      decreases |rest|
    {
      var cut := Cut(rest, maxRunes);
      if Valid(rest) {
        ValidSplit(rest, cut);
      }
      CutOff(chunks, rest, cut);
      CutsMore(s, chunks, rest, cut, maxRunes);
      chunks := chunks + [rest[..cut]];
      rest := rest[cut..];
    }
    FlattenSnoc(chunks, rest);
    CutsStay(s, chunks, rest, maxRunes);
    chunks := chunks + [rest];
  }

  /** Chunk i was cut off what was left then, as specified. */
  ghost predicate CutsAt(s: Bytes, chunks: seq<Bytes>, i: nat, maxRunes: nat) {
    i < |chunks| && maxRunes > 0 &&
    var at := |Flatten(chunks[..i])|;
    at <= |s| && |s[at..]| > maxRunes && IsCut(s[at..], maxRunes, |chunks[i]|)
  }

  lemma CutsStay(s: Bytes, chunks: seq<Bytes>, c: Bytes, maxRunes: nat)
    requires forall i :: 0 <= i < |chunks| ==> CutsAt(s, chunks, i, maxRunes)
    ensures forall i :: 0 <= i < |chunks| ==> CutsAt(s, chunks + [c], i, maxRunes)
  {
    hide IsCut, Flatten;
    forall i | 0 <= i < |chunks| ensures CutsAt(s, chunks + [c], i, maxRunes) {
      assert CutsAt(s, chunks, i, maxRunes);
      assert (chunks + [c])[..i] == chunks[..i];
    }
  }

  lemma CutsMore(s: Bytes, chunks: seq<Bytes>, rest: Bytes, cut: nat, maxRunes: nat)
    requires Flatten(chunks) + rest == s && 0 < maxRunes < |rest| && cut <= |rest| && IsCut(rest, maxRunes, cut)
    requires forall i :: 0 <= i < |chunks| ==> CutsAt(s, chunks, i, maxRunes)
    ensures forall i :: 0 <= i <= |chunks| ==> CutsAt(s, chunks + [rest[..cut]], i, maxRunes)
  {
    hide IsCut, Flatten;
    var c := rest[..cut];
    CutsStay(s, chunks, c, maxRunes);
    assert (chunks + [c])[..|chunks|] == chunks && s[|Flatten(chunks)|..] == rest;
  }

  /** A chunk before the last one. */
  predicate Cutting(c: Bytes, valid: bool, maxRunes: nat) {
    RuneCount(c) <= maxRunes && c != [] && (valid ==> Valid(c)) && (maxRunes >= 4 ==> |c| >= maxRunes - 3)
  }

  lemma CutOff(chunks: seq<Bytes>, rest: Bytes, cut: nat)
    requires cut <= |rest|
    ensures Flatten(chunks + [rest[..cut]]) + rest[cut..] == Flatten(chunks) + rest
  {
    FlattenSnoc(chunks, rest[..cut]);
    assert rest == rest[..cut] + rest[cut..];
  }
}
