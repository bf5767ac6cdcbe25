/**
 UTF-8 as defined in section 4 of RFC 3629, with the decoding conventions of Go's
 unicode/utf8: a byte that starts no well-formed character counts as one rune of
 width one.
 */
module Utf8 {
  import opened Octets

  predicate RuneStart(b: byte) {
    !(0x80 <= b < 0xC0)
  }

  predicate Tail(b: byte) {
    0x80 <= b < 0xC0
  }

  predicate Two(s: Bytes) {
    |s| >= 2 && 0xC2 <= s[0] <= 0xDF && Tail(s[1])
  }

  predicate Three(s: Bytes) {
    |s| >= 3 && Tail(s[1]) && Tail(s[2]) &&
    (if s[0] == 0xE0 then 0xA0 <= s[1]
     else if s[0] == 0xED then s[1] <= 0x9F
     else 0xE1 <= s[0] <= 0xEF)
  }

  predicate Four(s: Bytes) {
    |s| >= 4 && Tail(s[1]) && Tail(s[2]) && Tail(s[3]) &&
    (if s[0] == 0xF0 then 0x90 <= s[1]
     else if s[0] == 0xF4 then s[1] <= 0x8F
     else 0xF1 <= s[0] <= 0xF3)
  }

  /** Length of the well-formed character s starts with, or 0. */
  function CharLen(s: Bytes): (n: nat)
    requires s != []
    ensures n <= 4 && n <= |s|
    ensures n > 0 ==> RuneStart(s[0]) && forall i :: 1 <= i < n ==> !RuneStart(s[i])
  {
    if s[0] < 0x80 then 1
    else if Two(s) then 2
    else if Three(s) then 3
    else if Four(s) then 4
    else 0
  }

  /** The width DecodeRune reports. */
  function DecodeSize(s: Bytes): (n: nat)
    requires s != []
    ensures 1 <= n <= 4 && n <= |s|
  {
    if CharLen(s) == 0 then 1 else CharLen(s)
  }

  predicate Valid(s: Bytes) {
    s == [] || (CharLen(s) > 0 && Valid(s[CharLen(s)..]))
  }

  function RuneCount(s: Bytes): (n: nat)
    ensures n <= |s|
  {
    if s == [] then 0 else 1 + RuneCount(s[DecodeSize(s)..])
  }

  /** k is not inside a character of a valid s. */
  predicate Boundary(s: Bytes, k: nat) {
    k <= |s| && (k < |s| ==> RuneStart(s[k]))
  }

  lemma CharLenExtend(s: Bytes, t: Bytes)
    requires s != [] && CharLen(s) > 0
    ensures CharLen(s + t) == CharLen(s)
  {
  }

  lemma CharLenPrefix(s: Bytes, k: nat)
    requires s != [] && 0 < CharLen(s) <= k <= |s|
    ensures CharLen(s[..k]) == CharLen(s)
  {
  }

  lemma {:induction false} ValidConcat(a: Bytes, b: Bytes)
    requires Valid(a) && Valid(b)
    ensures Valid(a + b)
    decreases |a|
  {
    if a == [] {
      assert a + b == b;
    } else {
      var n := CharLen(a);
      CharLenExtend(a, b);
      assert (a + b)[n..] == a[n..] + b;
      ValidConcat(a[n..], b);
    }
  }

  /** A valid text may be cut at every rune start. */
  lemma {:induction false} ValidSplit(s: Bytes, k: nat)
    requires Valid(s) && Boundary(s, k)
    ensures Valid(s[..k]) && Valid(s[k..])
    decreases |s|
  {
    hide CharLen;
    if k == 0 {
      assert s[..0] == [] && s[0..] == s;
    } else {
      var n := CharLen(s);
      assert n <= k;
      ValidSplit(s[n..], k - n);
      assert s[n..][..k - n] == s[n..k];
      assert s[n..][k - n..] == s[k..];
      CharLenPrefix(s, k);
      assert s[..k][n..] == s[n..k];
    }
  }

  /** Behind the first character of a valid text another one begins. */
  lemma AfterFirst(s: Bytes)
    requires s != [] && Valid(s)
    ensures Boundary(s, DecodeSize(s))
  {
    var n := CharLen(s);
    assert n < |s| ==> s[n..][0] == s[n];
  }

  /** From any offset of a valid text a rune start is at most three bytes back. */
  lemma {:induction false} StartWithinThree(s: Bytes, k: nat)
    requires Valid(s) && k < |s|
    ensures RuneStart(s[k]) || (k >= 1 && RuneStart(s[k - 1])) || (k >= 2 && RuneStart(s[k - 2])) || (k >= 3 && RuneStart(s[k - 3]))
    decreases |s|
  {
    var n := CharLen(s);
    if n <= k {
      StartWithinThree(s[n..], k - n);
      assert s[n..][k - n] == s[k];
      assert k - n >= 1 ==> s[n..][k - n - 1] == s[k - 1];
      assert k - n >= 2 ==> s[n..][k - n - 2] == s[k - 2];
      assert k - n >= 3 ==> s[n..][k - n - 3] == s[k - 3];
    }
  }
}
