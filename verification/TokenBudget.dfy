/**
 The token budget guard of guardrail/tokenbudget.go: it trims the oldest messages
 until the estimate fits, then removes tool results whose call was trimmed. The
 estimator is a parameter, as in the source.
 */
module TokenBudget {
  import opened Octets
  import Utf8

  datatype Message = Message(role: string, content: Bytes, attachments: nat,
                             toolCalls: seq<string>, toolCallID: string)

  predicate IsSystem(m: Message) {
    m.role == "system"
  }

  function Filter(ms: seq<Message>, p: Message -> bool): seq<Message> {
    if ms == [] then []
    else (if p(ms[0]) then [ms[0]] else []) + Filter(ms[1..], p)
  }

  predicate HasCall(ms: seq<Message>, id: string) {
    exists i :: 0 <= i < |ms| && id in ms[i].toolCalls
  }

  /** What is left when every non-system message before j has been trimmed. */
  function Trimmed(ms: seq<Message>, j: nat): seq<Message>
    requires j <= |ms|
  {
    Filter(ms[..j], IsSystem) + ms[j..]
  }

  /** A tool result stays if the list holds its call. */
  function Answering(ms: seq<Message>): Message -> bool {
    (m: Message) => m.toolCallID == "" || HasCall(ms, m.toolCallID)
  }

  function Answers(id: string): Message -> bool {
    (m: Message) => m.toolCallID == id
  }

  /** The cleanup after trimming. */
  function WithoutOrphans(ms: seq<Message>): seq<Message> {
    Filter(ms, Answering(ms))
  }

  // ---------- Filtering ----------

  lemma Assoc(a: seq<Message>, b: seq<Message>, c: seq<Message>)
    ensures a + (b + c) == a + b + c
  {}

  lemma {:induction false} FilterConcat(a: seq<Message>, b: seq<Message>, p: Message -> bool)
    ensures Filter(a + b, p) == Filter(a, p) + Filter(b, p)
    decreases |a|
  {
    if a == [] {
      assert a + b == b && Filter(a, p) == [] && Filter(b, p) == [] + Filter(b, p);
    } else {
      assert (a + b)[0] == a[0] && (a + b)[1..] == a[1..] + b;
      FilterConcat(a[1..], b, p);
      var one := if p(a[0]) then [a[0]] else [];
      Assoc(one, Filter(a[1..], p), Filter(b, p));
    }
  }

  lemma {:induction false} FilterMember(ms: seq<Message>, p: Message -> bool, m: Message)
    ensures m in Filter(ms, p) <==> m in ms && p(m)
    decreases |ms|
  {
    if ms != [] {
      assert ms == [ms[0]] + ms[1..];
      FilterMember(ms[1..], p, m);
    }
  }

  lemma {:induction false} FilterImplied(ms: seq<Message>, p: Message -> bool, q: Message -> bool)
    requires forall m :: m in ms && q(m) ==> p(m)
    ensures Filter(Filter(ms, p), q) == Filter(ms, q)
    decreases |ms|
  {
    if ms != [] {
      FilterImplied(ms[1..], p, q);
      FilterConcat(if p(ms[0]) then [ms[0]] else [], Filter(ms[1..], p), q);
      assert Filter([ms[0]], q) == if q(ms[0]) then [ms[0]] else [] by {
        assert [ms[0]][1..] == [];
      }
    }
  }

  lemma {:induction false} FilterNone(ms: seq<Message>, p: Message -> bool)
    requires forall m :: m in ms ==> !p(m)
    ensures Filter(ms, p) == []
    decreases |ms|
  {
    if ms != [] {
      FilterNone(ms[1..], p);
    }
  }

  lemma {:induction false} FilterAll(ms: seq<Message>, p: Message -> bool)
    requires forall m :: m in ms ==> p(m)
    ensures Filter(ms, p) == ms
    decreases |ms|
  {
    if ms != [] {
      FilterAll(ms[1..], p);
    }
  }

  lemma FilterOne(m: Message, p: Message -> bool)
    ensures Filter([m], p) == if p(m) then [m] else []
  {
    assert [m][1..] == [];
  }

  lemma HasCallConcat(a: seq<Message>, b: seq<Message>)
    ensures forall id :: HasCall(a + b, id) <==> HasCall(a, id) || HasCall(b, id)
  {
    forall id ensures HasCall(a + b, id) <==> HasCall(a, id) || HasCall(b, id) {
      if i :| 0 <= i < |a| && id in a[i].toolCalls {
        assert (a + b)[i] == a[i];
      }
      if i :| 0 <= i < |b| && id in b[i].toolCalls {
        assert (a + b)[|a| + i] == b[i];
      }
    }
  }

  /** In order, with messages left out. */
  predicate Subsequence(a: seq<Message>, b: seq<Message>)
    decreases |b|
  {
    if b == [] then a == []
    else Subsequence(a, b[1..]) || (a != [] && a[0] == b[0] && Subsequence(a[1..], b[1..]))
  }

  lemma {:induction false} FilterSubsequence(ms: seq<Message>, p: Message -> bool)
    ensures Subsequence(Filter(ms, p), ms)
    decreases |ms|
  {
    if ms != [] {
      FilterSubsequence(ms[1..], p);
      assert Filter(ms, p) == Filter(ms[1..], p) || Filter(ms, p)[1..] == Filter(ms[1..], p);
    }
  }

  lemma {:induction false} SubsequenceConcat(a: seq<Message>, b: seq<Message>, c: seq<Message>)
    requires Subsequence(a, b)
    ensures Subsequence(a + c, b + c)
    decreases |b|
  {
    if b == [] {
      assert a + c == c && b + c == c;
      SubsequenceSelf(c);
    } else {
      assert (b + c)[1..] == b[1..] + c;
      if Subsequence(a, b[1..]) {
        SubsequenceConcat(a, b[1..], c);
      } else {
        assert (a + c)[1..] == a[1..] + c;
        SubsequenceConcat(a[1..], b[1..], c);
      }
    }
  }

  lemma {:induction false} SubsequenceSelf(a: seq<Message>)
    ensures Subsequence(a, a)
    decreases |a|
  {
    if a != [] {
      SubsequenceSelf(a[1..]);
    }
  }

  lemma {:induction false} SubsequenceThrough(a: seq<Message>, b: seq<Message>, c: seq<Message>)
    requires Subsequence(a, b) && Subsequence(b, c)
    ensures Subsequence(a, c)
    decreases |c|
  {
    if c != [] {
      if Subsequence(b, c[1..]) {
        SubsequenceThrough(a, b, c[1..]);
      } else if Subsequence(a, b[1..]) {
        SubsequenceThrough(a, b[1..], c[1..]);
      } else {
        SubsequenceThrough(a[1..], b[1..], c[1..]);
      }
    }
  }

  // ---------- The default estimate ----------

  function Runes(ms: seq<Message>): nat {
    if ms == [] then 0 else Utf8.RuneCount(ms[0].content) + Runes(ms[1..])
  }

  function Media(ms: seq<Message>): nat {
    if ms == [] then 0 else ms[0].attachments + Media(ms[1..])
  }

  function Tokens(runes: nat, media: nat): nat {
    runes * 4 / 3 / 4 + media * 2000
  }

  function Estimate(ms: seq<Message>): int {
    Tokens(Runes(ms), Media(ms))
  }

  lemma {:induction false} SumsSnoc(ms: seq<Message>, m: Message)
    ensures Runes(ms + [m]) == Runes(ms) + Utf8.RuneCount(m.content)
    ensures Media(ms + [m]) == Media(ms) + m.attachments
    decreases |ms|
  {
    if ms == [] {
      assert ms + [m] == [m] && [m][1..] == [];
    } else {
      assert (ms + [m])[1..] == ms[1..] + [m];
      SumsSnoc(ms[1..], m);
    }
  }

  /** Padding and unpadding cancel out: one token for every whole three runes, and two
      thousand for each attachment. */
  lemma EstimateIsThird(ms: seq<Message>)
    ensures Estimate(ms) == Runes(ms) / 3 + 2000 * Media(ms)
  {
    var r := Runes(ms);
    var q, m := r / 3, r % 3;
    assert r * 4 == 3 * (4 * q + m) + m;
    assert r * 4 / 3 == 4 * q + m;
  }

  method DefaultTokenEstimate(ms: seq<Message>) returns (tokens: int)
    ensures tokens == Estimate(ms) == Runes(ms) / 3 + 2000 * Media(ms)
  {
    EstimateIsThird(ms);
    var runes, media := 0, 0;
    for i := 0 to |ms|
      invariant runes == Runes(ms[..i]) && media == Media(ms[..i])
    {
      assert ms[..i + 1] == ms[..i] + [ms[i]];
      SumsSnoc(ms[..i], ms[i]);
      runes, media := runes + Utf8.RuneCount(ms[i].content), media + ms[i].attachments;
    }
    assert ms[..|ms|] == ms;
    tokens := runes * 4 / 3 / 4 + media * 2000;
  }

  lemma {:induction false} SumsMonotone(a: seq<Message>, b: seq<Message>)
    requires Subsequence(a, b)
    ensures Runes(a) <= Runes(b) && Media(a) <= Media(b)
    decreases |b|
  {
    if b != [] {
      if Subsequence(a, b[1..]) {
        SumsMonotone(a, b[1..]);
      } else {
        SumsMonotone(a[1..], b[1..]);
      }
    }
  }

  lemma TokensMonotone(r: nat, m: nat, r': nat, m': nat)
    requires r <= r' && m <= m'
    ensures Tokens(r, m) <= Tokens(r', m')
  {
    assert r * 4 / 3 <= r' * 4 / 3;
  }

  /** Leaving messages out never raises the default estimate. */
  lemma EstimateMonotone(a: seq<Message>, b: seq<Message>)
    requires Subsequence(a, b)
    ensures Estimate(a) <= Estimate(b)
  {
    SumsMonotone(a, b);
    TokensMonotone(Runes(a), Media(a), Runes(b), Media(b));
  }

  // ---------- The guard ----------

  /** The oldest message that may go. A negative window lets the scan run off the end. */
  method FirstTrimmable(ms: seq<Message>, preserveLast: int) returns (idx: int, panics: bool)
    ensures panics <==> preserveLast < 0 && forall i :: 0 <= i < |ms| ==> IsSystem(ms[i])
    ensures idx >= -1
    ensures !panics && idx < 0 ==> forall i :: 0 <= i < |ms| - preserveLast && i < |ms| ==> IsSystem(ms[i])
    ensures !panics && idx >= 0 ==>
      idx < |ms| && idx < |ms| - preserveLast && !IsSystem(ms[idx]) && forall i :: 0 <= i < idx ==> IsSystem(ms[i])
  {
    var cutoff := |ms| - preserveLast;
    var i := 0;
    while i < cutoff
      invariant 0 <= i <= |ms|
      invariant forall k :: 0 <= k < i ==> IsSystem(ms[k])
    {
      if i >= |ms| {
        return -1, true;
      }
      if ms[i].role == "system" {
        i := i + 1;
        continue;
      }
      return i, false;
    }
    return -1, false;
  }

  lemma TrimmedLength(ms: seq<Message>, j: nat)
    requires j <= |ms|
    ensures |Trimmed(ms, j)| == |Filter(ms[..j], IsSystem)| + (|ms| - j)
    ensures forall i :: 0 <= i < |Filter(ms[..j], IsSystem)| ==> IsSystem(Trimmed(ms, j)[i])
  {
    var sys := Filter(ms[..j], IsSystem);
    forall i | 0 <= i < |sys| ensures IsSystem(Trimmed(ms, j)[i]) {
      FilterMember(ms[..j], IsSystem, sys[i]);
    }
  }

  /** Past system messages, trimming has nothing to do. */
  lemma TrimmedSkips(ms: seq<Message>, j: nat, k: nat)
    requires j <= k <= |ms| && forall i :: j <= i < k ==> IsSystem(ms[i])
    ensures Filter(ms[..k], IsSystem) == Filter(ms[..j], IsSystem) + ms[j..k]
    ensures Trimmed(ms, k) == Trimmed(ms, j)
  {
    assert ms[..k] == ms[..j] + ms[j..k] && ms[j..] == ms[j..k] + ms[k..];
    FilterConcat(ms[..j], ms[j..k], IsSystem);
    FilterAll(ms[j..k], IsSystem);
  }

  /** Deleting the first non-system message moves the cut just past it. */
  lemma TrimmedNext(ms: seq<Message>, j: nat, k: nat)
    requires j <= k < |ms| && !IsSystem(ms[k]) && forall i :: j <= i < k ==> IsSystem(ms[i])
    ensures var cur, idx := Trimmed(ms, j), |Filter(ms[..j], IsSystem)| + (k - j);
      idx < |cur| && cur[..idx] + cur[idx + 1..] == Trimmed(ms, k + 1)
  {
    hide Filter, IsSystem;
    TrimmedSkips(ms, j, k);
    assert ms[..k + 1] == ms[..k] + [ms[k]];
    FilterConcat(ms[..k], [ms[k]], IsSystem);
    FilterNone([ms[k]], IsSystem);
    assert Filter(ms[..k + 1], IsSystem) == Filter(ms[..k], IsSystem);
    var sys := Filter(ms[..k], IsSystem);
    assert (sys + ms[k..])[..|sys|] == sys && (sys + ms[k..])[|sys| + 1..] == ms[k + 1..];
  }

  /** The scan's index into the trimmed list, as an index into the original. */
  lemma TrimStep(ms: seq<Message>, j: nat, idx: nat) returns (k: nat)
    requires j <= |ms| && idx < |Trimmed(ms, j)| && !IsSystem(Trimmed(ms, j)[idx])
    requires forall i :: 0 <= i < idx ==> IsSystem(Trimmed(ms, j)[i])
    ensures j <= k < |ms| && !IsSystem(ms[k]) && |ms| - k == |Trimmed(ms, j)| - idx
    ensures Trimmed(ms, j)[..idx] + Trimmed(ms, j)[idx + 1..] == Trimmed(ms, k + 1)
    ensures forall i :: j <= i <= k ==> Trimmed(ms, i) == Trimmed(ms, j)
  {
    hide Trimmed;
    TrimmedLength(ms, j);
    var n := |Filter(ms[..j], IsSystem)|;
    TrimmedRest(ms, j);
    k := j + (idx - n);
    forall i | j <= i < k ensures IsSystem(ms[i]) {
      assert Trimmed(ms, j)[n + (i - j)] == ms[i];
    }
    TrimmedNext(ms, j, k);
    forall i | j <= i <= k ensures Trimmed(ms, i) == Trimmed(ms, j) {
      TrimmedSkips(ms, j, i);
    }
  }

  lemma TrimmedRest(ms: seq<Message>, j: nat)
    requires j <= |ms|
    ensures var n := |Filter(ms[..j], IsSystem)|;
      && |Trimmed(ms, j)| == n + (|ms| - j)
      && forall i :: j <= i < |ms| ==> Trimmed(ms, j)[n + (i - j)] == ms[i]
  {}

  /** Nothing left to trim before the window means nothing left in the original. */
  lemma TrimDone(ms: seq<Message>, j: nat, preserveLast: int)
    requires j <= |ms|
    requires forall i :: 0 <= i < |Trimmed(ms, j)| - preserveLast && i < |Trimmed(ms, j)| ==> IsSystem(Trimmed(ms, j)[i])
    ensures forall i :: j <= i < |ms| - preserveLast && i < |ms| ==> IsSystem(ms[i])
    ensures preserveLast < 0 ==> forall i: nat :: j <= i <= |ms| ==> Trimmed(ms, i) == Trimmed(ms, j)
  {
    hide Trimmed;
    TrimmedRest(ms, j);
    var n := |Filter(ms[..j], IsSystem)|;
    forall i | j <= i < |ms| - preserveLast && i < |ms| ensures IsSystem(ms[i]) {
      assert Trimmed(ms, j)[n + (i - j)] == ms[i];
    }
    if preserveLast < 0 {
      forall i: nat | j <= i <= |ms| ensures Trimmed(ms, i) == Trimmed(ms, j) {
        TrimmedSkips(ms, j, i);
      }
    }
  }

  datatype Outcome = Kept(messages: seq<Message>) | Panics

  /** The cut is the earliest that fits, or nothing but system messages is left
      before the preserved window. */
  ghost predicate Cut(ms: seq<Message>, estimate: seq<Message> -> int, maxTokens: int, preserveLast: int, j: nat) {
    && j <= |ms| && (j > 0 ==> !IsSystem(ms[j - 1]) && j <= |ms| - preserveLast)
    && (forall i: nat :: i < j ==> estimate(Trimmed(ms, i)) > maxTokens)
    && (estimate(Trimmed(ms, j)) <= maxTokens
        || forall i :: j <= i < |ms| - preserveLast && i < |ms| ==> IsSystem(ms[i]))
  }

  predicate OverBudget(ms: seq<Message>, estimate: seq<Message> -> int, maxTokens: int) {
    maxTokens > 0 && estimate(ms) > maxTokens
  }

  method PreLLM(ms: seq<Message>, estimate: seq<Message> -> int, maxTokens: int, preserveLast: int)
    returns (out: Outcome, ghost cut: nat)
    ensures maxTokens <= 0 || estimate(ms) <= maxTokens ==> out == Kept(ms)
    ensures OverBudget(ms, estimate, maxTokens) && out.Kept? ==>
      Cut(ms, estimate, maxTokens, preserveLast, cut) && out.messages == WithoutOrphans(Trimmed(ms, cut))
    ensures out.Panics? <==>
      OverBudget(ms, estimate, maxTokens) && preserveLast < 0 &&
      forall i: nat :: i <= |ms| ==> estimate(Trimmed(ms, i)) > maxTokens
  {
    hide Trimmed, WithoutOrphans;
    cut := 0;
    if maxTokens <= 0 || estimate(ms) <= maxTokens {
      return Kept(ms), 0;
    }
    var msgs := ms;
    TrimmedNothing(ms);
    while estimate(msgs) > maxTokens
      invariant cut <= |ms| && msgs == Trimmed(ms, cut)
      invariant cut > 0 ==> !IsSystem(ms[cut - 1]) && cut <= |ms| - preserveLast
      invariant forall i: nat :: i < cut ==> estimate(Trimmed(ms, i)) > maxTokens
      decreases |msgs|
    {
      var idx, panics := FirstTrimmable(msgs, preserveLast);
      if panics {
        TrimDone(ms, cut, preserveLast);
        return Panics, cut;
      }
      if idx < 0 {
        TrimDone(ms, cut, preserveLast);
        break;
      }
      ghost var k := TrimStep(ms, cut, idx);
      cut := k + 1;
      msgs := msgs[..idx] + msgs[idx + 1..];
    }
    var filtered := Cleanup(msgs);
    return Kept(filtered), cut;
  }

  lemma TrimmedNothing(ms: seq<Message>)
    ensures Trimmed(ms, 0) == ms
  {
    assert ms[0..] == ms && ms[..0] == [];
  }

  method Cleanup(ms: seq<Message>) returns (filtered: seq<Message>)
    ensures filtered == WithoutOrphans(ms)
  {
    var present: set<string> := {};
    for i := 0 to |ms|
      invariant forall id :: id in present <==> HasCall(ms[..i], id)
    {
      assert ms[..i + 1] == ms[..i] + [ms[i]];
      HasCallConcat(ms[..i], [ms[i]]);
      var calls := set k | 0 <= k < |ms[i].toolCalls| :: ms[i].toolCalls[k];
      present := present + calls;
    }
    assert ms[..|ms|] == ms;
    filtered := [];
    for i := 0 to |ms|
      invariant filtered == Filter(ms[..i], Answering(ms))
    {
      assert ms[..i + 1] == ms[..i] + [ms[i]];
      FilterConcat(ms[..i], [ms[i]], Answering(ms));
      FilterOne(ms[i], Answering(ms));
      if ms[i].toolCallID == "" || ms[i].toolCallID in present {
        filtered := filtered + [ms[i]];
      }
    }
    assert ms[..|ms|] == ms;
  }

  // ---------- Well-paired histories ----------

  /** Every tool result follows the one message with its call, every call is made in
      one place only, and system messages and tool results make no calls. */
  ghost predicate WellPaired(ms: seq<Message>) {
    && (forall j :: 0 <= j < |ms| && ms[j].toolCallID != "" ==> HasCall(ms[..j], ms[j].toolCallID))
    && (forall i, j, id :: 0 <= i < |ms| && 0 <= j < |ms| && id in ms[i].toolCalls && id in ms[j].toolCalls ==> i == j)
    && (forall i :: 0 <= i < |ms| && (IsSystem(ms[i]) || ms[i].toolCallID != "") ==> ms[i].toolCalls == [])
    && (forall i :: 0 <= i < |ms| && IsSystem(ms[i]) ==> ms[i].toolCallID == "")
    && (forall i :: 0 <= i < |ms| ==> "" !in ms[i].toolCalls)
  }

  /** The result of an over-budget call whose cut is j. */
  function Result(ms: seq<Message>, j: nat): seq<Message>
    requires j <= |ms|
  {
    WithoutOrphans(Trimmed(ms, j))
  }

  lemma TrimmedMember(ms: seq<Message>, j: nat, m: Message)
    requires j <= |ms|
    ensures m in Trimmed(ms, j) <==> m in ms[j..] || (m in ms[..j] && IsSystem(m))
  {
    FilterMember(ms[..j], IsSystem, m);
  }

  /** After trimming, the calls left are those made at or after the cut. */
  lemma CallsLeft(ms: seq<Message>, j: nat, id: string)
    requires WellPaired(ms) && j <= |ms|
    ensures HasCall(Trimmed(ms, j), id) <==> HasCall(ms[j..], id)
  {
    HasCallConcat(Filter(ms[..j], IsSystem), ms[j..]);
    var sys := Filter(ms[..j], IsSystem);
    forall i | 0 <= i < |sys| ensures sys[i].toolCalls == [] {
      FilterMember(ms[..j], IsSystem, sys[i]);
      var k :| 0 <= k < j && ms[..j][k] == sys[i];
      assert ms[k] == sys[i];
    }
  }

  /** A call made at or after j is made nowhere before, and answered nowhere before. */
  lemma CallAfter(ms: seq<Message>, j: nat, id: string)
    requires WellPaired(ms) && j <= |ms| && HasCall(ms[j..], id)
    ensures !HasCall(ms[..j], id)
    ensures forall m :: m in ms[..j] ==> m.toolCallID != id
  {
    var i :| 0 <= i < |ms[j..]| && id in ms[j..][i].toolCalls;
    assert id in ms[j + i].toolCalls;
    forall k | 0 <= k < j ensures id !in ms[..j][k].toolCalls {
      assert ms[..j][k] == ms[k];
    }
    forall m | m in ms[..j] ensures m.toolCallID != id {
      var k :| 0 <= k < j && ms[..j][k] == m;
      assert ms[k] == m;
      if m.toolCallID != "" {
        var l :| 0 <= l < |ms[..k]| && m.toolCallID in ms[..k][l].toolCalls;
        assert m.toolCallID in ms[l].toolCalls;
      }
    }
  }

  /** The result is the history with messages left out, in order. */
  lemma ResultIsSubsequence(ms: seq<Message>, j: nat)
    requires j <= |ms|
    ensures Subsequence(Result(ms, j), Trimmed(ms, j)) && Subsequence(Trimmed(ms, j), ms)
    ensures Subsequence(Result(ms, j), ms)
  {
    FilterSubsequence(Trimmed(ms, j), Answering(Trimmed(ms, j)));
    FilterSubsequence(ms[..j], IsSystem);
    SubsequenceConcat(Filter(ms[..j], IsSystem), ms[..j], ms[j..]);
    assert ms[..j] + ms[j..] == ms;
    SubsequenceThrough(Result(ms, j), Trimmed(ms, j), ms);
  }

  /** Every system message survives, in order. */
  lemma SystemKept(ms: seq<Message>, j: nat)
    requires WellPaired(ms) && j <= |ms|
    ensures Filter(Result(ms, j), IsSystem) == Filter(ms, IsSystem)
  {
    var cur := Trimmed(ms, j);
    forall m | m in cur && IsSystem(m) ensures Answering(cur)(m) {
      TrimmedMember(ms, j, m);
      assert m in ms;
      var i :| 0 <= i < |ms| && ms[i] == m;
    }
    FilterImplied(cur, Answering(cur), IsSystem);
    FilterConcat(Filter(ms[..j], IsSystem), ms[j..], IsSystem);
    FilterImplied(ms[..j], IsSystem, IsSystem);
    FilterConcat(ms[..j], ms[j..], IsSystem);
    assert ms[..j] + ms[j..] == ms;
  }

  /** No tool result is left without its call. */
  lemma NoOrphans(ms: seq<Message>, j: nat, m: Message)
    requires WellPaired(ms) && j <= |ms| && m in Result(ms, j) && m.toolCallID != ""
    ensures HasCall(Result(ms, j), m.toolCallID)
  {
    var cur, id := Trimmed(ms, j), m.toolCallID;
    FilterMember(cur, Answering(cur), m);
    var i :| 0 <= i < |cur| && id in cur[i].toolCalls;
    TrimmedMember(ms, j, cur[i]);
    assert cur[i] in ms;
    var k :| 0 <= k < |ms| && ms[k] == cur[i];
    FilterMember(cur, Answering(cur), cur[i]);
    assert cur[i] in Result(ms, j);
  }

  lemma CallSurvives(ms: seq<Message>, j: nat, id: string)
    requires WellPaired(ms) && j <= |ms| && HasCall(Result(ms, j), id)
    ensures HasCall(Trimmed(ms, j), id) && HasCall(ms[j..], id)
  {
    hide WellPaired, Trimmed;
    var cur, out := Trimmed(ms, j), Result(ms, j);
    var i :| 0 <= i < |out| && id in out[i].toolCalls;
    FilterMember(cur, Answering(cur), out[i]);
    var k :| 0 <= k < |cur| && cur[k] == out[i];
    CallsLeft(ms, j, id);
  }

  lemma ResultsAfter(ms: seq<Message>, j: nat, id: string)
    requires WellPaired(ms) && j <= |ms| && HasCall(ms[j..], id)
    ensures Filter(Trimmed(ms, j), Answers(id)) == Filter(ms, Answers(id))
  {
    hide WellPaired, HasCall;
    CallAfter(ms, j, id);
    FilterNone(ms[..j], Answers(id));
    forall m | m in Filter(ms[..j], IsSystem) ensures m.toolCallID != id {
      FilterMember(ms[..j], IsSystem, m);
    }
    FilterNone(Filter(ms[..j], IsSystem), Answers(id));
    FilterConcat(Filter(ms[..j], IsSystem), ms[j..], Answers(id));
    FilterConcat(ms[..j], ms[j..], Answers(id));
    assert ms[..j] + ms[j..] == ms;
  }

  /** A call that survives keeps every one of its results. */
  lemma CallsKeepResults(ms: seq<Message>, j: nat, id: string)
    requires WellPaired(ms) && j <= |ms| && HasCall(Result(ms, j), id)
    ensures Filter(Result(ms, j), Answers(id)) == Filter(ms, Answers(id))
  {
    hide WellPaired, HasCall, Trimmed, Filter;
    CallSurvives(ms, j, id);
    ResultsAfter(ms, j, id);
    FilterImplied(Trimmed(ms, j), Answering(Trimmed(ms, j)), Answers(id));
  }

  /** With the default estimate, the result fits or nothing more could be trimmed. */
  lemma FitsOrExhausted(ms: seq<Message>, maxTokens: int, preserveLast: int, j: nat)
    requires Cut(ms, Estimate, maxTokens, preserveLast, j)
    ensures || Estimate(Result(ms, j)) <= maxTokens
            || forall i :: j <= i < |ms| - preserveLast && i < |ms| ==> IsSystem(ms[i])
  {
    ResultIsSubsequence(ms, j);
    EstimateMonotone(Result(ms, j), Trimmed(ms, j));
  }

  /** PreserveLast promises that the last messages are never trimmed. They all survive
      exactly when none of them answers a call made before the cut. */
  lemma TailKeptIff(ms: seq<Message>, j: nat, preserveLast: nat)
    requires WellPaired(ms) && j + preserveLast <= |ms|
    ensures (forall m :: m in ms[|ms| - preserveLast..] ==> m in Result(ms, j))
       <==> (forall m :: m in ms[|ms| - preserveLast..] && m.toolCallID != "" ==> !HasCall(ms[..j], m.toolCallID))
  {
    var t := |ms| - preserveLast;
    forall m | m in ms[t..]
      ensures m in Result(ms, j) <==> (m.toolCallID != "" ==> !HasCall(ms[..j], m.toolCallID))
    {
      TailMember(ms, j, t, m);
    }
  }

  lemma TailMember(ms: seq<Message>, j: nat, t: nat, m: Message)
    requires WellPaired(ms) && j <= t <= |ms| && m in ms[t..]
    ensures m in Result(ms, j) <==> (m.toolCallID != "" ==> !HasCall(ms[..j], m.toolCallID))
  {
    hide WellPaired, HasCall, Trimmed;
    var cur := Trimmed(ms, j);
    var k :| 0 <= k < |ms[t..]| && ms[t..][k] == m;
    assert ms[t + k] == m && ms[j..][t + k - j] == m;
    TrimmedMember(ms, j, m);
    FilterMember(cur, Answering(cur), m);
    if m.toolCallID != "" {
      CallsLeft(ms, j, m.toolCallID);
      CallSide(ms, j, t + k);
    }
  }

  /** The call of a result lies on exactly one side of any cut. */
  lemma CallSide(ms: seq<Message>, j: nat, k: nat)
    requires WellPaired(ms) && j <= |ms| && k < |ms| && ms[k].toolCallID != ""
    ensures HasCall(ms[..j], ms[k].toolCallID) <==> !HasCall(ms[j..], ms[k].toolCallID)
  {
    var id := ms[k].toolCallID;
    var l :| 0 <= l < |ms[..k]| && id in ms[..k][l].toolCalls;
    assert id in ms[l].toolCalls;
    HasCallConcat(ms[..j], ms[j..]);
    assert ms[..j] + ms[j..] == ms;
    if HasCall(ms[j..], id) {
      CallAfter(ms, j, id);
    }
  }

  const CALL: Message := Message("assistant", [], 1, ["a"], "")
  const ANSWER: Message := Message("tool", [], 0, [], "a")

  lemma PairIsWellPaired()
    ensures WellPaired([CALL, ANSWER])
  {
    assert [CALL, ANSWER][..1] == [CALL];
    assert "a" in [CALL][0].toolCalls;
    assert HasCall([CALL], "a");
  }

  lemma PairTrimmed()
    ensures Trimmed([CALL, ANSWER], 1) == [ANSWER]
  {
    assert [CALL, ANSWER][..1] == [CALL] && [CALL, ANSWER][1..] == [ANSWER];
    FilterOne(CALL, IsSystem);
  }

  lemma PairEstimates()
    ensures Estimate([CALL, ANSWER]) > 1 && Estimate([ANSWER]) <= 1
  {
    SumsSnoc([], ANSWER);
    SumsSnoc([], CALL);
    SumsSnoc([CALL], ANSWER);
    assert [] + [ANSWER] == [ANSWER] && [] + [CALL] == [CALL] && [CALL] + [ANSWER] == [CALL, ANSWER];
    assert Media([]) == 0 && Runes([]) == 0 && Utf8.RuneCount([]) == 0;
  }

  /** One call with an attachment, its result last, one token allowed: the result is
      inside the preserved window and is dropped. */
  lemma PreservedResultDropped()
    ensures WellPaired([CALL, ANSWER]) && Cut([CALL, ANSWER], Estimate, 1, 1, 1)
    ensures ANSWER !in Result([CALL, ANSWER], 1)
  {
    hide WellPaired, Trimmed, Estimate, WithoutOrphans, Filter;
    PairIsWellPaired();
    PairTrimmed();
    PairEstimates();
    TrimmedNothing([CALL, ANSWER]);
    assert "a" in [CALL, ANSWER][..1][0].toolCalls;
    TailMember([CALL, ANSWER], 1, 1, ANSWER);
  }
}
