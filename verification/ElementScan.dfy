/**
 What the streamed array scanner reports over a whole stream of deltas: when that is
 the same as one pass over the finished text, and which element texts it is for an
 array of any values.
 */
module ElementScan {
  import opened Octets
  import opened Json
  import opened PartialJsonRoundTrip
  import opened ElementTracker

  datatype Fed = Fed(scanned: nat, scan: Scan, completed: seq<Bytes>)

  /** One Feed per delta, each on everything received so far. */
  function FeedDeltas(valid: Validity, buf: Bytes, deltas: seq<Bytes>, s: nat, st: Scan): (f: Fed)
    requires s <= |buf| && ScanOk(st, s)
    decreases |deltas|
  {
    if deltas == [] then Fed(s, st, [])
    else
      var buf' := buf + deltas[0];
      var e := Stop(valid, buf', s, st);
      var r := Run(valid, buf', s, e, st);
      var rest := FeedDeltas(valid, buf', deltas[1..], e, r.scan);
      Fed(rest.scanned, rest.scan, r.completed + rest.completed)
  }

  function Streamed(valid: Validity, deltas: seq<Bytes>): seq<Bytes> {
    FeedDeltas(valid, [], deltas, 0, START).completed
  }

  /** The stream loop around the tracker: each delta is added to the buffer, and the
      whole buffer is fed. */
  method FeedAll(valid: Validity, deltas: seq<Bytes>) returns (completed: seq<Bytes>)
    ensures completed == Streamed(valid, deltas)
  {
    hide Run, Stop;
    var tracker := new ElementTracker(valid);
    var buf: Bytes := [];
    completed := [];
    assert deltas[0..] == deltas;
    for k := 0 to |deltas|
      invariant fresh(tracker) && tracker.valid == valid
      invariant tracker.scanned <= |buf| && ScanOk(tracker.State(), tracker.scanned)
      invariant completed + FeedDeltas(valid, buf, deltas[k..], tracker.scanned, tracker.State()).completed
             == Streamed(valid, deltas)
    {
      assert deltas[k..][1..] == deltas[k + 1..];
      buf := buf + deltas[k];
      var elems := tracker.Feed(buf);
      completed := completed + elems;
    }
  }

  function FirstStop(valid: Validity, d: Bytes): (e: nat)
    ensures e <= |d|
  {
    Stop(valid, d, 0, START)
  }

  /** One call on the finished text. */
  function SinglePass(valid: Validity, d: Bytes): seq<Bytes> {
    Run(valid, d, 0, FirstStop(valid, d), START).completed
  }

  /** Nothing completes after the top-level value has closed. */
  predicate Quiet(valid: Validity, d: Bytes) {
    var e := FirstStop(valid, d);
    Run(valid, d, e, |d|, Run(valid, d, 0, e, START).scan).completed == []
  }

  // ---------- Cutting the text into deltas ----------

  lemma {:induction false} StopLater(valid: Validity, d: Bytes, s: nat, m: nat, st: Scan)
    requires s <= m <= |d| && ScanOk(st, s) && m < Stop(valid, d, s, st)
    ensures Stop(valid, d, m, Run(valid, d, s, m, st).scan) == Stop(valid, d, s, st)
    decreases m - s
  {
    if s < m {
      StopLater(valid, d, s + 1, m, Step(valid, d, s, st).scan);
    }
  }

  /** However the text is cut, the calls together make one run over a prefix of it
      that reaches at least where a single pass stops. */
  lemma {:induction false} FeedsAreRun(valid: Validity, buf: Bytes, deltas: seq<Bytes>, s: nat, st: Scan)
    requires s <= |buf| && ScanOk(st, s)
    ensures
      var d := buf + Flatten(deltas);
      var f := FeedDeltas(valid, buf, deltas, s, st);
      && s <= f.scanned <= |d|
      && Run(valid, d, s, f.scanned, st) == Result(f.scan, f.completed)
      && (deltas != [] ==> Stop(valid, d, s, st) <= f.scanned)
    decreases |deltas|
  {
    var d := buf + Flatten(deltas);
    if deltas != [] {
      var buf' := buf + deltas[0];
      var n := |buf'|;
      assert d == buf' + Flatten(deltas[1..]);
      assert buf' == d[..n];
      var e := Stop(valid, buf', s, st);
      StopPrefix(valid, d, n, s, st);
      RunPrefix(valid, d, n, s, e, st);
      var st' := Run(valid, d, s, e, st).scan;
      FeedsAreRun(valid, buf', deltas[1..], e, st');
      var f := FeedDeltas(valid, buf', deltas[1..], e, st');
      RunSplit(valid, d, s, e, f.scanned, st);
      if e < Stop(valid, d, s, st) {
        StopLater(valid, d, s, e, st);
      }
    }
  }

  /** The text one byte at a time. */
  function Singles(d: Bytes): (deltas: seq<Bytes>)
    ensures |deltas| == |d| && forall i :: 0 <= i < |d| ==> deltas[i] == [d[i]]
  {
    seq(|d|, i requires 0 <= i < |d| => [d[i]])
  }

  lemma {:induction false} SinglesJoin(d: Bytes)
    ensures Flatten(Singles(d)) == d
    decreases |d|
  {
    if d != [] {
      SinglesJoin(d[1..]);
      assert Singles(d)[1..] == Singles(d[1..]);
      assert d == [d[0]] + d[1..];
    }
  }

  /** Byte by byte the scanner goes on past a closed array. */
  lemma {:induction false} SinglesReachEnd(valid: Validity, buf: Bytes, d: Bytes, st: Scan)
    requires ScanOk(st, |buf|)
    ensures FeedDeltas(valid, buf, Singles(d), |buf|, st).scanned == |buf| + |d|
    decreases |d|
  {
    if d != [] {
      var buf' := buf + [d[0]];
      assert Singles(d)[1..] == Singles(d[1..]);
      var e := Stop(valid, buf', |buf|, st);
      SinglesReachEnd(valid, buf', d[1..], Run(valid, buf', |buf|, e, st).scan);
    }
  }

  lemma CutsAgree(valid: Validity, d: Bytes, deltas: seq<Bytes>)
    requires Quiet(valid, d) && deltas != [] && Flatten(deltas) == d
    ensures Streamed(valid, deltas) == SinglePass(valid, d)
  {
    FeedsAreRun(valid, [], deltas, 0, START);
    assert [] + Flatten(deltas) == d;
    var e := FirstStop(valid, d);
    var k := FeedDeltas(valid, [], deltas, 0, START).scanned;
    var st := Run(valid, d, 0, e, START).scan;
    RunSplit(valid, d, 0, e, k, START);
    RunSplit(valid, d, e, k, |d|, st);
  }

  lemma NoisyCut(valid: Validity, d: Bytes)
    requires !Quiet(valid, d)
    ensures Streamed(valid, Singles(d)) != SinglePass(valid, d)
  {
    hide Run, Stop, FeedDeltas, Singles;
    SinglesJoin(d);
    SinglesReachEnd(valid, [], d, START);
    FeedsAreRun(valid, [], Singles(d), 0, START);
    assert [] + Flatten(Singles(d)) == d;
    RunSplit(valid, d, 0, FirstStop(valid, d), |d|, START);
  }

  predicate NoneEmpty(deltas: seq<Bytes>) {
    forall i :: 0 <= i < |deltas| ==> deltas[i] != []
  }

  /** The stream reports what a single pass would for every way of cutting the
      text, exactly when nothing completes after the top-level value closes. */
  lemma CutInvariance(valid: Validity, d: Bytes)
    ensures Quiet(valid, d) <==>
            forall deltas :: deltas != [] && NoneEmpty(deltas) && Flatten(deltas) == d ==>
              Streamed(valid, deltas) == SinglePass(valid, d)
  {
    hide Run, Stop, FeedDeltas;
    if Quiet(valid, d) {
      forall deltas | deltas != [] && NoneEmpty(deltas) && Flatten(deltas) == d
        ensures Streamed(valid, deltas) == SinglePass(valid, d)
      {
        CutsAgree(valid, d, deltas);
      }
    } else {
      SomethingAfter(valid, d);
      NoisyCut(valid, d);
      SinglesJoin(d);
      assert NoneEmpty(Singles(d));
    }
  }

  lemma SomethingAfter(valid: Validity, d: Bytes)
    requires !Quiet(valid, d)
    ensures d != []
  {}

  lemma {:induction false} StopDepth(valid: Validity, d: Bytes, s: nat, st: Scan)
    requires s <= |d| && ScanOk(st, s)
    ensures var e := Stop(valid, d, s, st); e < |d| ==> Run(valid, d, s, e, st).scan.depth == 0
    decreases |d| - s
  {
    if s < |d| {
      if ClosesTop(d, s, st) {
        var one := Step(valid, d, s, st);
        assert Run(valid, d, s + 1, s + 1, one.scan) == Result(one.scan, []);
      } else {
        StopDepth(valid, d, s + 1, Step(valid, d, s, st).scan);
      }
    }
  }

  lemma {:induction false} LowRun(valid: Validity, d: Bytes, s: nat, st: Scan)
    requires s <= |d| && ScanOk(st, s) && st.depth <= 0 && forall i :: s <= i < |d| ==> !Opens(d[i])
    ensures Run(valid, d, s, |d|, st).completed == []
    decreases |d| - s
  {
    if s < |d| {
      LowRun(valid, d, s + 1, Step(valid, d, s, st).scan);
    }
  }

  /** A caller's check: no bracket opens after the top-level value. */
  lemma NothingOpensIsQuiet(valid: Validity, d: Bytes)
    requires forall i :: FirstStop(valid, d) <= i < |d| ==> !Opens(d[i])
    ensures Quiet(valid, d)
  {
    hide Run, Stop;
    var e := FirstStop(valid, d);
    StopDepth(valid, d, 0, START);
    if e < |d| {
      LowRun(valid, d, e, Run(valid, d, 0, e, START).scan);
    } else {
      RunOfNothing(valid, d, Run(valid, d, 0, e, START).scan);
    }
  }

  lemma RunOfNothing(valid: Validity, d: Bytes, st: Scan)
    requires ScanOk(st, |d|)
    ensures Run(valid, d, |d|, |d|, st).completed == []
  {}

  const TWO_VALUES: Bytes := [LBRACKET, RBRACKET, LBRACKET, LBRACE, RBRACE, RBRACKET]

  /** `[][{}]`: the object of the second array is reported or not, as the text is cut. */
  lemma SecondArrayIsNoise(valid: Validity)
    ensures FirstStop(valid, TWO_VALUES) == 2 && !Quiet(valid, TWO_VALUES)
  {
    var d := TWO_VALUES;
    var s1, s2 := Scan(1, false, false, -1), Scan(2, false, false, 3);
    assert Step(valid, d, 0, START) == Result(s1, []) && Step(valid, d, 1, s1) == Result(START, []);
    assert Run(valid, d, 2, 2, START) == Result(START, []);
    assert Run(valid, d, 1, 2, s1) == Result(START, []);
    assert Stop(valid, d, 1, s1) == 2 && !ClosesTop(d, 0, START);
    assert Step(valid, d, 2, START) == Result(s1, []) && Step(valid, d, 3, s1) == Result(s2, []);
    assert Step(valid, d, 4, s2).completed == [d[3..5]];
    assert |Run(valid, d, 4, 6, s2).completed| >= 1;
    assert |Run(valid, d, 3, 6, s1).completed| >= 1;
  }

  // ---------- What passes unreported ----------

  /** From s to e the scanner goes from st to st', reports out and closes nothing
      at the top. */
  ghost predicate Passes(valid: Validity, d: Bytes, s: nat, e: nat, st: Scan, st': Scan, out: seq<Bytes>) {
    && s <= e <= |d| && ScanOk(st, s) && ScanOk(st', e)
    && Run(valid, d, s, e, st) == Result(st', out)
    && Stop(valid, d, s, st) == Stop(valid, d, e, st')
  }

  lemma PassNone(valid: Validity, d: Bytes, s: nat, st: Scan)
    requires At(d, s, []) && ScanOk(st, s)
    ensures Passes(valid, d, s, s, st, st, [])
  {
  }

  lemma PassOne(valid: Validity, d: Bytes, s: nat, st: Scan)
    requires s < |d| && ScanOk(st, s) && !ClosesTop(d, s, st)
    ensures var r := Step(valid, d, s, st); Passes(valid, d, s, s + 1, st, r.scan, r.completed)
  {
    var r := Step(valid, d, s, st);
    assert Run(valid, d, s + 1, s + 1, r.scan) == Result(r.scan, []);
  }

  lemma PassThen(valid: Validity, d: Bytes, s: nat, m: nat, e: nat, st: Scan, st1: Scan, st2: Scan, out1: seq<Bytes>, out2: seq<Bytes>)
    requires Passes(valid, d, s, m, st, st1, out1) && Passes(valid, d, m, e, st1, st2, out2)
    ensures Passes(valid, d, s, e, st, st2, out1 + out2)
  {
    RunSplit(valid, d, s, m, e, st);
  }

  /** PassThen where neither part reports anything. */
  lemma PassOn(valid: Validity, d: Bytes, s: nat, m: nat, e: nat, st: Scan, st1: Scan, st2: Scan)
    requires Passes(valid, d, s, m, st, st1, []) && Passes(valid, d, m, e, st1, st2, [])
    ensures Passes(valid, d, s, e, st, st2, [])
  {
    PassThen(valid, d, s, m, e, st, st1, st2, [], []);
  }

  /** Outside strings, and not waiting for an escaped byte. */
  predicate Calm(st: Scan) {
    !st.inString && !st.escape
  }

  /** A byte that changes nothing in state st. */
  predicate Inert(b: byte, st: Scan) {
    && b != QUOTE && !Opens(b) && !Closing(b)
    && (st.depth != 1 || IsWs(b) || (b == COMMA <==> st.elemStart == -1))
  }

  lemma {:induction false} PassInert(valid: Validity, d: Bytes, p: nat, s: Bytes, st: Scan)
    requires At(d, p, s) && ScanOk(st, p) && Calm(st)
    requires forall i :: 0 <= i < |s| ==> Inert(s[i], st)
    ensures Passes(valid, d, p, p + |s|, st, st, [])
    decreases |s|
  {
    if s == [] {
      PassNone(valid, d, p, st);
    } else {
      assert s == s[..1] + s[1..];
      AtSplit(d, p, s[..1], s[1..]);
      AtHead(d, p, s);
      PassOne(valid, d, p, st);
      PassInert(valid, d, p + 1, s[1..], st);
      PassOn(valid, d, p, p + 1, p + |s|, st, st, st);
    }
  }

  lemma {:induction false} PassBody(valid: Validity, d: Bytes, p: nat, body: Bytes, st: Scan)
    requires BodyOk(body) && At(d, p, body) && ScanOk(st, p) && st.inString && !st.escape
    ensures Passes(valid, d, p, p + |body|, st, st, [])
    decreases |body|
  {
    hide Passes;
    if body == [] {
      PassNone(valid, d, p, st);
    } else {
      var k := if body[0] == BACKSLASH then 2 else 1;
      assert body == body[..k] + body[k..];
      AtSplit(d, p, body[..k], body[k..]);
      AtHead(d, p, body);
      PassOne(valid, d, p, st);
      if k == 2 {
        PassOne(valid, d, p + 1, st.(escape := true));
        PassOn(valid, d, p, p + 1, p + 2, st, st.(escape := true), st);
      }
      PassBody(valid, d, p + k, body[k..], st);
      PassOn(valid, d, p, p + k, p + |body|, st, st, st);
    }
  }

  lemma PassString(valid: Validity, d: Bytes, p: nat, body: Bytes, st: Scan)
    requires BodyOk(body) && At(d, p, Quoted(body)) && ScanOk(st, p) && Calm(st)
    ensures Passes(valid, d, p, p + |Quoted(body)|, st, st, [])
  {
    AtSplit(d, p, [QUOTE] + body, [QUOTE]);
    AtSplit(d, p, [QUOTE], body);
    AtByte(d, p, QUOTE);
    var e := p + 1 + |body|;
    AtByte(d, e, QUOTE);
    var inside := st.(inString := true);
    PassOne(valid, d, p, st);
    PassBody(valid, d, p + 1, body, inside);
    PassOne(valid, d, e, inside);
    PassOn(valid, d, p, p + 1, e, st, inside, inside);
    PassOn(valid, d, p, e, e + 1, st, inside, st);
  }

  lemma PassAtom(valid: Validity, d: Bytes, p: nat, t: Json, st: Scan)
    requires !t.Arr? && !t.Obj? && WellFormed(t)
    requires At(d, p, Print(t)) && ScanOk(st, p) && Calm(st) && st.depth >= 2
    ensures Passes(valid, d, p, p + |Print(t)|, st, st, [])
  {
    if t.Str? {
      PassString(valid, d, p, t.body, st);
    } else {
      if t.Num? {
        NumberChars(t.raw);
      }
      PassInert(valid, d, p, Print(t), st);
    }
  }

  /** A separator, inside an element or between the elements of the array. */
  lemma PassLead(valid: Validity, d: Bytes, p: nat, before: Bytes, first: bool, after: Bytes, st: Scan)
    requires AllWs(before) && AllWs(after) && At(d, p, Lead(before, first, after))
    requires ScanOk(st, p) && Calm(st) && (st.depth >= 2 || st.elemStart == -1)
    ensures Passes(valid, d, p, p + |Lead(before, first, after)|, st, st, [])
  {
    PassInert(valid, d, p, Lead(before, first, after), st);
  }

  lemma PassKey(valid: Validity, d: Bytes, p: nat, key: Bytes, cb: Bytes, ca: Bytes, st: Scan)
    requires BodyOk(key) && AllWs(cb) && AllWs(ca) && At(d, p, KeyText(key, cb, ca))
    requires ScanOk(st, p) && Calm(st) && st.depth >= 2
    ensures Passes(valid, d, p, p + |KeyText(key, cb, ca)|, st, st, [])
  {
    var colon := cb + [COLON] + ca;
    assert KeyText(key, cb, ca) == Quoted(key) + colon;
    AtSplit(d, p, Quoted(key), colon);
    PassString(valid, d, p, key, st);
    PassInert(valid, d, p + |Quoted(key)|, colon, st);
    PassOn(valid, d, p, p + |Quoted(key)|, p + |KeyText(key, cb, ca)|, st, st, st);
  }

  /** Inside an element any value passes without a trace. */
  lemma {:induction false} PassDoc(valid: Validity, d: Bytes, p: nat, w: Doc, st: Scan)
    requires DocOk(w) && At(d, p, Layout(w)) && ScanOk(st, p) && Calm(st) && st.depth >= 2
    ensures Passes(valid, d, p, p + |Layout(w)|, st, st, [])
    decreases w, 1
  {
    if w.DAtom? {
      PassAtom(valid, d, p, w.atom, st);
    } else {
      PassOpen(valid, d, p, w, st);
      var e := p + |Layout(w)|;
      PassOne(valid, d, e - 1, Inside(st, p));
      PassOn(valid, d, p, e - 1, e, st, Inside(st, p), st);
    }
  }

  /** The state after the opening bracket at p. */
  function Inside(st: Scan, p: nat): Scan {
    st.(depth := st.depth + 1,
        elemStart := if st.depth == 1 && st.elemStart == -1 then p else st.elemStart)
  }

  /** A container up to its closing bracket. */
  lemma {:induction false} PassOpen(valid: Validity, d: Bytes, p: nat, w: Doc, st: Scan)
    requires !w.DAtom? && DocOk(w) && At(d, p, Layout(w)) && ScanOk(st, p) && Calm(st) && st.depth >= 1
    ensures |Layout(w)| >= 2
    ensures var e := p + |Layout(w)| - 1;
            && Closing(d[e]) && Passes(valid, d, p, e, st, Inside(st, p), [])
    decreases w, 0
  {
    hide Passes, Run, Stop, At, LayoutElems, LayoutMembers;
    var inner := if w.DArr? then LayoutElems(w.elems, true) else LayoutMembers(w.members, true);
    var open := if w.DArr? then LBRACKET else LBRACE;
    var shut := if w.DArr? then RBRACKET else RBRACE;
    AtSplit(d, p, [open] + inner + w.close, [shut]);
    AtSplit(d, p, [open] + inner, w.close);
    AtSplit(d, p, [open], inner);
    AtByte(d, p, open);
    var m := p + 1 + |inner|;
    var e := m + |w.close|;
    AtByte(d, e, shut);
    var st' := Inside(st, p);
    PassOne(valid, d, p, st);
    if w.DArr? {
      PassElems(valid, d, p + 1, w.elems, true, st');
    } else {
      PassMembers(valid, d, p + 1, w.members, true, st');
    }
    PassInert(valid, d, m, w.close, st');
    PassOn(valid, d, p, p + 1, m, st, st', st');
    PassOn(valid, d, p, m, e, st, st', st');
  }

  lemma {:induction false} PassElems(valid: Validity, d: Bytes, p: nat, es: DElems, first: bool, st: Scan)
    requires DElemsOk(es) && At(d, p, LayoutElems(es, first)) && ScanOk(st, p) && Calm(st) && st.depth >= 2
    ensures Passes(valid, d, p, p + |LayoutElems(es, first)|, st, st, [])
    decreases es
  {
    hide Passes, Run, Stop, Step, At, Layout, Lead, Opening;
    if es.DENil? {
      PassNone(valid, d, p, st);
    } else {
      ElemsUnfold(es, first);
      var lead, text, rest := Lead(es.before, first, es.after), Layout(es.head), LayoutElems(es.tail, false);
      AtSplit(d, p, lead + text, rest);
      AtSplit(d, p, lead, text);
      PassLead(valid, d, p, es.before, first, es.after, st);
      PassDoc(valid, d, p + |lead|, es.head, st);
      PassElems(valid, d, p + |lead| + |text|, es.tail, false, st);
      PassOn(valid, d, p, p + |lead|, p + |lead| + |text|, st, st, st);
      PassOn(valid, d, p, p + |lead| + |text|, p + |LayoutElems(es, first)|, st, st, st);
    }
  }

  lemma {:induction false} PassMembers(valid: Validity, d: Bytes, p: nat, ms: DMembers, first: bool, st: Scan)
    requires DMembersOk(ms) && At(d, p, LayoutMembers(ms, first)) && ScanOk(st, p) && Calm(st) && st.depth >= 2
    ensures Passes(valid, d, p, p + |LayoutMembers(ms, first)|, st, st, [])
    decreases ms
  {
    hide Passes, Run, Stop, Step, At, Layout, Lead, Opening;
    if ms.DMNil? {
      PassNone(valid, d, p, st);
    } else {
      MembersUnfold(ms, first);
      var opening, text, rest := Opening(ms, first), Layout(ms.val), LayoutMembers(ms.rest, false);
      AtSplit(d, p, opening + text, rest);
      AtSplit(d, p, opening, text);
      PassOpening(valid, d, p, ms, first, st);
      PassDoc(valid, d, p + |opening|, ms.val, st);
      PassMembers(valid, d, p + |opening| + |text|, ms.rest, false, st);
      PassOn(valid, d, p, p + |opening|, p + |opening| + |text|, st, st, st);
      PassOn(valid, d, p, p + |opening| + |text|, p + |LayoutMembers(ms, first)|, st, st, st);
    }
  }

  lemma PassOpening(valid: Validity, d: Bytes, p: nat, ms: DMembers, first: bool, st: Scan)
    requires ms.DMCons? && DMembersOk(ms) && At(d, p, Opening(ms, first))
    requires ScanOk(st, p) && Calm(st) && st.depth >= 2
    ensures Passes(valid, d, p, p + |Opening(ms, first)|, st, st, [])
  {
    hide Passes, Run, Stop, Step, At, Lead, KeyText, BodyOk, DocOk;
    var lead, key := Lead(ms.before, first, ms.after), KeyText(ms.key, ms.colonBefore, ms.colonAfter);
    AtSplit(d, p, lead, key);
    PassLead(valid, d, p, ms.before, first, ms.after, st);
    PassKey(valid, d, p + |lead|, ms.key, ms.colonBefore, ms.colonAfter, st);
    PassOn(valid, d, p, p + |lead|, p + |lead| + |key|, st, st, st);
  }

  // ---------- Top-level elements ----------

  /** The element texts, in order. */
  function Texts(es: DElems): seq<Bytes> {
    if es.DENil? then [] else [Layout(es.head)] + Texts(es.tail)
  }

  predicate IsString(w: Doc) {
    w.DAtom? && w.atom.Str?
  }

  /** A number or a literal. */
  predicate IsScalar(w: Doc) {
    w.DAtom? && !w.atom.Str?
  }

  /** What the scanner finds: all but strings and a last scalar. */
  function Reported(es: DElems): seq<Bytes> {
    if es.DENil? then []
    else (if IsString(es.head) || (IsScalar(es.head) && es.tail.DENil?) then [] else [Layout(es.head)]) + Reported(es.tail)
  }

  /** json.Valid accepts the scalar elements. */
  predicate ScalarsValid(valid: Validity, es: DElems) {
    es.DECons? ==> (IsScalar(es.head) ==> valid(Layout(es.head))) && ScalarsValid(valid, es.tail)
  }

  predicate NoStrings(es: DElems) {
    es.DECons? ==> !IsString(es.head) && NoStrings(es.tail)
  }

  predicate LastIsScalar(es: DElems) {
    es.DECons? && if es.tail.DENil? then IsScalar(es.head) else LastIsScalar(es.tail)
  }

  lemma {:induction false} ReportedAll(es: DElems)
    ensures |Reported(es)| <= |Texts(es)|
    ensures |Reported(es)| == |Texts(es)| <==> NoStrings(es) && !LastIsScalar(es)
    ensures NoStrings(es) && !LastIsScalar(es) ==> Reported(es) == Texts(es)
    decreases es
  {
    hide Layout;
    if es.DECons? {
      ReportedAll(es.tail);
    }
  }

  const INSIDE_ARRAY: Scan := Scan(1, false, false, -1)

  lemma AtSlice(d: Bytes, p: nat, s: Bytes)
    requires At(d, p, s)
    ensures p + |s| <= |d| && d[p..p + |s|] == s
  {
  }

  /** An object or array element is reported once, as its own text. */
  lemma PassElement(valid: Validity, d: Bytes, p: nat, w: Doc)
    requires !w.DAtom? && DocOk(w) && At(d, p, Layout(w))
    ensures Passes(valid, d, p, p + |Layout(w)|, INSIDE_ARRAY, INSIDE_ARRAY, [Layout(w)])
  {
    hide Passes, Run, Stop, Layout, At, DocOk;
    PassOpen(valid, d, p, w, INSIDE_ARRAY);
    var e := p + |Layout(w)|;
    var st' := Inside(INSIDE_ARRAY, p);
    AtSlice(d, p, Layout(w));
    PassOne(valid, d, e - 1, st');
    PassThen(valid, d, p, e - 1, e, INSIDE_ARRAY, st', INSIDE_ARRAY, [], [Layout(w)]);
    assert [] + [Layout(w)] == [Layout(w)];
  }

  /** The state at p inside the array; s is the scalar just before p, or nothing. */
  function Hanging(p: nat, s: Bytes): Scan
    requires |s| <= p
  {
    if s == [] then INSIDE_ARRAY else Scan(1, false, false, p - |s|)
  }

  predicate Scalar(s: Bytes) {
    forall i :: 0 <= i < |s| ==>
      !IsWs(s[i]) && s[i] != QUOTE && s[i] != COMMA && !Opens(s[i]) && !Closing(s[i])
  }

  lemma ScalarText(w: Doc)
    requires DocOk(w) && IsScalar(w)
    ensures Layout(w) != [] && Scalar(Layout(w))
  {
    if w.atom.Num? {
      NumberChars(w.atom.raw);
    }
  }

  lemma PassScalar(valid: Validity, d: Bytes, p: nat, s: Bytes)
    requires s != [] && Scalar(s) && At(d, p, s)
    ensures Passes(valid, d, p, p + |s|, INSIDE_ARRAY, Hanging(p + |s|, s), [])
  {
    hide Passes, Run, Stop, At;
    assert s == s[..1] + s[1..];
    AtSplit(d, p, s[..1], s[1..]);
    AtHead(d, p, s);
    var st := Scan(1, false, false, p);
    PassOne(valid, d, p, INSIDE_ARRAY);
    PassInert(valid, d, p + 1, s[1..], st);
    PassOn(valid, d, p, p + 1, p + |s|, INSIDE_ARRAY, st, st);
  }

  lemma {:induction false} TrimWsKeeps(s: Bytes, ws: Bytes)
    requires AllWs(ws) && (s != [] ==> !IsWs(s[|s| - 1]))
    ensures TrimWs(s + ws) == s
    decreases |ws|
  {
    if ws == [] {
      assert s + ws == s;
    } else {
      var n := |ws| - 1;
      assert (s + ws)[|s + ws| - 1] == ws[n] && (s + ws)[..|s + ws| - 1] == s + ws[..n];
      TrimWsKeeps(s, ws[..n]);
    }
  }

  /** A comma reports the scalar before it. */
  lemma PassComma(valid: Validity, d: Bytes, p: nat, s: Bytes, before: Bytes, after: Bytes)
    requires s != [] && Scalar(s) && valid(s) && |s| <= p && At(d, p - |s|, s)
    requires AllWs(before) && AllWs(after) && At(d, p, Lead(before, false, after))
    ensures Passes(valid, d, p, p + |Lead(before, false, after)|, Hanging(p, s), INSIDE_ARRAY, [s])
  {
    hide Passes, Run, Stop, At;
    AtSplit(d, p, before + [COMMA], after);
    AtSplit(d, p, before, [COMMA]);
    var i := p + |before|;
    AtByte(d, i, COMMA);
    var st := Hanging(p, s);
    PassInert(valid, d, p, before, st);
    SliceTwo(d, p - |s|, s, before);
    TrimWsKeeps(s, before);
    PassOne(valid, d, i, st);
    PassInert(valid, d, i + 1, after, INSIDE_ARRAY);
    PassThen(valid, d, p, i, i + 1, st, st, INSIDE_ARRAY, [], [s]);
    assert [] + [s] == [s] && [s] + [] == [s];
    PassThen(valid, d, p, i + 1, i + 1 + |after|, st, INSIDE_ARRAY, INSIDE_ARRAY, [s], []);
  }

  lemma SliceTwo(d: Bytes, p: nat, a: Bytes, b: Bytes)
    requires At(d, p, a) && At(d, p + |a|, b)
    ensures d[p..p + |a| + |b|] == a + b
  {}

  /** The separator before an element: a hanging scalar is reported. */
  lemma PassSeparator(valid: Validity, d: Bytes, p: nat, s: Bytes, before: Bytes, first: bool, after: Bytes)
    requires Scalar(s) && |s| <= p && At(d, p - |s|, s) && (s != [] ==> !first && valid(s))
    requires AllWs(before) && AllWs(after) && At(d, p, Lead(before, first, after))
    ensures Passes(valid, d, p, p + |Lead(before, first, after)|, Hanging(p, s), INSIDE_ARRAY, if s == [] then [] else [s])
  {
    hide Passes, Run, Stop, At, Lead;
    if s == [] {
      PassLead(valid, d, p, before, first, after, INSIDE_ARRAY);
    } else {
      PassComma(valid, d, p, s, before, after);
    }
  }

  /** One element of any kind: a container is reported, a scalar left hanging. */
  lemma PassAny(valid: Validity, d: Bytes, p: nat, w: Doc) returns (s: Bytes, out: seq<Bytes>)
    requires DocOk(w) && At(d, p, Layout(w))
    ensures s == (if IsScalar(w) then Layout(w) else []) && out == (if w.DAtom? then [] else [Layout(w)])
    ensures Scalar(s) && |s| <= p + |Layout(w)| && At(d, p + |Layout(w)| - |s|, s)
    ensures Passes(valid, d, p, p + |Layout(w)|, INSIDE_ARRAY, Hanging(p + |Layout(w)|, s), out)
  {
    hide Passes, Run, Stop, Step, Layout, DocOk;
    if !w.DAtom? {
      s, out := [], [Layout(w)];
      PassElement(valid, d, p, w);
    } else if IsString(w) {
      s, out := [], [];
      StringText(w);
      PassString(valid, d, p, w.atom.body, INSIDE_ARRAY);
    } else {
      s, out := Layout(w), [];
      ScalarText(w);
      PassScalar(valid, d, p, s);
    }
  }

  lemma StringText(w: Doc)
    requires DocOk(w) && IsString(w)
    ensures BodyOk(w.atom.body) && Layout(w) == Quoted(w.atom.body)
  {}

  /** The reports from p on: a hanging scalar if another element follows, and then
      those of the elements. */
  function Owed(s: Bytes, es: DElems): seq<Bytes> {
    (if s != [] && es.DECons? then [s] else []) + Reported(es)
  }

  lemma OwedStep(es: DElems, s: Bytes, s': Bytes)
    requires es.DECons? && Layout(es.head) != [] && s' == (if IsScalar(es.head) then Layout(es.head) else [])
    ensures var out := if es.head.DAtom? then [] else [Layout(es.head)];
      Owed(s, es) == (if s == [] then [] else [s]) + (out + Owed(s', es.tail))
  {
    hide Layout;
  }

  lemma NothingTop(d: Bytes, p: nat, first: bool, s: Bytes)
    requires At(d, p, LayoutElems(DENil, first)) && Scalar(s) && |s| <= p
    ensures p <= |d| && LayoutElems(DENil, first) == [] && Owed(s, DENil) == []
    ensures var st := Hanging(p, s); ScanOk(st, p) && Calm(st) && st.depth == 1
  {}

  lemma TopParts(valid: Validity, es: DElems)
    requires es.DECons? && DElemsOk(es) && ScalarsValid(valid, es)
    ensures AllWs(es.before) && AllWs(es.after) && DocOk(es.head) && DElemsOk(es.tail)
    ensures ScalarsValid(valid, es.tail) && (IsScalar(es.head) ==> valid(Layout(es.head)))
  {}

  lemma {:induction false} PassTopElems(valid: Validity, d: Bytes, p: nat, es: DElems, first: bool, s: Bytes)
    returns (st: Scan)
    requires DElemsOk(es) && ScalarsValid(valid, es) && At(d, p, LayoutElems(es, first))
    requires Scalar(s) && |s| <= p && At(d, p - |s|, s) && (s != [] ==> !first && valid(s))
    ensures Calm(st) && st.depth == 1
    ensures Passes(valid, d, p, p + |LayoutElems(es, first)|, Hanging(p, s), st, Owed(s, es))
    decreases es
  {
    hide *;
    if es.DENil? {
      st := Hanging(p, s);
      NothingTop(d, p, first, s);
      PassNone(valid, d, p, st);
    } else {
      ElemsUnfold(es, first);
      TopParts(valid, es);
      LayoutStart(es.head);
      var lead, text, rest := Lead(es.before, first, es.after), Layout(es.head), LayoutElems(es.tail, false);
      AtSplit(d, p, lead + text, rest);
      AtSplit(d, p, lead, text);
      var m, n, e := p + |lead|, p + |lead| + |text|, p + |LayoutElems(es, first)|;
      PassSeparator(valid, d, p, s, es.before, first, es.after);
      var s', out := PassAny(valid, d, m, es.head);
      st := PassTopElems(valid, d, n, es.tail, false, s');
      PassThen(valid, d, m, n, e, INSIDE_ARRAY, Hanging(n, s'), st, out, Owed(s', es.tail));
      PassThen(valid, d, p, m, e, Hanging(p, s), INSIDE_ARRAY, st, if s == [] then [] else [s], out + Owed(s', es.tail));
      OwedStep(es, s, s');
    }
  }

  lemma AtEmpty(d: Bytes, p: nat)
    requires p <= |d|
    ensures At(d, p, [])
  {}

  /** A whole array text up to its closing bracket. */
  lemma PassArray(valid: Validity, d: Bytes, p: nat, es: DElems, close: Bytes) returns (st: Scan)
    requires DElemsOk(es) && ScalarsValid(valid, es) && AllWs(close) && At(d, p, Layout(DArr(es, close)))
    ensures |Layout(DArr(es, close))| >= 2 && Calm(st) && st.depth == 1
    ensures var e := p + |Layout(DArr(es, close))| - 1;
            && e < |d| && d[e] == RBRACKET
            && Passes(valid, d, p, e, START, st, Reported(es))
  {
    hide Passes, Run, Stop, At, LayoutElems;
    var inner := LayoutElems(es, true);
    AtSplit(d, p, [LBRACKET] + inner + close, [RBRACKET]);
    AtSplit(d, p, [LBRACKET] + inner, close);
    AtSplit(d, p, [LBRACKET], inner);
    AtByte(d, p, LBRACKET);
    var m := p + 1 + |inner|;
    AtByte(d, m + |close|, RBRACKET);
    AtEmpty(d, p + 1);
    PassOne(valid, d, p, START);
    st := PassTopElems(valid, d, p + 1, es, true, []);
    assert Owed([], es) == Reported(es);
    PassScanOk(valid, d, p + 1, m, INSIDE_ARRAY, st, Reported(es));
    PassInert(valid, d, m, close, st);
    PassThen(valid, d, p, p + 1, m, START, INSIDE_ARRAY, st, [], Reported(es));
    PassThen(valid, d, p, m, m + |close|, START, st, st, [] + Reported(es), []);
    assert [] + Reported(es) + [] == Reported(es);
  }

  lemma PassScanOk(valid: Validity, d: Bytes, s: nat, e: nat, st: Scan, st': Scan, out: seq<Bytes>)
    requires Passes(valid, d, s, e, st, st', out)
    ensures ScanOk(st', e)
  {}

  /** Once the array is closed, white space adds nothing. */
  lemma TrailIsQuiet(valid: Validity, d: Bytes, s: nat, trail: Bytes, st: Scan)
    requires At(d, s, trail) && AllWs(trail) && s + |trail| == |d| && ScanOk(st, s) && Calm(st)
    ensures Run(valid, d, s, |d|, st).completed == []
  {
    PassInert(valid, d, s, trail, st);
  }

  /** The closing bracket ends the pass. */
  lemma PassClose(valid: Validity, d: Bytes, e: nat, st: Scan, out: seq<Bytes>)
    requires e < |d| && d[e] == RBRACKET && Calm(st) && st.depth == 1 && Passes(valid, d, 0, e, START, st, out)
    ensures FirstStop(valid, d) == e + 1 && Run(valid, d, 0, e + 1, START) == Result(st.(depth := 0), out)
  {
    RunSnoc(valid, d, 0, e, START);
    assert out + [] == out;
  }

  /** For every array, laid out with any white space, and every way of cutting its
      bytes into deltas, the scanner reports its objects and arrays and the scalars
      that another element follows, in order, each once: as one pass would. */
  lemma StreamedElements(valid: Validity, es: DElems, close: Bytes, lead: Bytes, trail: Bytes, deltas: seq<Bytes>)
    requires DElemsOk(es) && ScalarsValid(valid, es) && AllWs(close) && AllWs(lead) && AllWs(trail)
    requires deltas != [] && Flatten(deltas) == lead + Layout(DArr(es, close)) + trail
    ensures Streamed(valid, deltas) == Reported(es)
    ensures Streamed(valid, deltas) == SinglePass(valid, Flatten(deltas))
  {
    hide Run, Stop, Layout, FeedDeltas, Passes, Streamed, Reported, At;
    var d := Flatten(deltas);
    var text := Layout(DArr(es, close));
    var p, e := |lead|, |lead| + |text|;
    ThreeParts(d, lead, text, trail);
    PassInert(valid, d, 0, lead, START);
    var st := PassArray(valid, d, p, es, close);
    PassThen(valid, d, 0, p, e - 1, START, START, st, [], Reported(es));
    assert [] + Reported(es) == Reported(es);
    PassScanOk(valid, d, 0, e - 1, START, st, Reported(es));
    PassClose(valid, d, e - 1, st, Reported(es));
    TrailIsQuiet(valid, d, e, trail, st.(depth := 0));
    CutsAgree(valid, d, deltas);
  }

  lemma ThreeParts(d: Bytes, a: Bytes, b: Bytes, c: Bytes)
    requires d == a + b + c
    ensures At(d, 0, a) && At(d, |a|, b) && At(d, |a| + |b|, c)
  {}

  /** The reports are the elements if and only if none is a string and the last one is
      no scalar. */
  lemma ReportsElementsIff(valid: Validity, es: DElems, close: Bytes, lead: Bytes, trail: Bytes, deltas: seq<Bytes>)
    requires DElemsOk(es) && ScalarsValid(valid, es) && AllWs(close) && AllWs(lead) && AllWs(trail)
    requires deltas != [] && Flatten(deltas) == lead + Layout(DArr(es, close)) + trail
    ensures Streamed(valid, deltas) == Texts(es) <==> NoStrings(es) && !LastIsScalar(es)
  {
    StreamedElements(valid, es, close, lead, trail, deltas);
    ReportedAll(es);
  }

  lemma LoneElement(valid: Validity, w: Doc, d: Bytes)
    requires DocOk(w) && w.DAtom? && (IsScalar(w) ==> valid(Layout(w))) && d == [LBRACKET] + Layout(w) + [RBRACKET]
    ensures Streamed(valid, [d]) == []
  {
    hide Run, Stop, FeedDeltas, Streamed, Layout, DocOk;
    var es := DECons([], [], w, DENil);
    OneElement(w);
    FlattenSnoc([], d);
    assert [] + [d] == [d] && [] + d == d;
    assert [] + Layout(DArr(es, [])) + [] == d;
    StreamedElements(valid, es, [], [], [], [d]);
  }

  lemma OneElement(w: Doc)
    requires DocOk(w)
    ensures var es := DECons([], [], w, DENil);
      DElemsOk(es) && Layout(DArr(es, [])) == [LBRACKET] + Layout(w) + [RBRACKET]
  {
    hide DocOk;
    var es := DECons([], [], w, DENil);
    assert LayoutElems(es, true) == Layout(w);
  }

  /** `["a"]` is streamed without a report. */
  lemma StringNotReported(valid: Validity)
    ensures Streamed(valid, [[LBRACKET, QUOTE, 0x61, QUOTE, RBRACKET]]) == []
  {
    hide Streamed;
    var w := DAtom(Str([0x61]));
    assert Layout(w) == [QUOTE, 0x61, QUOTE];
    assert BodyOk([0x61][1..]) && BodyOk([0x61]);
    LoneElement(valid, w, [LBRACKET, QUOTE, 0x61, QUOTE, RBRACKET]);
  }

  /** `[1]` is streamed without a report. */
  lemma LastScalarNotReported(valid: Validity)
    requires valid([0x31])
    ensures Streamed(valid, [[LBRACKET, 0x31, RBRACKET]]) == []
  {
    hide Streamed;
    var w := DAtom(Num([0x31]));
    var s: Bytes := [0x31];
    assert s[..0] == [] && s[0..1] == s && s[1..1] == [] && s[1..] == [];
    assert NumberSplit(s, 0, 1, 1);
    LoneElement(valid, w, [LBRACKET, 0x31, RBRACKET]);
  }
}
