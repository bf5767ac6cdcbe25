/**
 Parsing undoes printing. A document laid out with any insignificant white space
 (section 2 of RFC 8259) parses to its tree, so PartialJSON answers with the
 compact print; its own answers are fixed points.
 */
module PartialJsonRoundTrip {
  import opened Octets
  import opened Json
  import opened PartialJson

  // ---------- Documents with their white space ----------

  /** A value tree together with the white space of one layout of it. */
  datatype Doc =
    | DAtom(atom: Json)
    | DArr(elems: DElems, close: Bytes)
    | DObj(members: DMembers, close: Bytes)

  /** `before` and `after` stand on the two sides of the separating comma. */
  datatype DElems =
    | DENil
    | DECons(before: Bytes, after: Bytes, head: Doc, tail: DElems)

  datatype DMembers =
    | DMNil
    | DMCons(before: Bytes, after: Bytes, key: Bytes, colonBefore: Bytes, colonAfter: Bytes, val: Doc, rest: DMembers)

  predicate AllWs(s: Bytes) {
    forall i :: 0 <= i < |s| ==> IsWs(s[i])
  }

  ghost predicate DocOk(w: Doc) {
    match w
    case DAtom(t) => !t.Arr? && !t.Obj? && WellFormed(t)
    case DArr(es, close) => AllWs(close) && DElemsOk(es)
    case DObj(ms, close) => AllWs(close) && DMembersOk(ms)
  }

  ghost predicate DElemsOk(es: DElems) {
    es.DECons? ==> AllWs(es.before) && AllWs(es.after) && DocOk(es.head) && DElemsOk(es.tail)
  }

  ghost predicate DMembersOk(ms: DMembers) {
    ms.DMCons? ==>
      && AllWs(ms.before) && AllWs(ms.after) && AllWs(ms.colonBefore) && AllWs(ms.colonAfter)
      && BodyOk(ms.key) && DocOk(ms.val) && DMembersOk(ms.rest)
  }

  function Erase(w: Doc): Json {
    match w
    case DAtom(t) => t
    case DArr(es, _) => Arr(EraseElems(es))
    case DObj(ms, _) => Obj(EraseMembers(ms))
  }

  function EraseElems(es: DElems): Elems {
    match es
    case DENil => ENil
    case DECons(_, _, head, tail) => ECons(Erase(head), EraseElems(tail))
  }

  function EraseMembers(ms: DMembers): Members {
    match ms
    case DMNil => MNil
    case DMCons(_, _, key, _, _, val, rest) => MCons(key, Erase(val), EraseMembers(rest))
  }

  function Layout(w: Doc): Bytes {
    match w
    case DAtom(t) => Print(t)
    case DArr(es, close) => [LBRACKET] + LayoutElems(es, true) + close + [RBRACKET]
    case DObj(ms, close) => [LBRACE] + LayoutMembers(ms, true) + close + [RBRACE]
  }

  /** The separator of an element or member with its white space. */
  function Lead(before: Bytes, first: bool, after: Bytes): Bytes {
    before + Separator(first) + after
  }

  /** A key and its colon. */
  function KeyText(key: Bytes, colonBefore: Bytes, colonAfter: Bytes): Bytes {
    Quoted(key) + colonBefore + [COLON] + colonAfter
  }

  /** All of a member before its value. */
  function Opening(m: DMembers, first: bool): Bytes
    requires m.DMCons?
  {
    Lead(m.before, first, m.after) + KeyText(m.key, m.colonBefore, m.colonAfter)
  }

  function LayoutElems(es: DElems, first: bool): Bytes {
    match es
    case DENil => []
    case DECons(before, after, head, tail) =>
      Lead(before, first, after) + Layout(head) + LayoutElems(tail, false)
  }

  function LayoutMembers(ms: DMembers, first: bool): Bytes {
    match ms
    case DMNil => []
    case DMCons(before, after, key, cb, ca, val, rest) =>
      Opening(ms, first) + Layout(val) + LayoutMembers(rest, false)
  }

  // ---------- Text found at a position ----------

  ghost predicate At(d: Bytes, p: nat, s: Bytes) {
    p + |s| <= |d| && forall i :: 0 <= i < |s| ==> s[i] == d[p + i]
  }

  lemma AtSplit(d: Bytes, p: nat, a: Bytes, b: Bytes)
    requires At(d, p, a + b)
    ensures At(d, p, a) && At(d, p + |a|, b)
  {
    assert forall i :: 0 <= i < |a| ==> a[i] == (a + b)[i];
    assert forall i :: 0 <= i < |b| ==> b[i] == (a + b)[|a| + i];
  }

  lemma AtByte(d: Bytes, p: nat, b: byte)
    requires At(d, p, [b])
    ensures p < |d| && d[p] == b
  {
    assert [b][0] == d[p];
  }

  lemma AtHead(d: Bytes, p: nat, s: Bytes)
    requires At(d, p, s) && |s| > 0
    ensures p < |d| && d[p] == s[0]
  {
  }

  lemma {:induction false} SkipWsOver(d: Bytes, p: nat, ws: Bytes)
    requires At(d, p, ws) && AllWs(ws)
    ensures SkipWs(d, p) == SkipWs(d, p + |ws|)
    decreases |ws|
  {
    if ws != [] {
      assert ws == ws[..1] + ws[1..];
      AtSplit(d, p, ws[..1], ws[1..]);
      AtByte(d, p, ws[0]);
      SkipWsOver(d, p + 1, ws[1..]);
    }
  }

  /** White space, then a byte that is not. */
  lemma SkipWsTo(d: Bytes, p: nat, ws: Bytes)
    requires At(d, p, ws) && AllWs(ws)
    requires p + |ws| < |d| && !IsWs(d[p + |ws|])
    ensures SkipWs(d, p) == p + |ws|
  {
    SkipWsOver(d, p, ws);
  }

  lemma {:induction false} ParseBodyAt(d: Bytes, p: nat, body: Bytes)
    requires BodyOk(body) && At(d, p, body + [QUOTE])
    ensures ParseBody(d, p) == PBody(body, p + |body| + 1)
    decreases |body|
  {
    if body == [] {
      assert body + [QUOTE] == [QUOTE];
      AtByte(d, p, QUOTE);
    } else {
      var k := if body[0] == BACKSLASH then 2 else 1;
      assert body + [QUOTE] == body[..k] + (body[k..] + [QUOTE]);
      AtSplit(d, p, body[..k], body[k..] + [QUOTE]);
      assert forall i :: 0 <= i < k ==> d[p + i] == body[..k][i] == body[i];
      ParseBodyAt(d, p + k, body[k..]);
      assert body == body[..k] + body[k..];
    }
  }

  lemma {:induction false} NumEndAt(d: Bytes, p: nat, e: nat)
    requires p <= e <= |d|
    requires forall k :: p <= k < e ==> IsNumChar(d[k])
    requires e < |d| ==> !IsNumChar(d[e])
    ensures NumEnd(d, p) == e
    decreases e - p
  {
    if p < e {
      NumEndAt(d, p + 1, e);
    }
  }

  /** What may stand right after a value: nothing, or a byte that cannot extend
      a number. */
  ghost predicate Ends(d: Bytes, p: nat) {
    p < |d| ==> !IsNumChar(d[p])
  }

  lemma LayoutStart(w: Doc)
    requires DocOk(w)
    ensures |Layout(w)| > 0 && !IsWs(Layout(w)[0])
    ensures Layout(w)[0] != RBRACKET && Layout(w)[0] != RBRACE && Layout(w)[0] != COMMA
  {
    if w.DAtom? && w.atom.Num? {
      NumberChars(w.atom.raw);
    }
  }

  lemma ParseLiteralAt(d: Bytes, p: nat, t: Json)
    requires t.Null? || t.True? || t.False?
    requires At(d, p, Print(t))
    ensures ParseValue(d, p) == Ok(t, p + |Print(t)|)
  {
    var s := Print(t);
    assert d[p..][..|s|] == s;
    assert d[p] == s[0] && SkipWs(d, p) == p;
    assert forall i :: 0 <= i < |s| ==> d[p..][i] == s[i];
  }

  lemma ParseNumberAt(d: Bytes, p: nat, s: Bytes)
    requires IsNumber(s) && At(d, p, s) && Ends(d, p + |s|)
    ensures ParseValue(d, p) == Ok(Num(s), p + |s|)
  {
    NumberChars(s);
    assert forall i :: p <= i < p + |s| ==> d[i] == s[i - p];
    assert d[p..p + |s|] == s;
    assert d[p] == s[0] && SkipWs(d, p) == p;
    NumEndAt(d, p, p + |s|);
  }

  lemma ParseStringAt(d: Bytes, p: nat, body: Bytes)
    requires BodyOk(body) && At(d, p, Quoted(body))
    ensures p < |d| && d[p] == QUOTE
    ensures ParseBody(d, p + 1) == PBody(body, p + |Quoted(body)|)
  {
    assert Quoted(body) == [QUOTE] + (body + [QUOTE]);
    AtSplit(d, p, [QUOTE], body + [QUOTE]);
    AtByte(d, p, QUOTE);
    ParseBodyAt(d, p + 1, body);
  }

  lemma ParseAtomAt(d: Bytes, p: nat, t: Json)
    requires !t.Arr? && !t.Obj? && WellFormed(t)
    requires At(d, p, Print(t)) && Ends(d, p + |Print(t)|)
    ensures ParseValue(d, p) == Ok(t, p + |Print(t)|)
  {
    if t.Num? {
      ParseNumberAt(d, p, t.raw);
    } else if t.Str? {
      ParseStringAt(d, p, t.body);
    } else {
      ParseLiteralAt(d, p, t);
    }
  }

  // ---------- Round trip ----------

  lemma {:induction false} ParseLayout(w: Doc, d: Bytes, p: nat)
    requires DocOk(w) && At(d, p, Layout(w)) && Ends(d, p + |Layout(w)|)
    ensures ParseValue(d, p) == Ok(Erase(w), p + |Layout(w)|)
    decreases w, 1
  {
    match w
    case DAtom(t) => ParseAtomAt(d, p, t);
    case DArr(es, close) => ParseLayoutArr(es, close, d, p);
    case DObj(ms, close) => ParseLayoutObj(ms, close, d, p);
  }

  lemma {:induction false} ParseLayoutArr(es: DElems, close: Bytes, d: Bytes, p: nat)
    requires DElemsOk(es) && AllWs(close) && At(d, p, Layout(DArr(es, close)))
    ensures ParseValue(d, p) == Ok(Arr(EraseElems(es)), p + |Layout(DArr(es, close))|)
    decreases es, 1
  {
    hide LayoutElems, At, ParseElems, DElemsOk;
    var inner := LayoutElems(es, true);
    AtSplit(d, p, [LBRACKET] + inner + close, [RBRACKET]);
    AtSplit(d, p, [LBRACKET] + inner, close);
    AtSplit(d, p, [LBRACKET], inner);
    AtByte(d, p, LBRACKET);
    AtByte(d, p + 1 + |inner| + |close|, RBRACKET);
    ParseLayoutElems(es, close, true, d, p + 1);
  }

  lemma {:induction false} ParseLayoutObj(ms: DMembers, close: Bytes, d: Bytes, p: nat)
    requires DMembersOk(ms) && AllWs(close) && At(d, p, Layout(DObj(ms, close)))
    ensures ParseValue(d, p) == Ok(Obj(EraseMembers(ms)), p + |Layout(DObj(ms, close))|)
    decreases ms, 1
  {
    hide LayoutMembers, At, ParseMembers, DMembersOk;
    var inner := LayoutMembers(ms, true);
    AtSplit(d, p, [LBRACE] + inner + close, [RBRACE]);
    AtSplit(d, p, [LBRACE] + inner, close);
    AtSplit(d, p, [LBRACE], inner);
    AtByte(d, p, LBRACE);
    AtByte(d, p + 1 + |inner| + |close|, RBRACE);
    ParseLayoutMembers(ms, close, true, d, p + 1);
  }

  ghost predicate TurnAt(d: Bytes, p: nat, first: bool, closing: byte, start: nat) {
    p <= |d| && var t := NextTurn(d, p, first, closing); t.Open? && t.start == start
  }

  lemma ParseSeparator(d: Bytes, p: nat, before: Bytes, first: bool, after: Bytes, closing: byte)
    requires AllWs(before) && AllWs(after) && (closing == RBRACKET || closing == RBRACE)
    requires At(d, p, Lead(before, first, after))
    requires var start := p + |Lead(before, first, after)|;
             start < |d| && !IsWs(d[start]) && d[start] != closing
    ensures TurnAt(d, p, first, closing, p + |Lead(before, first, after)|)
  {
    var sep := Separator(first);
    AtSplit(d, p, before + sep, after);
    AtSplit(d, p, before, sep);
    SkipWsTo(d, p + |before| + |sep|, after);
    SkipWsOver(d, p, before);
    if !first {
      AtByte(d, p + |before|, COMMA);
    }
  }

  /** A separator that is not the first cannot extend a number. */
  lemma LeadEnds(d: Bytes, p: nat, before: Bytes, after: Bytes)
    requires AllWs(before) && At(d, p, Lead(before, false, after))
    ensures Ends(d, p)
  {
    AtSplit(d, p, before + [COMMA], after);
    AtSplit(d, p, before, [COMMA]);
    WsEnds(d, p, before);
    AtByte(d, p + |before|, COMMA);
  }

  lemma WsEnds(d: Bytes, p: nat, ws: Bytes)
    requires At(d, p, ws) && AllWs(ws)
    ensures ws != [] ==> Ends(d, p)
  {
    if ws != [] {
      AtHead(d, p, ws);
    }
  }

  /** The closing white space and the closing byte after position p. */
  ghost predicate Closes(d: Bytes, p: nat, close: Bytes, closing: byte) {
    At(d, p, close) && p + |close| < |d| && d[p + |close|] == closing
  }

  lemma CloseTurn(d: Bytes, p: nat, first: bool, close: Bytes, closing: byte)
    requires AllWs(close) && !IsWs(closing) && Closes(d, p, close, closing)
    ensures NextTurn(d, p, first, closing) == Closed(p + |close| + 1)
  {
    SkipWsTo(d, p, close);
  }

  lemma ElemsEnd(es: DElems, close: Bytes, d: Bytes, p: nat)
    requires DElemsOk(es) && AllWs(close)
    requires At(d, p, LayoutElems(es, false)) && Closes(d, p + |LayoutElems(es, false)|, close, RBRACKET)
    ensures Ends(d, p)
  {
    match es
    case DENil => WsEnds(d, p, close);
    case DECons(b, a, h, t) =>
      AtSplit(d, p, Lead(b, false, a) + Layout(h), LayoutElems(t, false));
      AtSplit(d, p, Lead(b, false, a), Layout(h));
      LeadEnds(d, p, b, a);
  }

  lemma ElemsUnfold(es: DElems, first: bool)
    requires es.DECons? && DElemsOk(es)
    ensures DocOk(es.head) && DElemsOk(es.tail) && AllWs(es.before) && AllWs(es.after)
    ensures EraseElems(es) == ECons(Erase(es.head), EraseElems(es.tail))
    ensures LayoutElems(es, first)
         == Lead(es.before, first, es.after) + Layout(es.head) + LayoutElems(es.tail, false)
  {
  }

  lemma ElemsPieces(es: DElems, close: Bytes, first: bool, d: Bytes, p: nat)
    requires es.DECons? && DElemsOk(es) && AllWs(close) && At(d, p, LayoutElems(es, first))
    requires Closes(d, p + |LayoutElems(es, first)|, close, RBRACKET)
    ensures
      var start := p + |Lead(es.before, first, es.after)|;
      var n := start + |Layout(es.head)|;
      && At(d, start, Layout(es.head))
      && At(d, n, LayoutElems(es.tail, false))
      && n + |LayoutElems(es.tail, false)| == p + |LayoutElems(es, first)|
      && Ends(d, n)
      && TurnAt(d, p, first, RBRACKET, start) && start <= |d|
      && DocOk(es.head) && DElemsOk(es.tail)
      && EraseElems(es) == ECons(Erase(es.head), EraseElems(es.tail))
  {
    hide *;
    var lead, text := Lead(es.before, first, es.after), Layout(es.head);
    ElemsUnfold(es, first);
    AtSplit(d, p, lead + text, LayoutElems(es.tail, false));
    AtSplit(d, p, lead, text);
    LayoutStart(es.head);
    AtHead(d, p + |lead|, text);
    ParseSeparator(d, p, es.before, first, es.after, RBRACKET);
    ElemsEnd(es.tail, close, d, p + |lead| + |text|);
  }

  lemma ElemsClose(close: Bytes, first: bool, d: Bytes, p: nat)
    requires AllWs(close) && Closes(d, p + |LayoutElems(DENil, first)|, close, RBRACKET)
    ensures ParseElems(d, p, first)
         == PElems(EraseElems(DENil), p + |LayoutElems(DENil, first)| + |close| + 1)
  {
    CloseTurn(d, p, first, close, RBRACKET);
  }

  lemma ElemsStep(d: Bytes, p: nat, first: bool, start: nat, v: Json, n: nat, es: Elems, next: nat)
    requires TurnAt(d, p, first, RBRACKET, start) && start <= |d|
    requires ParseValue(d, start) == Ok(v, n)
    requires ParseElems(d, n, false) == PElems(es, next)
    ensures ParseElems(d, p, first) == PElems(ECons(v, es), next)
  {
  }

  lemma {:induction false} ParseLayoutElems(es: DElems, close: Bytes, first: bool, d: Bytes, p: nat)
    requires DElemsOk(es) && AllWs(close)
    requires At(d, p, LayoutElems(es, first)) && Closes(d, p + |LayoutElems(es, first)|, close, RBRACKET)
    ensures ParseElems(d, p, first)
         == PElems(EraseElems(es), p + |LayoutElems(es, first)| + |close| + 1)
    decreases es, 0
  {
    hide *;
    if es.DENil? {
      ElemsClose(close, first, d, p);
    } else {
      ElemsPieces(es, close, first, d, p);
      var start := p + |Lead(es.before, first, es.after)|;
      var n := start + |Layout(es.head)|;
      var next := p + |LayoutElems(es, first)| + |close| + 1;
      ParseLayout(es.head, d, start);
      ParseLayoutElems(es.tail, close, false, d, n);
      ElemsStep(d, p, first, start, Erase(es.head), n, EraseElems(es.tail), next);
    }
  }

  lemma MembersEnd(ms: DMembers, close: Bytes, d: Bytes, p: nat)
    requires DMembersOk(ms) && AllWs(close)
    requires At(d, p, LayoutMembers(ms, false)) && Closes(d, p + |LayoutMembers(ms, false)|, close, RBRACE)
    ensures Ends(d, p)
  {
    match ms
    case DMNil => WsEnds(d, p, close);
    case DMCons(b, a, key, cb, ca, val, rest) =>
      AtSplit(d, p, Opening(ms, false) + Layout(val), LayoutMembers(rest, false));
      AtSplit(d, p, Opening(ms, false), Layout(val));
      AtSplit(d, p, Lead(b, false, a), KeyText(key, cb, ca));
      LeadEnds(d, p, b, a);
  }

  /** A quoted key, a colon and the first byte of the value after it. */
  lemma ParseKeyAt(d: Bytes, start: nat, key: Bytes, cb: Bytes, ca: Bytes)
    requires BodyOk(key) && AllWs(cb) && AllWs(ca)
    requires At(d, start, KeyText(key, cb, ca))
    requires var at := start + |KeyText(key, cb, ca)|; at < |d| && !IsWs(d[at])
    ensures start < |d| && d[start] == QUOTE
    ensures ParseKey(d, start) == Key(key, start + |KeyText(key, cb, ca)|)
  {
    AtSplit(d, start, Quoted(key) + cb + [COLON], ca);
    AtSplit(d, start, Quoted(key) + cb, [COLON]);
    AtSplit(d, start, Quoted(key), cb);
    ParseStringAt(d, start, key);
    var colon := start + |Quoted(key)| + |cb|;
    AtByte(d, colon, COLON);
    SkipWsTo(d, start + |Quoted(key)|, cb);
    SkipWsTo(d, colon + 1, ca);
  }

  lemma ParseOpening(ms: DMembers, first: bool, d: Bytes, p: nat)
    requires ms.DMCons? && DMembersOk(ms) && At(d, p, Opening(ms, first))
    requires var at := p + |Opening(ms, first)|; at < |d| && !IsWs(d[at])
    ensures
      var start := p + |Lead(ms.before, first, ms.after)|;
      && TurnAt(d, p, first, RBRACE, start)
      && start < |d| && ParseKey(d, start) == Key(ms.key, p + |Opening(ms, first)|)
  {
    var lead := Lead(ms.before, first, ms.after);
    AtSplit(d, p, lead, KeyText(ms.key, ms.colonBefore, ms.colonAfter));
    ParseKeyAt(d, p + |lead|, ms.key, ms.colonBefore, ms.colonAfter);
    ParseSeparator(d, p, ms.before, first, ms.after, RBRACE);
  }

  lemma MembersUnfold(ms: DMembers, first: bool)
    requires ms.DMCons? && DMembersOk(ms)
    ensures DocOk(ms.val) && DMembersOk(ms.rest)
    ensures EraseMembers(ms) == MCons(ms.key, Erase(ms.val), EraseMembers(ms.rest))
    ensures LayoutMembers(ms, first)
         == Opening(ms, first) + Layout(ms.val) + LayoutMembers(ms.rest, false)
  {
  }

  lemma MembersPieces(ms: DMembers, close: Bytes, first: bool, d: Bytes, p: nat)
    requires ms.DMCons? && DMembersOk(ms) && AllWs(close) && At(d, p, LayoutMembers(ms, first))
    requires Closes(d, p + |LayoutMembers(ms, first)|, close, RBRACE)
    ensures
      var start := p + |Lead(ms.before, first, ms.after)|;
      var at := p + |Opening(ms, first)|;
      var n := at + |Layout(ms.val)|;
      && At(d, at, Layout(ms.val))
      && At(d, n, LayoutMembers(ms.rest, false))
      && n + |LayoutMembers(ms.rest, false)| == p + |LayoutMembers(ms, first)|
      && Ends(d, n)
      && DocOk(ms.val) && DMembersOk(ms.rest) && at <= |d|
      && EraseMembers(ms) == MCons(ms.key, Erase(ms.val), EraseMembers(ms.rest))
      && TurnAt(d, p, first, RBRACE, start)
      && start < |d| && ParseKey(d, start) == Key(ms.key, at)
  {
    hide *;
    var opening, text := Opening(ms, first), Layout(ms.val);
    MembersUnfold(ms, first);
    AtSplit(d, p, opening + text, LayoutMembers(ms.rest, false));
    AtSplit(d, p, opening, text);
    LayoutStart(ms.val);
    AtHead(d, p + |opening|, text);
    ParseOpening(ms, first, d, p);
    MembersEnd(ms.rest, close, d, p + |opening| + |text|);
  }

  lemma MembersClose(close: Bytes, first: bool, d: Bytes, p: nat)
    requires AllWs(close) && Closes(d, p + |LayoutMembers(DMNil, first)|, close, RBRACE)
    ensures ParseMembers(d, p, first)
         == PMembers(EraseMembers(DMNil), p + |LayoutMembers(DMNil, first)| + |close| + 1)
  {
    CloseTurn(d, p, first, close, RBRACE);
  }

  lemma MembersStep(d: Bytes, p: nat, first: bool, start: nat, key: Bytes, at: nat, v: Json, n: nat, ms: Members, next: nat)
    requires TurnAt(d, p, first, RBRACE, start) && start < |d| && at <= |d|
    requires ParseKey(d, start) == Key(key, at)
    requires ParseValue(d, at) == Ok(v, n)
    requires ParseMembers(d, n, false) == PMembers(ms, next)
    ensures ParseMembers(d, p, first) == PMembers(MCons(key, v, ms), next)
  {
  }

  lemma {:induction false} ParseLayoutMembers(ms: DMembers, close: Bytes, first: bool, d: Bytes, p: nat)
    requires DMembersOk(ms) && AllWs(close)
    requires At(d, p, LayoutMembers(ms, first)) && Closes(d, p + |LayoutMembers(ms, first)|, close, RBRACE)
    ensures ParseMembers(d, p, first)
         == PMembers(EraseMembers(ms), p + |LayoutMembers(ms, first)| + |close| + 1)
    decreases ms, 0
  {
    hide *;
    if ms.DMNil? {
      MembersClose(close, first, d, p);
    } else {
      MembersPieces(ms, close, first, d, p);
      var start := p + |Lead(ms.before, first, ms.after)|;
      var at := p + |Opening(ms, first)|;
      var n := at + |Layout(ms.val)|;
      var next := p + |LayoutMembers(ms, first)| + |close| + 1;
      ParseLayout(ms.val, d, at);
      ParseLayoutMembers(ms.rest, close, false, d, n);
      MembersStep(d, p, first, start, ms.key, at, Erase(ms.val), n, EraseMembers(ms.rest), next);
    }
  }

  /** Round trip: a complete document, with any insignificant white space inside,
      before and after it, snapshots to the compact print of its tree. */
  lemma SnapshotOfLayout(w: Doc, lead: Bytes, trail: Bytes)
    requires DocOk(w) && AllWs(lead) && AllWs(trail)
    ensures PartialJSON(lead + Layout(w) + trail) == Snapshot(Print(Erase(w)))
  {
    var d := lead + Layout(w) + trail;
    var p := |lead|;
    assert At(d, 0, lead) && At(d, p, Layout(w));
    LayoutStart(w);
    SkipWsTo(d, 0, lead);
    assert trail != [] ==> d[p + |Layout(w)|] == trail[0];
    ParseLayout(w, d, p);
    assert SkipWs(d, p) == p;
    assert ParseValue(d, 0) == ParseValue(d, p);
  }

  // ---------- Compact documents ----------

  function Compact(t: Json): Doc {
    match t
    case Arr(es) => DArr(CompactElems(es), [])
    case Obj(ms) => DObj(CompactMembers(ms), [])
    case _ => DAtom(t)
  }

  function CompactElems(es: Elems): DElems {
    match es
    case ENil => DENil
    case ECons(head, tail) => DECons([], [], Compact(head), CompactElems(tail))
  }

  function CompactMembers(ms: Members): DMembers {
    match ms
    case MNil => DMNil
    case MCons(key, val, rest) => DMCons([], [], key, [], [], Compact(val), CompactMembers(rest))
  }

  lemma {:induction false} CompactLayout(t: Json)
    ensures Erase(Compact(t)) == t && Layout(Compact(t)) == Print(t)
    ensures WellFormed(t) ==> DocOk(Compact(t))
    decreases t
  {
    match t
    case Arr(es) => CompactLayoutElems(es, true);
    case Obj(ms) => CompactLayoutMembers(ms, true);
    case _ =>
  }

  lemma {:induction false} CompactLayoutElems(es: Elems, first: bool)
    ensures EraseElems(CompactElems(es)) == es
    ensures LayoutElems(CompactElems(es), first) == PrintElems(es, first)
    ensures ElemsOk(es) ==> DElemsOk(CompactElems(es))
    decreases es
  {
    if es.ECons? {
      CompactLayout(es.head);
      CompactLayoutElems(es.tail, false);
      assert Lead([], first, []) == Separator(first);
    }
  }

  lemma {:induction false} CompactLayoutMembers(ms: Members, first: bool)
    ensures EraseMembers(CompactMembers(ms)) == ms
    ensures LayoutMembers(CompactMembers(ms), first) == PrintMembers(ms, first)
    ensures MembersOk(ms) ==> DMembersOk(CompactMembers(ms))
    decreases ms
  {
    if ms.MCons? {
      CompactLayout(ms.val);
      CompactLayoutMembers(ms.rest, false);
      assert Lead([], first, []) == Separator(first);
      assert KeyText(ms.key, [], []) == Quoted(ms.key) + [COLON];
      assert Opening(CompactMembers(ms), first) == Separator(first) + Quoted(ms.key) + [COLON];
    }
  }

  /** Printing then snapshotting is the identity on every well-formed tree. */
  lemma SnapshotOfPrint(t: Json)
    requires WellFormed(t)
    ensures PartialJSON(Print(t)) == Snapshot(Print(t))
  {
    hide Layout, Compact, Print, PartialJSON, DocOk, WellFormed;
    CompactLayout(t);
    SnapshotOfLayout(Compact(t), [], []);
    assert [] + Layout(Compact(t)) + [] == Print(t);
  }

  /** A snapshot of any input is complete JSON: snapshotting it again changes nothing. */
  lemma SnapshotIdempotent(d: Bytes)
    requires PartialJSON(d).Snapshot?
    ensures PartialJSON(PartialJSON(d).text) == PartialJSON(d)
  {
    ParseValueWellFormed(d, 0);
    SnapshotOfPrint(ParseValue(d, 0).value);
  }
}
