/**
 What PartialJSON is for: documents cut anywhere. For every document, every layout
 and every cut the snapshot is compared with the tree a reader of the cut would
 expect, and it is found out exactly when it is a truncation of the document.
 */
module PartialJsonCut {
  import opened Basics
  import opened Octets
  import opened Json
  import opened PartialJson
  import opened PartialJsonRoundTrip

  // ---------- Truncated trees ----------

  /** t is full, cut somewhere: numbers and strings are prefixes, literals and keys are
      whole, and a container is equal up to its last kept child. */
  ghost predicate Truncates(t: Json, full: Json) {
    match (t, full)
    case (Num(a), Num(b)) => a <= b
    case (Str(a), Str(b)) => a <= b
    case (Arr(es), Arr(fs)) => TruncatesElems(es, fs)
    case (Obj(ms), Obj(fs)) => TruncatesMembers(ms, fs)
    case _ => t == full
  }

  ghost predicate TruncatesElems(es: Elems, fs: Elems) {
    es.ECons? ==>
      && fs.ECons?
      && if es.tail.ENil? then Truncates(es.head, fs.head)
         else es.head == fs.head && TruncatesElems(es.tail, fs.tail)
  }

  ghost predicate TruncatesMembers(ms: Members, fs: Members) {
    ms.MCons? ==>
      && fs.MCons? && ms.key == fs.key
      && if ms.rest.MNil? then Truncates(ms.val, fs.val)
         else ms.val == fs.val && TruncatesMembers(ms.rest, fs.rest)
  }

  // ---------- What a cut leaves ----------

  /** The first k bytes of a string body without a half escape. */
  function CutBody(b: Bytes, k: nat): Bytes {
    if k == 0 || b == [] then []
    else if b[0] == BACKSLASH then
      if k < 2 || |b| < 2 then [] else b[..2] + CutBody(b[2..], k - 2)
    else [b[0]] + CutBody(b[1..], k - 1)
  }

  /** The tree that the first m bytes of a layout show: everything complete, and of
      the value that is cut as much as can be read. */
  ghost function Kept(w: Doc, m: nat): Option<Json> {
    if m >= |Layout(w)| then Some(Erase(w))
    else if m == 0 then None
    else match w
      case DAtom(t) => KeptAtom(t, m)
      case DArr(es, _) => Some(Arr(KeptElems(es, true, m - 1)))
      case DObj(ms, _) => Some(Obj(KeptMembers(ms, true, m - 1)))
  }

  ghost function KeptAtom(t: Json, m: nat): Option<Json>
    requires m > 0
  {
    match t
    case Str(body) => Some(Str(CutBody(body, m - 1)))
    case Num(raw) => if m <= |raw| && IsNumber(raw[..m]) then Some(Num(raw[..m])) else None
    case _ => None
  }

  ghost function KeptElems(es: DElems, first: bool, m: nat): Elems {
    match es
    case DENil => ENil
    case DECons(before, after, head, tail) =>
      var lead := |Lead(before, first, after)|;
      var end := lead + |Layout(head)|;
      if m <= lead then ENil
      else match Kept(head, m - lead)
        case None => ENil
        case Some(v) => ECons(v, if m >= end then KeptElems(tail, false, m - end) else ENil)
  }

  ghost function KeptMembers(ms: DMembers, first: bool, m: nat): Members {
    match ms
    case DMNil => MNil
    case DMCons(_, _, key, _, _, val, rest) =>
      var opening := |Opening(ms, first)|;
      var end := opening + |Layout(val)|;
      if m <= opening then MNil
      else match Kept(val, m - opening)
        case None => MNil
        case Some(v) => MCons(key, v, if m >= end then KeptMembers(rest, false, m - end) else MNil)
  }

  // ---------- The condition ----------

  /** After m bytes the innermost open container is an object whose last pair has
      begun, at least its opening quote, and shows no value yet: as much of its key as
      can be read. */
  ghost function PendingKey(w: Doc, m: nat): Option<Bytes> {
    if m == 0 || m >= |Layout(w)| then None
    else match w
      case DAtom(_) => None
      case DArr(es, _) => PendingKeyElems(es, true, m - 1)
      case DObj(ms, _) => PendingKeyMembers(ms, true, m - 1)
  }

  ghost function PendingKeyElems(es: DElems, first: bool, m: nat): Option<Bytes> {
    match es
    case DENil => None
    case DECons(before, after, head, tail) =>
      var lead := |Lead(before, first, after)|;
      var end := lead + |Layout(head)|;
      if m <= lead then None
      else if m < end then PendingKey(head, m - lead)
      else PendingKeyElems(tail, false, m - end)
  }

  ghost function PendingKeyMembers(ms: DMembers, first: bool, m: nat): Option<Bytes> {
    match ms
    case DMNil => None
    case DMCons(before, after, key, _, _, val, rest) =>
      var lead, opening := |Lead(before, first, after)|, |Opening(ms, first)|;
      var end := opening + |Layout(val)|;
      if m <= lead then None
      else if m <= opening then Some(CutBody(key, m - lead - 1))
      else if m < end then
        if val.DAtom? && KeptAtom(val.atom, m - opening).None? then Some(key) else PendingKey(val, m - opening)
      else PendingKeyMembers(rest, false, m - end)
  }

  ghost predicate Pending(w: Doc, m: nat) {
    PendingKey(w, m).Some?
  }

  /** After m bytes some array is open. */
  ghost predicate ArrayOpen(w: Doc, m: nat) {
    0 < m < |Layout(w)| &&
    match w
    case DAtom(_) => false
    case DArr(_, _) => true
    case DObj(ms, _) => ArrayOpenMembers(ms, true, m - 1)
  }

  ghost predicate ArrayOpenMembers(ms: DMembers, first: bool, m: nat) {
    match ms
    case DMNil => false
    case DMCons(_, _, _, _, _, val, rest) =>
      var opening := |Opening(ms, first)|;
      var end := opening + |Layout(val)|;
      if m <= opening then false
      else if m < end then ArrayOpen(val, m - opening)
      else ArrayOpenMembers(rest, false, m - end)
  }

  // ---------- What the parser makes of it ----------

  /** The snapshot of the first m bytes: everything that can be read, and a pending key
      once more, as the last element of the innermost open array. */
  ghost function Shown(w: Doc, m: nat): Option<Json> {
    if m >= |Layout(w)| then Some(Erase(w))
    else if m == 0 then None
    else match w
      case DAtom(t) => KeptAtom(t, m)
      case DArr(es, _) => Some(Arr(ShownElems(es, true, m - 1)))
      case DObj(ms, _) => Some(Obj(ShownMembers(ms, true, m - 1)))
  }

  ghost function ShownElems(es: DElems, first: bool, m: nat): Elems {
    match es
    case DENil => ENil
    case DECons(before, after, head, tail) =>
      var lead := |Lead(before, first, after)|;
      var end := lead + |Layout(head)|;
      if m <= lead then ENil
      else match Shown(head, m - lead)
        case None => ENil
        case Some(v) => ECons(v, if m >= end then ShownElems(tail, false, m - end) else Stray(head, m - lead))
  }

  /** The element an array adds behind the cut element w: the key pending in it, if no
      array inside has taken that. */
  ghost function Stray(w: Doc, m: nat): Elems {
    if Pending(w, m) && !ArrayOpen(w, m) then ECons(Str(PendingKey(w, m).value), ENil) else ENil
  }

  ghost function ShownMembers(ms: DMembers, first: bool, m: nat): Members {
    match ms
    case DMNil => MNil
    case DMCons(_, _, key, _, _, val, rest) =>
      var opening := |Opening(ms, first)|;
      var end := opening + |Layout(val)|;
      if m <= opening then MNil
      else match Shown(val, m - opening)
        case None => MNil
        case Some(v) => MCons(key, v, if m >= end then ShownMembers(rest, false, m - end) else MNil)
  }

  // ---------- Cut text ----------

  /** From p on, d is the beginning of s. */
  ghost predicate CutAt(d: Bytes, p: nat, s: Bytes) {
    p <= |d| <= p + |s| && forall i :: p <= i < |d| ==> d[i] == s[i - p]
  }

  lemma CutSplit(d: Bytes, p: nat, a: Bytes, b: Bytes)
    requires CutAt(d, p, a + b)
    ensures if p + |a| <= |d| then At(d, p, a) && CutAt(d, p + |a|, b) else CutAt(d, p, a)
  {
    if p + |a| <= |d| {
      forall i | 0 <= i < |a| ensures a[i] == d[p + i] {
        assert d[p + i] == (a + b)[i];
      }
    }
  }

  lemma {:induction false} WsToEnd(d: Bytes, p: nat)
    requires p <= |d| && forall i :: p <= i < |d| ==> IsWs(d[i])
    ensures SkipWs(d, p) == |d|
    decreases |d| - p
  {
    if p < |d| {
      WsToEnd(d, p + 1);
    }
  }

  lemma CutWs(d: Bytes, p: nat, ws: Bytes)
    requires AllWs(ws) && CutAt(d, p, ws)
    ensures SkipWs(d, p) == |d|
  {
    WsToEnd(d, p);
  }

  lemma {:induction false} CutBodyPrefix(b: Bytes, k: nat)
    ensures CutBody(b, k) <= b
    decreases |b|
  {
    if k > 0 && b != [] {
      if b[0] == BACKSLASH {
        if k >= 2 && |b| >= 2 {
          CutBodyPrefix(b[2..], k - 2);
          assert b == b[..2] + b[2..];
        }
      } else {
        CutBodyPrefix(b[1..], k - 1);
        assert b == [b[0]] + b[1..];
      }
    }
  }

  lemma {:induction false} CutBodyAll(b: Bytes, k: nat)
    requires BodyOk(b) && k >= |b|
    ensures CutBody(b, k) == b
    decreases |b|
  {
    if b != [] {
      if b[0] == BACKSLASH {
        CutBodyAll(b[2..], k - 2);
        assert b[..2] + b[2..] == b;
      } else {
        CutBodyAll(b[1..], k - 1);
      }
    }
  }

  /** A position after a cut string: the end, or a lone backslash before it. */
  ghost predicate StringEnd(d: Bytes, n: nat) {
    n == |d| || (n + 1 == |d| && d[n] == BACKSLASH)
  }

  lemma CutTail(d: Bytes, p: nat, s: Bytes, k: nat)
    requires CutAt(d, p, s) && k <= |s| && p + k <= |d|
    ensures CutAt(d, p + k, s[k..])
  {}

  lemma {:induction false} ParseBodyCut(d: Bytes, p: nat, body: Bytes)
    requires BodyOk(body) && CutAt(d, p, body)
    ensures var r := ParseBody(d, p); r.body == CutBody(body, |d| - p) && StringEnd(d, r.next)
    decreases |body|
  {
    var m := |d| - p;
    assert m <= |body|;
    assert m > 0 ==> d[p] == body[0];
    assert m > 1 ==> d[p + 1] == body[1];
    hide CutAt;
    if p < |d| {
      if body[0] == BACKSLASH {
        if p + 1 < |d| {
          CutTail(d, p, body, 2);
          ParseBodyCut(d, p + 2, body[2..]);
        }
      } else {
        CutTail(d, p, body, 1);
        ParseBodyCut(d, p + 1, body[1..]);
      }
    }
  }

  /** A quoted string without its closing quote. */
  lemma QuotedCut(d: Bytes, p: nat, body: Bytes)
    requires BodyOk(body) && CutAt(d, p, Quoted(body)) && p < |d| < p + |Quoted(body)|
    ensures d[p] == QUOTE
    ensures var r := ParseBody(d, p + 1); r.body == CutBody(body, |d| - p - 1) && StringEnd(d, r.next)
  {
    hide BodyOk, ParseBody, CutBody, StringEnd;
    QuotedBytes(body);
    ParseBodyCut(d, p + 1, body);
  }

  lemma QuotedBytes(body: Bytes)
    ensures Quoted(body)[0] == QUOTE && |Quoted(body)| == |body| + 2
    ensures forall i :: 0 <= i < |body| ==> Quoted(body)[i + 1] == body[i]
  {}

  lemma ParseAtomCut(d: Bytes, p: nat, t: Json)
    requires !t.Arr? && !t.Obj? && WellFormed(t)
    requires CutAt(d, p, Print(t)) && p < |d| < p + |Print(t)|
    ensures match KeptAtom(t, |d| - p)
            case None => ParseValue(d, p).Fail?
            case Some(v) => ParseValue(d, p).Ok? && ParseValue(d, p).value == v && StringEnd(d, ParseValue(d, p).next)
  {
    if t.Num? {
      NumberCut(d, p, t.raw);
    } else if t.Str? {
      QuotedCut(d, p, t.body);
    } else {
      assert d[p] == Print(t)[0];
    }
  }

  lemma NumberCut(d: Bytes, p: nat, s: Bytes)
    requires IsNumber(s) && CutAt(d, p, s) && p < |d|
    ensures ParseValue(d, p) == if IsNumber(s[..|d| - p]) then Ok(Num(s[..|d| - p]), |d|) else Fail
  {
    hide IsNumber;
    NumberChars(s);
    assert d[p..|d|] == s[..|d| - p];
    assert d[p] == s[0] && SkipWs(d, p) == p;
    NumEndAt(d, p, |d|);
  }

  // ---------- Positions the parser comes back to ----------

  /** Where a container that goes on reading at x looks for its next child. */
  function Resume(d: Bytes, x: nat): (s: nat)
    requires x <= |d|
    ensures x <= s <= |d|
  {
    var q := SkipWs(d, x);
    if q < |d| && d[q] == COMMA then SkipWs(d, q + 1) else q
  }

  predicate NotClosing(b: byte) {
    b != RBRACKET && b != RBRACE
  }

  /** No container finds another child at x. */
  ghost predicate Dead(d: Bytes, x: nat) {
    x <= |d| &&
    var s := Resume(d, x);
    s == |d| || (NotClosing(d[SkipWs(d, x)]) && d[s] != QUOTE && ParseValue(d, s).Fail?)
  }

  /** A key without a readable value. */
  ghost predicate Unpaired(d: Bytes, s: nat)
    requires s < |d|
  {
    var k := ParseKey(d, s);
    k.NoKey? || ParseValue(d, k.at).Fail?
  }

  /** The string at s is this one, and behind it no container finds a child. */
  ghost predicate LastString(d: Bytes, s: nat, body: Bytes) {
    s < |d| && d[s] == QUOTE && ParseBody(d, s + 1).body == body && Dead(d, ParseBody(d, s + 1).next)
  }

  /** At x stands the key of a dropped pair, perhaps behind a comma. */
  ghost predicate KeyTurn(d: Bytes, x: nat, key: Bytes) {
    x <= |d| &&
    var s := Resume(d, x);
    LastString(d, s, key) && NotClosing(d[SkipWs(d, x)]) && Unpaired(d, s)
  }

  lemma SkipWsStays(d: Bytes, p: nat)
    requires p <= |d|
    ensures SkipWs(d, SkipWs(d, p)) == SkipWs(d, p)
  {}

  lemma DeadEnd(d: Bytes, n: nat)
    requires StringEnd(d, n)
    ensures Dead(d, n)
  {}

  lemma DeadElems(d: Bytes, x: nat)
    requires Dead(d, x)
    ensures var r := ParseElems(d, x, false); r.elems == ENil && Dead(d, r.next)
  {
    hide ParseValue;
    SkipWsStays(d, x);
  }

  lemma DeadMembers(d: Bytes, x: nat)
    requires Dead(d, x)
    ensures var r := ParseMembers(d, x, false); r.members == MNil && Dead(d, r.next)
  {
    hide ParseValue;
    SkipWsStays(d, x);
  }

  /** An object drops the pair again. */
  lemma KeyTurnMembers(d: Bytes, x: nat, key: Bytes)
    requires KeyTurn(d, x, key)
    ensures var r := ParseMembers(d, x, false); r.members == MNil && KeyTurn(d, r.next, key)
  {
    hide ParseValue, Dead;
    SkipWsStays(d, x);
  }

  /** An array takes the key for an element. */
  lemma KeyTurnElems(d: Bytes, x: nat, key: Bytes)
    requires KeyTurn(d, x, key)
    ensures var r := ParseElems(d, x, false); r.elems == ECons(Str(key), ENil) && Dead(d, r.next)
  {
    var s := Resume(d, x);
    var b := ParseBody(d, s + 1);
    ParseQuote(d, s);
    hide ParseValue, Dead;
    DeadElems(d, b.next);
  }

  lemma ParseQuote(d: Bytes, s: nat)
    requires s < |d| && d[s] == QUOTE
    ensures var b := ParseBody(d, s + 1); ParseValue(d, s) == Ok(Str(b.body), b.next)
  {}

  /** A turn read again by a container that is not at its first child. */
  lemma TurnAgain(d: Bytes, p: nat, first: bool, closing: byte)
    requires p <= |d| && NextTurn(d, p, first, closing).Open?
    requires var s := NextTurn(d, p, first, closing).start; d[s] != COMMA && NotClosing(d[s])
    ensures var t := NextTurn(d, p, first, closing);
      Resume(d, t.turn) == t.start && SkipWs(d, t.turn) == t.turn && NotClosing(d[t.turn])
  {}

  /** Only separators are left. */
  lemma LeadCut(d: Bytes, p: nat, before: Bytes, first: bool, after: Bytes, closing: byte)
    requires AllWs(before) && AllWs(after) && CutAt(d, p, Lead(before, first, after)) && closing != COMMA
    ensures NextTurn(d, p, first, closing) == Closed(|d|)
  {
    var sep := Separator(first);
    CutSplit(d, p, before + sep, after);
    if p + |before + sep| <= |d| {
      AtSplit(d, p, before, sep);
      CutWs(d, p + |before + sep|, after);
      SkipWsOver(d, p, before);
      if !first {
        AtByte(d, p + |before|, COMMA);
      }
    } else {
      CutSplit(d, p, before, sep);
      CutWs(d, p, before);
    }
  }

  /** A pair cut before the first byte of its value. */
  lemma KeyCut(d: Bytes, s: nat, key: Bytes, cb: Bytes, ca: Bytes)
    requires BodyOk(key) && AllWs(cb) && AllWs(ca)
    requires s < |d| && CutAt(d, s, KeyText(key, cb, ca))
    ensures ParseKey(d, s).NoKey? && LastString(d, s, CutBody(key, |d| - s - 1))
  {
    hide BodyOk, ParseBody, ParseValue, CutAt, At, CutBody;
    assert KeyText(key, cb, ca) == Quoted(key) + (cb + [COLON] + ca);
    CutSplit(d, s, Quoted(key), cb + [COLON] + ca);
    if s + |Quoted(key)| <= |d| {
      ParseStringAt(d, s, key);
      CutBodyAll(key, |d| - s - 1);
      ColonCut(d, s + |Quoted(key)|, cb, ca);
    } else {
      CutLess(d, s, Quoted(key));
      QuotedCut(d, s, key);
      DeadEnd(d, ParseBody(d, s + 1).next);
    }
  }

  lemma CutLess(d: Bytes, p: nat, s: Bytes)
    requires CutAt(d, p, s)
    ensures p <= |d| <= p + |s|
  {}

  lemma ColonCut(d: Bytes, n: nat, cb: Bytes, ca: Bytes)
    requires AllWs(cb) && AllWs(ca) && CutAt(d, n, cb + [COLON] + ca)
    ensures n <= |d| && Dead(d, n)
    ensures var colon := SkipWs(d, n); colon < |d| ==> d[colon] == COLON && SkipWs(d, colon + 1) == |d|
  {
    hide ParseValue;
    CutSplit(d, n, cb + [COLON], ca);
    if n + |cb| + 1 <= |d| {
      AtSplit(d, n, cb, [COLON]);
      AtByte(d, n + |cb|, COLON);
      SkipWsTo(d, n, cb);
      CutWs(d, n + |cb| + 1, ca);
      NoValueAtColon(d, n + |cb|);
    } else {
      CutSplit(d, n, cb, [COLON]);
      CutWs(d, n, cb);
    }
  }

  lemma NoValueAtColon(d: Bytes, p: nat)
    requires p < |d| && d[p] == COLON
    ensures ParseValue(d, p).Fail?
  {}

  // ---------- Values cut in two ----------

  /** What parsing the first m bytes of w gives: the expected tree and a position where
      containers either find nothing more or find the key of a dropped pair. */
  ghost predicate ValueCut(w: Doc, m: nat, d: Bytes, r: Parsed) {
    match r
    case Fail => Shown(w, m).None?
    case Ok(v, n) => Shown(w, m) == Some(v) && Leaves(d, n, PendingKey(w, m), ArrayOpen(w, m))
  }

  /** At n, behind what was read, containers find the pending key that no array has
      taken yet, or nothing more. */
  ghost predicate Leaves(d: Bytes, n: nat, pending: Option<Bytes>, taken: bool) {
    if pending.Some? && !taken then KeyTurn(d, n, pending.value) else Dead(d, n)
  }

  ghost predicate ElemsCut(es: DElems, first: bool, m: nat, d: Bytes, r: ParsedElems) {
    r.elems == ShownElems(es, first, m) && Dead(d, r.next)
  }

  ghost predicate MembersCut(ms: DMembers, first: bool, m: nat, d: Bytes, r: ParsedMembers) {
    && r.members == ShownMembers(ms, first, m)
    && Leaves(d, r.next, PendingKeyMembers(ms, first, m), ArrayOpenMembers(ms, first, m))
  }

  lemma {:induction false} ParseCut(w: Doc, d: Bytes, p: nat)
    requires DocOk(w) && CutAt(d, p, Layout(w)) && p < |d| < p + |Layout(w)|
    ensures ValueCut(w, |d| - p, d, ParseValue(d, p))
    decreases w, 1
  {
    hide *;
    match w
    case DAtom(t) => AtomCut(t, d, p);
    case DArr(es, close) =>
      ArrayText(es, close, d, p);
      ParseElemsCut(es, close, true, d, p + 1);
      ArrayCut(es, close, d, p);
    case DObj(ms, close) =>
      ObjectText(ms, close, d, p);
      ParseMembersCut(ms, close, true, d, p + 1);
      ObjectCut(ms, close, d, p);
  }

  lemma AtomCut(t: Json, d: Bytes, p: nat)
    requires DocOk(DAtom(t)) && CutAt(d, p, Layout(DAtom(t))) && p < |d| < p + |Layout(DAtom(t))|
    ensures ValueCut(DAtom(t), |d| - p, d, ParseValue(d, p))
  {
    hide ParseValue, Dead, StringEnd, WellFormed;
    WellFormedAtom(t);
    ParseAtomCut(d, p, t);
    var r := ParseValue(d, p);
    if r.Ok? {
      DeadEnd(d, r.next);
    }
  }

  lemma WellFormedAtom(t: Json)
    requires DocOk(DAtom(t))
    ensures !t.Arr? && !t.Obj? && WellFormed(t) && Layout(DAtom(t)) == Print(t)
  {}

  lemma ArrayText(es: DElems, close: Bytes, d: Bytes, p: nat)
    requires DocOk(DArr(es, close)) && CutAt(d, p, Layout(DArr(es, close))) && p < |d| < p + |Layout(DArr(es, close))|
    ensures DElemsOk(es) && AllWs(close) && d[p] == LBRACKET && CutAt(d, p + 1, LayoutElems(es, true) + close)
  {
    hide LayoutElems;
    InnerText(d, p, LBRACKET, LayoutElems(es, true), close, RBRACKET);
  }

  lemma ObjectText(ms: DMembers, close: Bytes, d: Bytes, p: nat)
    requires DocOk(DObj(ms, close)) && CutAt(d, p, Layout(DObj(ms, close))) && p < |d| < p + |Layout(DObj(ms, close))|
    ensures DMembersOk(ms) && AllWs(close) && d[p] == LBRACE && CutAt(d, p + 1, LayoutMembers(ms, true) + close)
  {
    hide LayoutMembers;
    InnerText(d, p, LBRACE, LayoutMembers(ms, true), close, RBRACE);
  }

  lemma InnerText(d: Bytes, p: nat, open: byte, inner: Bytes, close: Bytes, closing: byte)
    requires var s := [open] + inner + close + [closing]; CutAt(d, p, s) && p < |d| < p + |s|
    ensures d[p] == open && CutAt(d, p + 1, inner + close)
  {
    var s, t := [open] + inner + close + [closing], inner + close;
    assert s[0] == open && forall i :: 0 <= i < |t| ==> s[i + 1] == t[i];
  }

  lemma ArrayCut(es: DElems, close: Bytes, d: Bytes, p: nat)
    requires p < |d| < p + |Layout(DArr(es, close))| && d[p] == LBRACKET
    requires ElemsCut(es, true, |d| - p - 1, d, ParseElems(d, p + 1, true))
    ensures ValueCut(DArr(es, close), |d| - p, d, ParseValue(d, p))
  {
    hide ParseElems, Dead, Layout, PendingKeyElems, ShownElems;
  }

  lemma ObjectCut(ms: DMembers, close: Bytes, d: Bytes, p: nat)
    requires p < |d| < p + |Layout(DObj(ms, close))| && d[p] == LBRACE
    requires MembersCut(ms, true, |d| - p - 1, d, ParseMembers(d, p + 1, true))
    ensures ValueCut(DObj(ms, close), |d| - p, d, ParseValue(d, p))
  {
    hide ParseMembers, Leaves, Layout, PendingKeyMembers, ArrayOpenMembers, ShownMembers;
  }

  // ---------- Elements ----------

  /** The text of a list of elements after its first one, or its closing white space,
      cannot extend a number. */
  lemma ElemsCutEnds(es: DElems, close: Bytes, d: Bytes, p: nat)
    requires DElemsOk(es) && AllWs(close) && CutAt(d, p, LayoutElems(es, false) + close)
    ensures Ends(d, p)
  {
    if p < |d| {
      assert d[p] == (LayoutElems(es, false) + close)[0];
      if es.DECons? {
        LeadHead(es.before, es.after);
        assert LayoutElems(es, false)[0] == Lead(es.before, false, es.after)[0];
      }
    }
  }

  lemma LeadHead(before: Bytes, after: Bytes)
    requires AllWs(before)
    ensures |Lead(before, false, after)| > 0 && !IsNumChar(Lead(before, false, after)[0])
  {}

  lemma {:induction false} ParseElemsCut(es: DElems, close: Bytes, first: bool, d: Bytes, p: nat)
    requires DElemsOk(es) && AllWs(close) && CutAt(d, p, LayoutElems(es, first) + close)
    ensures ElemsCut(es, first, |d| - p, d, ParseElems(d, p, first))
    decreases es, 0
  {
    hide *;
    if es.DENil? {
      NoElems(close, first, d, p);
    } else {
      ElemsText(es, close, first, d, p);
      var lead, text := Lead(es.before, first, es.after), Layout(es.head);
      var start := p + |lead|;
      var n := start + |text|;
      ReachesParts(d, p, lead, text, LayoutElems(es.tail, false) + close);
      if |d| <= start {
        ElemAbsent(es, first, d, p);
      } else if |d| < n {
        ParseCut(es.head, d, start);
        ElemStarts(es, first, d, p);
        ElemCut(es, first, d, p);
      } else {
        ElemStarts(es, first, d, p);
        ElemsCutEnds(es.tail, close, d, n);
        ParseLayout(es.head, d, start);
        ParseElemsCut(es.tail, close, false, d, n);
        ElemWhole(es, first, d, p);
      }
    }
  }

  lemma ReachesParts(d: Bytes, p: nat, lead: Bytes, text: Bytes, rest: Bytes)
    requires Reaches(d, p, lead, text, rest)
    ensures var start := p + |lead|;
      && p <= |d|
      && (|d| <= start ==> CutAt(d, p, lead))
      && (|d| > start ==> At(d, p, lead) && (text != [] ==> d[start] == text[0]))
      && (start <= |d| < start + |text| ==> CutAt(d, start, text))
      && (|d| >= start + |text| ==> At(d, start, text) && CutAt(d, start + |text|, rest))
  {}

  lemma NoElems(close: Bytes, first: bool, d: Bytes, p: nat)
    requires AllWs(close) && CutAt(d, p, LayoutElems(DENil, first) + close)
    ensures ElemsCut(DENil, first, |d| - p, d, ParseElems(d, p, first))
  {
    assert LayoutElems(DENil, first) + close == close;
    CutWs(d, p, close);
  }

  /** How far the text d from p on gets into lead, then text, then rest. */
  ghost predicate Reaches(d: Bytes, p: nat, lead: Bytes, text: Bytes, rest: Bytes) {
    var start := p + |lead|;
    && p <= |d|
    && (|d| <= start ==> CutAt(d, p, lead))
    && (|d| > start ==> At(d, p, lead) && (text != [] ==> d[start] == text[0]))
    && (start <= |d| < start + |text| ==> CutAt(d, start, text))
    && (|d| >= start + |text| ==> At(d, start, text) && CutAt(d, start + |text|, rest))
  }

  lemma ThreePieces(d: Bytes, p: nat, lead: Bytes, text: Bytes, rest: Bytes)
    requires CutAt(d, p, lead + (text + rest))
    ensures Reaches(d, p, lead, text, rest)
  {
    CutSplit(d, p, lead, text + rest);
    if p + |lead| <= |d| {
      CutSplit(d, p + |lead|, text, rest);
    }
  }

  lemma ElemsText(es: DElems, close: Bytes, first: bool, d: Bytes, p: nat)
    requires es.DECons? && DElemsOk(es) && CutAt(d, p, LayoutElems(es, first) + close)
    ensures DocOk(es.head) && DElemsOk(es.tail) && AllWs(es.before) && AllWs(es.after) && |Layout(es.head)| > 0
    ensures Reaches(d, p, Lead(es.before, first, es.after), Layout(es.head), LayoutElems(es.tail, false) + close)
  {
    hide *;
    ElemsUnfold(es, first);
    LayoutStart(es.head);
    var lead, text, rest := Lead(es.before, first, es.after), Layout(es.head), LayoutElems(es.tail, false);
    assert lead + text + rest + close == lead + (text + (rest + close));
    ThreePieces(d, p, lead, text, rest + close);
  }

  lemma ElemAbsent(es: DElems, first: bool, d: Bytes, p: nat)
    requires es.DECons? && AllWs(es.before) && AllWs(es.after) && CutAt(d, p, Lead(es.before, first, es.after))
    ensures ElemsCut(es, first, |d| - p, d, ParseElems(d, p, first))
  {
    hide ParseValue;
    LeadCut(d, p, es.before, first, es.after, RBRACKET);
  }

  /** The element's first byte is there, and the parser starts reading it. */
  lemma ElemStarts(es: DElems, first: bool, d: Bytes, p: nat)
    requires es.DECons? && DocOk(es.head) && AllWs(es.before) && AllWs(es.after)
    requires At(d, p, Lead(es.before, first, es.after))
    requires var start := p + |Lead(es.before, first, es.after)|;
      start < |d| && d[start] == Layout(es.head)[0]
    ensures TurnBack(d, p, first, RBRACKET, p + |Lead(es.before, first, es.after)|)
  {
    hide DocOk, Layout, Lead;
    LayoutStart(es.head);
    ParseSeparator(d, p, es.before, first, es.after, RBRACKET);
    TurnAgain(d, p, first, RBRACKET);
  }

  /** The definitions where the first element is cut. */
  lemma ElemsSpecCut(es: DElems, first: bool, m: nat)
    requires es.DECons?
    requires var lead := |Lead(es.before, first, es.after)|; lead < m < lead + |Layout(es.head)|
    ensures var k := m - |Lead(es.before, first, es.after)|;
      ShownElems(es, first, m) == if Shown(es.head, k).Some? then ECons(Shown(es.head, k).value, Stray(es.head, k)) else ENil
  {
    hide Layout, Lead, Stray;
  }

  /** The definitions where the first element is whole. */
  lemma ElemsSpecWhole(es: DElems, first: bool, m: nat)
    requires es.DECons? && |Layout(es.head)| > 0
    requires m >= |Lead(es.before, first, es.after)| + |Layout(es.head)|
    ensures var k := m - |Lead(es.before, first, es.after)| - |Layout(es.head)|;
      ShownElems(es, first, m) == ECons(Erase(es.head), ShownElems(es.tail, false, k))
  {
    hide Layout, Lead, Stray;
  }

  lemma ElemDropped(d: Bytes, p: nat, first: bool, start: nat)
    requires TurnAt(d, p, first, RBRACKET, start) && start <= |d| && ParseValue(d, start).Fail?
    ensures ParseElems(d, p, first) == PElems(ENil, NextTurn(d, p, first, RBRACKET).turn)
  {
    hide ParseValue;
  }

  /** The turn that is read again from a dropped child. */
  ghost predicate TurnBack(d: Bytes, p: nat, first: bool, closing: byte, start: nat) {
    && TurnAt(d, p, first, closing, start) && start < |d|
    && var t := NextTurn(d, p, first, closing).turn;
    && Resume(d, t) == start && SkipWs(d, t) == t && NotClosing(d[t])
  }

  lemma BackDead(d: Bytes, p: nat, first: bool, closing: byte, start: nat)
    requires TurnBack(d, p, first, closing, start) && d[start] != QUOTE && ParseValue(d, start).Fail?
    ensures Dead(d, NextTurn(d, p, first, closing).turn)
  {
    hide ParseValue, SkipWs;
  }

  lemma NotQuote(d: Bytes, start: nat)
    requires start < |d| && ParseValue(d, start).Fail?
    ensures d[start] != QUOTE
  {}

  lemma ElemCut(es: DElems, first: bool, d: Bytes, p: nat)
    requires es.DECons? && p <= |d|
    requires var start := p + |Lead(es.before, first, es.after)|;
      && start < |d| < start + |Layout(es.head)|
      && TurnBack(d, p, first, RBRACKET, start)
      && ValueCut(es.head, |d| - start, d, ParseValue(d, start))
    ensures ElemsCut(es, first, |d| - p, d, ParseElems(d, p, first))
  {
    hide ParseValue, ParseElems, Layout, Lead, Dead, KeyTurn, Shown, ShownElems, PendingKey, ArrayOpen, NextTurn, Resume;
    var start := p + |Lead(es.before, first, es.after)|;
    var r := ParseValue(d, start);
    ElemsSpecCut(es, first, |d| - p);
    if r.Ok? {
      if Pending(es.head, |d| - start) && !ArrayOpen(es.head, |d| - start) {
        KeyTurnElems(d, r.next, PendingKey(es.head, |d| - start).value);
      } else {
        DeadElems(d, r.next);
      }
      var q := ParseElems(d, r.next, false);
      ElemsStep(d, p, first, start, r.value, r.next, q.elems, q.next);
    } else {
      NotQuote(d, start);
      BackDead(d, p, first, RBRACKET, start);
      ElemDropped(d, p, first, start);
    }
  }

  lemma ElemWhole(es: DElems, first: bool, d: Bytes, p: nat)
    requires es.DECons? && p <= |d| && |Layout(es.head)| > 0
    requires var start := p + |Lead(es.before, first, es.after)|;
      var n := start + |Layout(es.head)|;
      && n <= |d|
      && TurnBack(d, p, first, RBRACKET, start)
      && ParseValue(d, start) == Ok(Erase(es.head), n)
      && ElemsCut(es.tail, false, |d| - n, d, ParseElems(d, n, false))
    ensures ElemsCut(es, first, |d| - p, d, ParseElems(d, p, first))
  {
    hide ParseValue, ParseElems, Layout, Lead, Dead, Shown, ShownElems, NextTurn, Resume, Erase;
    var start := p + |Lead(es.before, first, es.after)|;
    var n := start + |Layout(es.head)|;
    ElemsSpecWhole(es, first, |d| - p);
    var q := ParseElems(d, n, false);
    ElemsStep(d, p, first, start, Erase(es.head), n, q.elems, q.next);
  }

  // ---------- Members ----------

  lemma {:induction false} ParseMembersCut(ms: DMembers, close: Bytes, first: bool, d: Bytes, p: nat)
    requires DMembersOk(ms) && AllWs(close) && CutAt(d, p, LayoutMembers(ms, first) + close)
    ensures MembersCut(ms, first, |d| - p, d, ParseMembers(d, p, first))
    decreases ms, 0
  {
    hide *;
    if ms.DMNil? {
      NoMembers(close, first, d, p);
    } else {
      MembersText(ms, close, first, d, p);
      var opening, text := Opening(ms, first), Layout(ms.val);
      var at := p + |opening|;
      var n := at + |text|;
      ReachesParts(d, p, opening, text, LayoutMembers(ms.rest, false) + close);
      if |d| <= at {
        OpeningCut(ms, first, d, p);
      } else {
        MemberStarts(ms, first, d, p);
        if |d| < n {
          ParseCut(ms.val, d, at);
          MemberCut(ms, first, d, p);
        } else {
          MembersCutEnds(ms.rest, close, d, n);
          ParseLayout(ms.val, d, at);
          ParseMembersCut(ms.rest, close, false, d, n);
          MemberWhole(ms, first, d, p);
        }
      }
    }
  }

  lemma NoMembers(close: Bytes, first: bool, d: Bytes, p: nat)
    requires AllWs(close) && CutAt(d, p, LayoutMembers(DMNil, first) + close)
    ensures MembersCut(DMNil, first, |d| - p, d, ParseMembers(d, p, first))
  {
    assert LayoutMembers(DMNil, first) + close == close;
    CutWs(d, p, close);
  }

  lemma MembersText(ms: DMembers, close: Bytes, first: bool, d: Bytes, p: nat)
    requires ms.DMCons? && DMembersOk(ms) && CutAt(d, p, LayoutMembers(ms, first) + close)
    ensures DocOk(ms.val) && DMembersOk(ms.rest) && |Layout(ms.val)| > 0 && !IsWs(Layout(ms.val)[0])
    ensures Reaches(d, p, Opening(ms, first), Layout(ms.val), LayoutMembers(ms.rest, false) + close)
  {
    hide *;
    MembersUnfold(ms, first);
    LayoutStart(ms.val);
    var opening, text, rest := Opening(ms, first), Layout(ms.val), LayoutMembers(ms.rest, false);
    assert opening + text + rest + close == opening + (text + (rest + close));
    ThreePieces(d, p, opening, text, rest + close);
  }

  lemma MembersCutEnds(ms: DMembers, close: Bytes, d: Bytes, p: nat)
    requires DMembersOk(ms) && AllWs(close) && CutAt(d, p, LayoutMembers(ms, false) + close)
    ensures Ends(d, p)
  {
    if p < |d| {
      assert d[p] == (LayoutMembers(ms, false) + close)[0];
      if ms.DMCons? {
        LeadHead(ms.before, ms.after);
        assert LayoutMembers(ms, false)[0] == Lead(ms.before, false, ms.after)[0];
      }
    }
  }

  /** The definitions where the first pair is cut before its value. */
  lemma MembersSpecOpening(ms: DMembers, first: bool, m: nat)
    requires ms.DMCons? && m <= |Opening(ms, first)|
    ensures var lead := |Lead(ms.before, first, ms.after)|;
      PendingKeyMembers(ms, first, m) == if m <= lead then None else Some(CutBody(ms.key, m - lead - 1))
    ensures ShownMembers(ms, first, m) == MNil && !ArrayOpenMembers(ms, first, m)
  {
    hide Layout, Lead, KeyText, CutBody;
  }

  /** The definitions where the value of the first pair is cut. */
  lemma MembersSpecCut(ms: DMembers, first: bool, m: nat)
    requires ms.DMCons?
    requires var opening := |Opening(ms, first)|;
      opening < m < opening + |Layout(ms.val)| && |Lead(ms.before, first, ms.after)| < opening
    ensures var k := m - |Opening(ms, first)|;
      && PendingKeyMembers(ms, first, m) == (if Shown(ms.val, k).None? then Some(ms.key) else PendingKey(ms.val, k))
      && ArrayOpenMembers(ms, first, m) == ArrayOpen(ms.val, k)
      && ShownMembers(ms, first, m) == (if Shown(ms.val, k).Some? then MCons(ms.key, Shown(ms.val, k).value, MNil) else MNil)
      && (Shown(ms.val, k).None? ==> !ArrayOpen(ms.val, k))
  {
    hide Layout, Lead, KeyText, KeptAtom;
  }

  /** The definitions where the first pair is whole. */
  lemma MembersSpecWhole(ms: DMembers, first: bool, m: nat)
    requires ms.DMCons? && |Layout(ms.val)| > 0 && |Lead(ms.before, first, ms.after)| < |Opening(ms, first)|
    requires m >= |Opening(ms, first)| + |Layout(ms.val)|
    ensures var k := m - |Opening(ms, first)| - |Layout(ms.val)|;
      && PendingKeyMembers(ms, first, m) == PendingKeyMembers(ms.rest, false, k)
      && ArrayOpenMembers(ms, first, m) == ArrayOpenMembers(ms.rest, false, k)
      && ShownMembers(ms, first, m) == MCons(ms.key, Erase(ms.val), ShownMembers(ms.rest, false, k))
  {
    hide Layout, Lead, KeyText, PendingKey, ArrayOpen;
  }

  lemma PairDropped(d: Bytes, p: nat, first: bool, start: nat)
    requires TurnAt(d, p, first, RBRACE, start) && start < |d| && Unpaired(d, start)
    ensures ParseMembers(d, p, first) == PMembers(MNil, NextTurn(d, p, first, RBRACE).turn)
  {
    hide ParseValue;
  }

  lemma BackKey(d: Bytes, p: nat, first: bool, start: nat, key: Bytes)
    requires TurnBack(d, p, first, RBRACE, start) && LastString(d, start, key) && Unpaired(d, start)
    ensures KeyTurn(d, NextTurn(d, p, first, RBRACE).turn, key)
  {
    hide ParseValue, SkipWs, LastString;
  }

  /** Cut before the value: nothing to see of the pair, or its key without a value. */
  lemma OpeningCut(ms: DMembers, first: bool, d: Bytes, p: nat)
    requires ms.DMCons? && DMembersOk(ms) && CutAt(d, p, Opening(ms, first))
    ensures MembersCut(ms, first, |d| - p, d, ParseMembers(d, p, first))
  {
    hide ParseValue, Dead, KeyTurn, DMembersOk, BodyOk, Layout, CutAt, At, NextTurn, Lead, KeyText,
      PendingKeyMembers, ArrayOpenMembers, ShownMembers, ParseMembers, TurnBack, ParseKey, CutBody, LastString;
    MemberParts(ms);
    var lead, key := Lead(ms.before, first, ms.after), KeyText(ms.key, ms.colonBefore, ms.colonAfter);
    CutLess(d, p, Opening(ms, first));
    MembersSpecOpening(ms, first, |d| - p);
    CutSplit(d, p, lead, key);
    var start := p + |lead|;
    if |d| <= start {
      CutShort(d, p, lead, key);
      LeadCut(d, p, ms.before, first, ms.after, RBRACE);
      MembersClosed(d, p, first);
      DeadEnd(d, |d|);
    } else {
      KeyCut(d, start, ms.key, ms.colonBefore, ms.colonAfter);
      QuoteThere(d, start, CutBody(ms.key, |d| - start - 1));
      PairTurn(ms, first, d, p);
      BackKey(d, p, first, start, CutBody(ms.key, |d| - start - 1));
      BackTurn(d, p, first, RBRACE, start);
      PairDropped(d, p, first, start);
    }
  }

  lemma QuoteThere(d: Bytes, s: nat, body: Bytes)
    requires LastString(d, s, body)
    ensures s < |d| && d[s] == QUOTE
  {}

  lemma BackTurn(d: Bytes, p: nat, first: bool, closing: byte, start: nat)
    requires TurnBack(d, p, first, closing, start)
    ensures TurnAt(d, p, first, closing, start) && start < |d|
  {}

  lemma MembersClosed(d: Bytes, p: nat, first: bool)
    requires p <= |d| && NextTurn(d, p, first, RBRACE) == Closed(|d|)
    ensures ParseMembers(d, p, first) == PMembers(MNil, |d|)
  {}

  lemma CutShort(d: Bytes, p: nat, a: Bytes, b: Bytes)
    requires CutAt(d, p, a + b) && |d| <= p + |a|
    ensures CutAt(d, p, a)
  {
    forall i | p <= i < |d| ensures d[i] == a[i - p] {
      assert (a + b)[i - p] == a[i - p];
    }
  }

  lemma MemberParts(ms: DMembers)
    requires ms.DMCons? && DMembersOk(ms)
    ensures AllWs(ms.before) && AllWs(ms.after) && AllWs(ms.colonBefore) && AllWs(ms.colonAfter) && BodyOk(ms.key)
  {}

  /** The key's opening quote is there, and the parser starts reading the pair. */
  lemma PairTurn(ms: DMembers, first: bool, d: Bytes, p: nat)
    requires ms.DMCons? && AllWs(ms.before) && AllWs(ms.after) && At(d, p, Lead(ms.before, first, ms.after))
    requires var start := p + |Lead(ms.before, first, ms.after)|; start < |d| && d[start] == QUOTE
    ensures TurnBack(d, p, first, RBRACE, p + |Lead(ms.before, first, ms.after)|)
  {
    hide Lead;
    ParseSeparator(d, p, ms.before, first, ms.after, RBRACE);
    TurnAgain(d, p, first, RBRACE);
  }

  /** The value's first byte is there: the key is read, and the value is next. */
  lemma MemberStarts(ms: DMembers, first: bool, d: Bytes, p: nat)
    requires ms.DMCons? && DMembersOk(ms) && At(d, p, Opening(ms, first))
    requires var at := p + |Opening(ms, first)|; at < |d| && !IsWs(d[at])
    ensures var start := p + |Lead(ms.before, first, ms.after)|;
      && start < p + |Opening(ms, first)|
      && TurnBack(d, p, first, RBRACE, start)
      && LastString(d, start, ms.key) && ParseKey(d, start) == Key(ms.key, p + |Opening(ms, first)|)
  {
    hide DMembersOk, BodyOk, ParseKey, ParseBody, LastString, TurnBack, Lead, KeyText;
    MemberParts(ms);
    var lead, cb, ca := Lead(ms.before, first, ms.after), ms.colonBefore, ms.colonAfter;
    var start := p + |lead|;
    AtSplit(d, p, lead, KeyText(ms.key, cb, ca));
    ParseKeyAt(d, start, ms.key, cb, ca);
    KeyThenColon(d, start);
    PairTurn(ms, first, d, p);
  }

  /** After a key that was read, whoever resumes finds a colon. */
  lemma KeyThenColon(d: Bytes, start: nat)
    requires start < |d| && ParseKey(d, start).Key?
    ensures d[start] == QUOTE && LastString(d, start, ParseKey(d, start).key)
  {
    hide ParseValue;
    var n := ParseBody(d, start + 1).next;
    NoValueAtColon(d, SkipWs(d, n));
  }

  lemma MemberCut(ms: DMembers, first: bool, d: Bytes, p: nat)
    requires ms.DMCons? && p <= |d|
    requires var start := p + |Lead(ms.before, first, ms.after)|;
      var at := p + |Opening(ms, first)|;
      && start < at < |d| < at + |Layout(ms.val)|
      && TurnBack(d, p, first, RBRACE, start)
      && LastString(d, start, ms.key) && ParseKey(d, start) == Key(ms.key, at)
      && ValueCut(ms.val, |d| - at, d, ParseValue(d, at))
    ensures MembersCut(ms, first, |d| - p, d, ParseMembers(d, p, first))
  {
    hide ParseValue, ParseMembers, Layout, Lead, KeyText, Dead, KeyTurn, Shown, ShownMembers, PendingKey, PendingKeyMembers,
      ArrayOpen, ArrayOpenMembers, NextTurn, Resume, ParseKey, Opening, TurnBack, LastString;
    var start := p + |Lead(ms.before, first, ms.after)|;
    var at := p + |Opening(ms, first)|;
    var r := ParseValue(d, at);
    BackTurn(d, p, first, RBRACE, start);
    MembersSpecCut(ms, first, |d| - p);
    if r.Ok? {
      if Pending(ms.val, |d| - at) && !ArrayOpen(ms.val, |d| - at) {
        KeyTurnMembers(d, r.next, PendingKey(ms.val, |d| - at).value);
      } else {
        DeadMembers(d, r.next);
      }
      var q := ParseMembers(d, r.next, false);
      MembersStep(d, p, first, start, ms.key, at, r.value, r.next, q.members, q.next);
    } else {
      BackKey(d, p, first, start, ms.key);
      PairDropped(d, p, first, start);
    }
  }

  lemma MemberWhole(ms: DMembers, first: bool, d: Bytes, p: nat)
    requires ms.DMCons? && p <= |d| && |Layout(ms.val)| > 0
    requires var start := p + |Lead(ms.before, first, ms.after)|;
      var at := p + |Opening(ms, first)|;
      var n := at + |Layout(ms.val)|;
      && start < at < n <= |d|
      && TurnBack(d, p, first, RBRACE, start)
      && ParseKey(d, start) == Key(ms.key, at)
      && ParseValue(d, at) == Ok(Erase(ms.val), n)
      && MembersCut(ms.rest, false, |d| - n, d, ParseMembers(d, n, false))
    ensures MembersCut(ms, first, |d| - p, d, ParseMembers(d, p, first))
  {
    hide ParseValue, ParseMembers, Layout, Lead, KeyText, Leaves, ShownMembers, PendingKeyMembers,
      ArrayOpenMembers, NextTurn, ParseKey, Opening, Erase;
    var start := p + |Lead(ms.before, first, ms.after)|;
    var at := p + |Opening(ms, first)|;
    var n := at + |Layout(ms.val)|;
    BackTurn(d, p, first, RBRACE, start);
    MembersSpecWhole(ms, first, |d| - p);
    var q := ParseMembers(d, n, false);
    MembersStep(d, p, first, start, ms.key, at, Erase(ms.val), n, q.members, q.next);
  }

  // ---------- Truncation ----------

  lemma {:induction false} TruncatesSelf(t: Json)
    ensures Truncates(t, t)
    decreases t
  {
    match t
    case Arr(es) => TruncatesSelfElems(es);
    case Obj(ms) => TruncatesSelfMembers(ms);
    case _ =>
  }

  lemma {:induction false} TruncatesSelfElems(es: Elems)
    ensures TruncatesElems(es, es)
    decreases es
  {
    if es.ECons? {
      TruncatesSelf(es.head);
      TruncatesSelfElems(es.tail);
    }
  }

  lemma {:induction false} TruncatesSelfMembers(ms: Members)
    ensures TruncatesMembers(ms, ms)
    decreases ms
  {
    if ms.MCons? {
      TruncatesSelf(ms.val);
      TruncatesSelfMembers(ms.rest);
    }
  }

  /** What a cut shows truncates the document. */
  lemma {:induction false} KeptTruncates(w: Doc, m: nat)
    ensures Kept(w, m).Some? ==> Truncates(Kept(w, m).value, Erase(w))
    decreases w, 1
  {
    TruncatesSelf(Erase(w));
    if 0 < m < |Layout(w)| {
      match w
      case DAtom(t) =>
        if t.Str? {
          CutBodyPrefix(t.body, m - 1);
        }
      case DArr(es, _) => KeptTruncatesElems(es, true, m - 1);
      case DObj(ms, _) => KeptTruncatesMembers(ms, true, m - 1);
    }
  }

  lemma {:induction false} KeptTruncatesElems(es: DElems, first: bool, m: nat)
    ensures TruncatesElems(KeptElems(es, first, m), EraseElems(es))
    decreases es, 0
  {
    hide Layout, Lead;
    if es.DECons? {
      var lead := |Lead(es.before, first, es.after)|;
      var end := lead + |Layout(es.head)|;
      if m > lead {
        KeptTruncates(es.head, m - lead);
        if m >= end {
          KeptTruncatesElems(es.tail, false, m - end);
        }
      }
    }
  }

  lemma {:induction false} KeptTruncatesMembers(ms: DMembers, first: bool, m: nat)
    ensures TruncatesMembers(KeptMembers(ms, first, m), EraseMembers(ms))
    decreases ms, 0
  {
    hide Layout, Lead, Opening;
    if ms.DMCons? {
      var opening := |Opening(ms, first)|;
      var end := opening + |Layout(ms.val)|;
      if m > opening {
        KeptTruncates(ms.val, m - opening);
        if m >= end {
          KeptTruncatesMembers(ms.rest, false, m - end);
        }
      }
    }
  }

  // ---------- Shown and kept ----------

  /** A pair that is pending is missing from what can be read. */
  lemma {:induction false} PendingIsMissing(w: Doc, m: nat)
    requires Pending(w, m) && !ArrayOpen(w, m)
    ensures Kept(w, m) != Some(Erase(w))
    decreases w
  {
    hide Layout;
    PendingIsMissingMembers(w.members, true, m - 1);
  }

  lemma {:induction false} PendingIsMissingMembers(ms: DMembers, first: bool, m: nat)
    requires PendingKeyMembers(ms, first, m).Some? && !ArrayOpenMembers(ms, first, m)
    ensures KeptMembers(ms, first, m) != EraseMembers(ms)
    decreases ms
  {
    hide Layout, Lead, Opening;
    var opening := |Opening(ms, first)|;
    var end := opening + |Layout(ms.val)|;
    if m >= end {
      if m > opening {
        PendingIsMissingMembers(ms.rest, false, m - end);
      }
    } else if m > opening && Pending(ms.val, m - opening) {
      PendingIsMissing(ms.val, m - opening);
    }
  }

  /** What is shown is what can be read, unless an array has taken a pending key, and
      then it is no truncation. */
  ghost predicate ShowsKept(w: Doc, m: nat) {
    if Pending(w, m) && ArrayOpen(w, m)
    then Kept(w, m).Some? && Shown(w, m).Some? && !Truncates(Shown(w, m).value, Erase(w))
    else Shown(w, m) == Kept(w, m)
  }

  lemma {:induction false} ShownTruncates(w: Doc, m: nat)
    ensures ShowsKept(w, m)
    decreases w
  {
    hide Layout;
    if 0 < m < |Layout(w)| {
      match w
      case DAtom(_) =>
      case DArr(es, _) => ShownTruncatesElems(es, true, m - 1);
      case DObj(ms, _) => ShownTruncatesMembers(ms, true, m - 1);
    }
  }

  lemma {:induction false} ShownTruncatesElems(es: DElems, first: bool, m: nat)
    ensures if PendingKeyElems(es, first, m).Some? then !TruncatesElems(ShownElems(es, first, m), EraseElems(es))
            else ShownElems(es, first, m) == KeptElems(es, first, m)
    decreases es
  {
    hide Layout, Lead, PendingKey, ArrayOpen, Kept, Shown;
    if es.DECons? {
      var lead := |Lead(es.before, first, es.after)|;
      var end := lead + |Layout(es.head)|;
      if m > lead {
        if m >= end {
          WholeShown(es.head, m - lead);
          ShownTruncatesElems(es.tail, false, m - end);
        } else {
          ShownTruncates(es.head, m - lead);
          NothingPending(es.head, m - lead);
          if Pending(es.head, m - lead) && !ArrayOpen(es.head, m - lead) {
            PendingIsMissing(es.head, m - lead);
          }
        }
      }
    }
  }

  lemma {:induction false} ShownTruncatesMembers(ms: DMembers, first: bool, m: nat)
    ensures if PendingKeyMembers(ms, first, m).Some? && ArrayOpenMembers(ms, first, m)
            then !TruncatesMembers(ShownMembers(ms, first, m), EraseMembers(ms))
            else ShownMembers(ms, first, m) == KeptMembers(ms, first, m)
    decreases ms
  {
    hide Layout, Lead, Opening, PendingKey, ArrayOpen, Kept, Shown, KeptAtom;
    if ms.DMCons? {
      var opening := |Opening(ms, first)|;
      var end := opening + |Layout(ms.val)|;
      LeadInOpening(ms, first);
      if m > opening {
        if m >= end {
          WholeShown(ms.val, m - opening);
          ShownTruncatesMembers(ms.rest, false, m - end);
        } else {
          ShownTruncates(ms.val, m - opening);
          NothingPending(ms.val, m - opening);
        }
      }
    }
  }

  lemma LeadInOpening(ms: DMembers, first: bool)
    requires ms.DMCons?
    ensures |Lead(ms.before, first, ms.after)| <= |Opening(ms, first)|
  {}

  lemma WholeShown(w: Doc, m: nat)
    requires m >= |Layout(w)|
    ensures Shown(w, m) == Kept(w, m) == Some(Erase(w))
  {}

  lemma NothingPending(w: Doc, m: nat)
    ensures Kept(w, m).None? ==> !Pending(w, m)
    ensures w.DAtom? ==> !Pending(w, m) && !ArrayOpen(w, m)
  {
    hide Layout;
  }

  // ---------- The snapshot of a cut ----------

  /** How much of the document the first n bytes show, behind white space. */
  function Reached(lead: Bytes, n: nat): nat {
    if n <= |lead| then 0 else n - |lead|
  }

  lemma ParseBehindWs(d: Bytes, lead: Bytes)
    requires AllWs(lead) && At(d, 0, lead) && |lead| < |d| && !IsWs(d[|lead|])
    ensures ParseValue(d, 0) == ParseValue(d, |lead|)
  {
    SkipWsTo(d, 0, lead);
    assert SkipWs(d, |lead|) == |lead|;
  }

  /** Any document with any white space, cut anywhere, is parsed as it is shown. */
  lemma ParseIsShown(w: Doc, lead: Bytes, trail: Bytes, n: nat)
    requires DocOk(w) && AllWs(lead) && AllWs(trail) && n <= |lead + Layout(w) + trail|
    ensures var r := ParseValue((lead + Layout(w) + trail)[..n], 0);
      Shown(w, Reached(lead, n)) == if r.Ok? then Some(r.value) else None
  {
    hide *;
    var d, p := (lead + Layout(w) + trail)[..n], |lead|;
    LayoutStart(w);
    CutParts(d, lead, Layout(w), trail);
    if n <= p {
      WsFails(d, lead);
      NoneShown(w);
    } else {
      ParseBehindWs(d, lead);
      if n < p + |Layout(w)| {
        ParseCut(w, d, p);
        CutShown(w, n - p, d, ParseValue(d, p));
      } else {
        ParseLayout(w, d, p);
        WholeShown(w, n - p);
      }
    }
    ReachedIs(lead, n);
  }

  lemma ReachedIs(lead: Bytes, n: nat)
    ensures Reached(lead, n) == if n <= |lead| then 0 else n - |lead|
  {}

  lemma CutShown(w: Doc, m: nat, d: Bytes, r: Parsed)
    requires ValueCut(w, m, d, r)
    ensures Shown(w, m) == if r.Ok? then Some(r.value) else None
  {}

  lemma NoneShown(w: Doc)
    requires |Layout(w)| > 0
    ensures Shown(w, 0).None?
  {}

  lemma WsFails(d: Bytes, lead: Bytes)
    requires AllWs(lead) && CutAt(d, 0, lead)
    ensures ParseValue(d, 0).Fail?
  {
    CutWs(d, 0, lead);
  }

  lemma CutParts(d: Bytes, lead: Bytes, text: Bytes, trail: Bytes)
    requires d <= lead + text + trail && AllWs(trail)
    ensures var p := |lead|;
      && (|d| <= p ==> CutAt(d, 0, lead))
      && (|d| > p && text != [] ==> At(d, 0, lead) && d[p] == text[0])
      && (p <= |d| < p + |text| ==> CutAt(d, p, text))
      && (|d| >= p + |text| ==> At(d, p, text) && Ends(d, p + |text|))
  {
    assert forall i :: 0 <= i < |d| ==> d[i] == (lead + text + trail)[i];
  }

  /** The snapshot of a cut document is what the cut shows. There is one exactly when
      something can be read. It is a truncation of the document if and only if no pair
      is pending inside an open array, and then it is all that can be read. */
  lemma SnapshotOfCut(w: Doc, lead: Bytes, trail: Bytes, n: nat)
    requires DocOk(w) && AllWs(lead) && AllWs(trail) && n <= |lead + Layout(w) + trail|
    ensures var m := Reached(lead, n);
      && (Shown(w, m).Some? <==> Kept(w, m).Some?)
      && match Shown(w, m)
         case None => PartialJSON((lead + Layout(w) + trail)[..n]) == NoSnapshot
         case Some(t) =>
           && PartialJSON((lead + Layout(w) + trail)[..n]) == Snapshot(Print(t))
           && (Truncates(t, Erase(w)) <==> !(Pending(w, m) && ArrayOpen(w, m)))
           && (t == Kept(w, m).value <==> !(Pending(w, m) && ArrayOpen(w, m)))
  {
    hide Layout, ParseValue, DocOk, Truncates, PendingKey, ArrayOpen, Kept, Shown, Print;
    ParseIsShown(w, lead, trail, n);
    ShownTruncates(w, Reached(lead, n));
    KeptTruncates(w, Reached(lead, n));
  }

  // ---------- The failing case ----------

  const NAME: Bytes := [0x6E, 0x61, 0x6D, 0x65]
  const OPENED: Bytes := [LBRACKET, LBRACE, QUOTE] + NAME

  lemma NameRead()
    ensures ParseBody(OPENED, 3) == PBody(NAME, 7)
  {
    assert ParseBody(OPENED, 7) == PBody([], 7);
    assert ParseBody(OPENED, 6) == PBody([0x65], 7);
    assert ParseBody(OPENED, 5) == PBody([0x6D, 0x65], 7);
    assert ParseBody(OPENED, 4) == PBody([0x61, 0x6D, 0x65], 7);
  }

  lemma NameDropped()
    ensures ParseValue(OPENED, 1) == Ok(Obj(MNil), 2)
  {
    NameRead();
    assert SkipWs(OPENED, 7) == 7 && SkipWs(OPENED, 2) == 2 && SkipWs(OPENED, 1) == 1;
    assert ParseKey(OPENED, 2) == NoKey;
    assert ParseMembers(OPENED, 2, true) == PMembers(MNil, 2);
  }

  lemma NameTaken()
    ensures ParseValue(OPENED, 0) == Ok(Arr(ECons(Obj(MNil), ECons(Str(NAME), ENil))), 7)
  {
    NameRead();
    NameDropped();
    assert SkipWs(OPENED, 7) == 7 && SkipWs(OPENED, 2) == 2 && SkipWs(OPENED, 1) == 1 && SkipWs(OPENED, 0) == 0;
    ParseQuote(OPENED, 2);
    assert ParseElems(OPENED, 7, false) == PElems(ENil, 7);
    assert ParseElems(OPENED, 2, false) == PElems(ECons(Str(NAME), ENil), 7);
    assert ParseElems(OPENED, 1, true) == PElems(ECons(Obj(MNil), ECons(Str(NAME), ENil)), 7);
  }

  /** `[{"name` snapshots to `[{},"name"]`: the key has become an element. */
  lemma KeyBecomesElement()
    ensures PartialJSON(OPENED) == Snapshot([LBRACKET, LBRACE, RBRACE, COMMA] + Quoted(NAME) + [RBRACKET])
  {
    hide ParseValue, NAME, OPENED;
    NameTaken();
    assert PrintElems(ECons(Str(NAME), ENil), false) == [COMMA] + Quoted(NAME);
    assert Print(Obj(MNil)) == [LBRACE, RBRACE];
    assert PrintElems(ECons(Obj(MNil), ECons(Str(NAME), ENil)), true) == [LBRACE, RBRACE] + ([COMMA] + Quoted(NAME));
  }
}
