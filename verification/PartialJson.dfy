/**
 The truncation-tolerant parser of core/partial_json.go as a function: what one
 call of each parse method consumes and which value tree it appends. The
 imperative parser in PartialParser.dfy is proved to compute exactly this.
 */
module PartialJson {
  import opened Octets
  import opened Json

  datatype Parsed = Fail | Ok(value: Json, next: nat)

  datatype ParsedElems = PElems(elems: Elems, next: nat)

  datatype ParsedMembers = PMembers(members: Members, next: nat)

  datatype ParsedBody = PBody(body: Bytes, next: nat)

  function SkipWs(d: Bytes, p: nat): (q: nat)
    requires p <= |d|
    ensures p <= q <= |d|
    ensures q < |d| ==> !IsWs(d[q])
    decreases |d| - p
  {
    if p < |d| && IsWs(d[p]) then SkipWs(d, p + 1) else p
  }

  function NumEnd(d: Bytes, p: nat): (e: nat)
    requires p <= |d|
    ensures p <= e <= |d|
    decreases |d| - p
  {
    if p < |d| && IsNumChar(d[p]) then NumEnd(d, p + 1) else p
  }

  /** The body of a string whose opening quote is at p - 1. A missing closing
      quote ends the body at the end of input; a lone trailing backslash ends it
      at the backslash, which is not consumed. */
  function ParseBody(d: Bytes, p: nat): (r: ParsedBody)
    requires p <= |d|
    ensures p <= r.next <= |d|
    decreases |d| - p
  {
    if p == |d| then PBody([], p)
    else if d[p] == BACKSLASH then
      if p + 1 >= |d| then PBody([], p)
      else
        var r := ParseBody(d, p + 2);
        PBody([d[p], d[p + 1]] + r.body, r.next)
    else if d[p] == QUOTE then PBody([], p + 1)
    else
      var r := ParseBody(d, p + 1);
      PBody([d[p]] + r.body, r.next)
  }

  /** The literal starting at p, if one is there in full. */
  function ParseLiteral(d: Bytes, p: nat): (r: Parsed)
    requires p <= |d|
    ensures r.Ok? ==> p < r.next <= |d|
  {
    if LIT_TRUE <= d[p..] then Ok(True, p + |LIT_TRUE|)
    else if LIT_FALSE <= d[p..] then Ok(False, p + |LIT_FALSE|)
    else if LIT_NULL <= d[p..] then Ok(Null, p + |LIT_NULL|)
    else Fail
  }

  /** A value starting at p after optional white space. Success always moves
      forward, whatever the inner parsers rolled back. */
  ghost function ParseValue(d: Bytes, p: nat): (r: Parsed)
    requires p <= |d|
    ensures r.Ok? ==> p < r.next <= |d|
    decreases |d| - p, 1
  {
    var q := SkipWs(d, p);
    if q == |d| then Fail
    else if d[q] == LBRACE then
      var r := ParseMembers(d, q + 1, true);
      Ok(Obj(r.members), r.next)
    else if d[q] == LBRACKET then
      var r := ParseElems(d, q + 1, true);
      Ok(Arr(r.elems), r.next)
    else if d[q] == QUOTE then
      var r := ParseBody(d, q + 1);
      Ok(Str(r.body), r.next)
    else if d[q] == LOWER_T || d[q] == LOWER_F || d[q] == LOWER_N then
      ParseLiteral(d, q)
    else if d[q] == MINUS || IsDigit(d[q]) then
      var e := NumEnd(d, q);
      if IsNumber(d[q..e]) then Ok(Num(d[q..e]), e) else Fail
    else Fail
  }

  /** Where the next element or pair begins, read from p: the closing byte, the
      end of input, or the first byte after an optional comma. `turn` is the
      position a dropped element or pair goes back to. */
  datatype Turn = Closed(next: nat) | Open(turn: nat, start: nat)

  function NextTurn(d: Bytes, p: nat, first: bool, closing: byte): (t: Turn)
    requires p <= |d|
    ensures t.Closed? ==> p <= t.next <= |d|
    ensures t.Open? ==> p <= t.turn <= t.start < |d|
  {
    var q := SkipWs(d, p);
    if q == |d| then Closed(q)
    else if d[q] == closing then Closed(q + 1)
    else
      var start := if !first && d[q] == COMMA then SkipWs(d, q + 1) else q;
      if start == |d| then Closed(start) else Open(q, start)
  }

  /** A quoted key at `start` and its colon; `at` is where the value begins. */
  datatype KeyColon = NoKey | Key(key: Bytes, at: nat)

  function ParseKey(d: Bytes, start: nat): (k: KeyColon)
    requires start < |d|
    ensures k.Key? ==> start < k.at < |d|
  {
    if d[start] != QUOTE then NoKey
    else
      var key := ParseBody(d, start + 1);
      var colon := SkipWs(d, key.next);
      if colon == |d| || d[colon] != COLON then NoKey
      else
        var at := SkipWs(d, colon + 1);
        if at == |d| then NoKey else Key(key.body, at)
  }

  /** Array elements from p up to and including the closing bracket. An element
      that cannot be completed is dropped with its separator, and the input
      position goes back to where that element's turn began. */
  ghost function ParseElems(d: Bytes, p: nat, first: bool): (r: ParsedElems)
    requires p <= |d|
    ensures p <= r.next <= |d|
    decreases |d| - p, 2
  {
    match NextTurn(d, p, first, RBRACKET)
    case Closed(next) => PElems(ENil, next)
    case Open(turn, start) =>
      match ParseValue(d, start)
      case Fail => PElems(ENil, turn)
      case Ok(v, n) =>
        var r := ParseElems(d, n, false);
        PElems(ECons(v, r.elems), r.next)
  }

  /** Object members from p up to and including the closing brace. A pair that
      cannot be completed is dropped as a whole, and the input position goes
      back to where that pair's turn began. */
  ghost function ParseMembers(d: Bytes, p: nat, first: bool): (r: ParsedMembers)
    requires p <= |d|
    ensures p <= r.next <= |d|
    decreases |d| - p, 2
  {
    match NextTurn(d, p, first, RBRACE)
    case Closed(next) => PMembers(MNil, next)
    case Open(turn, start) =>
      match ParseKey(d, start)
      case NoKey => PMembers(MNil, turn)
      case Key(key, at) =>
        match ParseValue(d, at)
        case Fail => PMembers(MNil, turn)
        case Ok(v, n) =>
          var r := ParseMembers(d, n, false);
          PMembers(MCons(key, v, r.members), r.next)
  }

  datatype Snapshot = NoSnapshot | Snapshot(text: Bytes)

  /** PartialJSON: the compact print of the first value, or nothing. */
  ghost function PartialJSON(d: Bytes): Snapshot {
    match ParseValue(d, 0)
    case Fail => NoSnapshot
    case Ok(v, _) => Snapshot(Print(v))
  }

  // ---------- Every snapshot is JSON ----------

  lemma {:induction false} ParseBodyOk(d: Bytes, p: nat)
    requires p <= |d|
    ensures BodyOk(ParseBody(d, p).body)
    decreases |d| - p
  {
    if p < |d| && d[p] == BACKSLASH && p + 1 < |d| {
      ParseBodyOk(d, p + 2);
      assert ([d[p], d[p + 1]] + ParseBody(d, p + 2).body)[2..] == ParseBody(d, p + 2).body;
    } else if p < |d| && d[p] != BACKSLASH && d[p] != QUOTE {
      ParseBodyOk(d, p + 1);
      assert ([d[p]] + ParseBody(d, p + 1).body)[1..] == ParseBody(d, p + 1).body;
    }
  }

  /** Whatever the input, a parsed value is a well-formed tree, even where the
      parser closed truncated structure or dropped an incomplete tail. */
  lemma {:induction false} ParseValueWellFormed(d: Bytes, p: nat)
    requires p <= |d|
    ensures ParseValue(d, p).Ok? ==> WellFormed(ParseValue(d, p).value)
    decreases |d| - p, 1
  {
    var q := SkipWs(d, p);
    if q < |d| {
      if d[q] == LBRACE {
        ParseMembersOk(d, q + 1, true);
      } else if d[q] == LBRACKET {
        ParseElemsOk(d, q + 1, true);
      } else if d[q] == QUOTE {
        ParseBodyOk(d, q + 1);
      }
    }
  }

  lemma {:induction false} ParseElemsOk(d: Bytes, p: nat, first: bool)
    requires p <= |d|
    ensures ElemsOk(ParseElems(d, p, first).elems)
    decreases |d| - p, 2
  {
    var t := NextTurn(d, p, first, RBRACKET);
    if t.Open? {
      ParseValueWellFormed(d, t.start);
      var v := ParseValue(d, t.start);
      if v.Ok? {
        ParseElemsOk(d, v.next, false);
      }
    }
  }

  lemma {:induction false} ParseMembersOk(d: Bytes, p: nat, first: bool)
    requires p <= |d|
    ensures MembersOk(ParseMembers(d, p, first).members)
    decreases |d| - p, 2
  {
    var t := NextTurn(d, p, first, RBRACE);
    if t.Open? {
      var k := ParseKey(d, t.start);
      if k.Key? {
        ParseBodyOk(d, t.start + 1);
        ParseValueWellFormed(d, k.at);
        var v := ParseValue(d, k.at);
        if v.Ok? {
          ParseMembersOk(d, v.next, false);
        }
      }
    }
  }

  /** Soundness: a snapshot of any byte string is the print of a well-formed value.
      It derives from the grammar of RFC 8259 up to string bodies, in which escapes
      are only paired and control bytes pass; see PartialJsonStrings. */
  lemma SnapshotIsJson(d: Bytes)
    requires PartialJSON(d).Snapshot?
    ensures exists t :: WellFormed(t) && PartialJSON(d).text == Print(t)
  {
    ParseValueWellFormed(d, 0);
  }
}
