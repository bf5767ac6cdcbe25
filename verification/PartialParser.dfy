/**
 The parser of core/partial_json.go as it runs: one input position and one output
 buffer, written ahead and truncated back when a tail value is incomplete.
 Each method is proved to do what its function in PartialJson.dfy says.
 */
module PartialParser {
  import opened Octets
  import opened Json
  import opened PartialJson

  /** isValidJSONNumber: one left-to-right pass decides the grammar exactly. */
  method IsValidJSONNumber(b: Bytes) returns (ok: bool)
    ensures ok <==> IsNumber(b)
  {
    hide IsNumber, DigitsEnd;
    NumberScan(b);
    if |b| == 0 {
      return false;
    }
    var i := 0;
    if b[i] == MINUS {
      i := i + 1;
    }
    ghost var a := MinusEnd(b);
    if i >= |b| {
      return false;
    }
    if b[i] == ZERO {
      i := i + 1;
    } else if IsDigit(b[i]) {
      i := SkipDigits(b, i);
    } else {
      return false;
    }
    ghost var m := IntEnd(b, a);
    assert i == m && IntScans(b, a);
    if i < |b| && b[i] == DOT {
      i := i + 1;
      if i >= |b| || !IsDigit(b[i]) {
        return false;
      }
      i := SkipDigits(b, i);
    }
    ghost var c := FracEnd(b, m);
    assert i == c && FracScans(b, m);
    if i < |b| && (b[i] == LOWER_E || b[i] == UPPER_E) {
      i := i + 1;
      if i < |b| && (b[i] == PLUS || b[i] == MINUS) {
        i := i + 1;
      }
      assert i == ExpDigits(b, c);
      if i >= |b| || !IsDigit(b[i]) {
        assert !ExpScans(b, c);
        return false;
      }
      i := SkipDigits(b, i);
    }
    assert ExpScans(b, c) <==> i == |b|;
    return i == |b|;
  }

  /** The digit loops of isValidJSONNumber. */
  method SkipDigits(b: Bytes, start: nat) returns (i: nat)
    requires start <= |b|
    ensures i == DigitsEnd(b, start)
  {
    i := start;
    while i < |b| && IsDigit(b[i])
      invariant start <= i <= |b|
      invariant DigitsEnd(b, start) == DigitsEnd(b, i)
    {
      i := i + 1;
    }
  }

  // The grammar read left to right, as far as the scanner's exits need it.

  ghost predicate IntScans(b: Bytes, a: nat)
    requires a <= |b|
  {
    a < |b| && IsDigit(b[a])
  }

  ghost predicate FracScans(b: Bytes, i: nat)
    requires i <= |b|
  {
    i < |b| && b[i] == DOT ==> i + 1 < |b| && IsDigit(b[i + 1])
  }

  ghost function ExpDigits(b: Bytes, c: nat): (i: nat)
    requires c < |b|
    ensures i <= |b|
  {
    if c + 1 < |b| && (b[c + 1] == PLUS || b[c + 1] == MINUS) then c + 2 else c + 1
  }

  ghost predicate ExpScans(b: Bytes, c: nat)
    requires c <= |b|
  {
    c == |b| ||
    ((b[c] == LOWER_E || b[c] == UPPER_E) &&
     var i := ExpDigits(b, c); i < |b| && DigitsEnd(b, i) == |b|)
  }

  lemma DigitsScan(b: Bytes, i: nat, e: nat)
    requires i <= e <= |b|
    ensures Digits(b[i..e]) ==> forall k :: i <= k < e ==> IsDigit(b[k])
    ensures i < e <= DigitsEnd(b, i) ==> Digits(b[i..e])
  {
    assert forall k :: i <= k < e ==> b[i..e][k - i] == b[k];
  }

  lemma ExpScan(b: Bytes, c: nat)
    requires c <= |b|
    ensures ExpPart(b[c..]) <==> ExpScans(b, c)
  {
    var e := b[c..];
    if c < |b| {
      assert e[0] == b[c];
      assert e[1..] == b[c + 1..];
      TailDigits(b, c + 1);
      if c + 1 < |b| {
        assert e[1] == b[c + 1];
        assert e[2..] == b[c + 2..];
        TailDigits(b, c + 2);
      }
    }
  }

  lemma TailDigits(b: Bytes, i: nat)
    requires i <= |b|
    ensures Digits(b[i..]) <==> i < |b| && DigitsEnd(b, i) == |b|
  {
    assert b[i..] == b[i..|b|];
    DigitsScan(b, i, |b|);
    if Digits(b[i..]) {
      DigitsReach(b, i, |b|);
    }
  }

  lemma IntScan(b: Bytes)
    ensures var a := MinusEnd(b); IntPart(b[a..IntEnd(b, a)]) <==> IntScans(b, a)
  {
    var a := MinusEnd(b);
    var i := IntEnd(b, a);
    DigitsScan(b, a, i);
    if a < i {
      assert b[a..i][0] == b[a];
    }
  }

  lemma FracScan(b: Bytes, i: nat)
    requires i <= |b|
    ensures FracPart(b[i..FracEnd(b, i)]) <==> FracScans(b, i)
  {
    var c := FracEnd(b, i);
    if i < c {
      assert b[i..c][0] == b[i] && b[i..c][1..] == b[i + 1..c];
      DigitsScan(b, i + 1, c);
    }
  }

  lemma NumberScan(b: Bytes)
    ensures
      var a := MinusEnd(b);
      var i := IntEnd(b, a);
      IsNumber(b) <==> IntScans(b, a) && FracScans(b, i) && ExpScans(b, FracEnd(b, i))
  {
    var a := MinusEnd(b);
    var i := IntEnd(b, a);
    var c := FracEnd(b, i);
    IntScan(b);
    FracScan(b, i);
    ExpScan(b, c);
    if IsNumber(b) {
      var x: nat, y: nat, z: nat :| NumberSplit(b, x, y, z);
      NumberSplitUnique(b, x, y, z);
    } else {
      assert !NumberSplit(b, a, i, c);
    }
  }

  lemma CloseString(base: Bytes, out: Bytes, body: Bytes)
    requires out + [] == base + [QUOTE] + body
    ensures out + [QUOTE] == base + Quoted(body)
  {
    assert out + [] == out;
    assert base + [QUOTE] + body + [QUOTE] == base + ([QUOTE] + body + [QUOTE]);
  }

  lemma CloseObject(base: Bytes, out: Bytes, ms: Members)
    requires out + [] == base + [LBRACE] + PrintMembers(ms, true)
    ensures out + [RBRACE] == base + Print(Obj(ms))
  {
    assert out + [] == out;
    assert base + [LBRACE] + PrintMembers(ms, true) + [RBRACE] == base + ([LBRACE] + PrintMembers(ms, true) + [RBRACE]);
  }

  lemma CloseArray(base: Bytes, out: Bytes, es: Elems)
    requires out + [] == base + [LBRACKET] + PrintElems(es, true)
    ensures out + [RBRACKET] == base + Print(Arr(es))
  {
    assert out + [] == out;
    assert base + [LBRACKET] + PrintElems(es, true) + [RBRACKET] == base + ([LBRACKET] + PrintElems(es, true) + [RBRACKET]);
  }

  /** What one turn of an object or array loop reads. */
  datatype TurnResult = Shut(next: nat) | Pair(key: Bytes, value: Json, next: nat)

  ghost function MemberTurn(d: Bytes, p: nat, first: bool): (r: TurnResult)
    requires p <= |d|
    ensures r.Pair? ==> p < r.next <= |d|
  {
    match NextTurn(d, p, first, RBRACE)
    case Closed(next) => Shut(next)
    case Open(turn, start) =>
      match ParseKey(d, start)
      case NoKey => Shut(turn)
      case Key(key, at) =>
        match ParseValue(d, at)
        case Fail => Shut(turn)
        case Ok(v, n) => Pair(key, v, n)
  }

  ghost function ElemTurn(d: Bytes, p: nat, first: bool): (r: TurnResult)
    requires p <= |d|
    ensures r.Pair? ==> p < r.next <= |d|
  {
    match NextTurn(d, p, first, RBRACKET)
    case Closed(next) => Shut(next)
    case Open(turn, start) =>
      match ParseValue(d, start)
      case Fail => Shut(turn)
      case Ok(v, n) => Pair([], v, n)
  }

  lemma MembersTurn(d: Bytes, p: nat, first: bool)
    requires p <= |d|
    ensures
      ParseMembers(d, p, first) ==
      match MemberTurn(d, p, first)
      case Shut(n) => PMembers(MNil, n)
      case Pair(key, v, n) =>
        var r := ParseMembers(d, n, false);
        PMembers(MCons(key, v, r.members), r.next)
  {
    hide ParseValue, ParseKey, NextTurn;
  }

  lemma ElemsTurn(d: Bytes, p: nat, first: bool)
    requires p <= |d|
    ensures
      ParseElems(d, p, first) ==
      match ElemTurn(d, p, first)
      case Shut(n) => PElems(ENil, n)
      case Pair(_, v, n) =>
        var r := ParseElems(d, n, false);
        PElems(ECons(v, r.elems), r.next)
  {
    hide ParseValue, NextTurn;
  }

  lemma PrintPair(out: Bytes, key: Bytes, v: Json, rest: Members, first: bool)
    ensures out + PrintMembers(MCons(key, v, rest), first)
         == out + Separator(first) + Quoted(key) + [COLON] + Print(v) + PrintMembers(rest, false)
  {
    Assoc(out, Separator(first), Quoted(key), [COLON], Print(v), PrintMembers(rest, false));
  }

  lemma Assoc(o: Bytes, a: Bytes, b: Bytes, c: Bytes, d: Bytes, e: Bytes)
    ensures o + (a + b + c + d + e) == o + a + b + c + d + e
  {
  }

  lemma PrintElem(out: Bytes, v: Json, rest: Elems, first: bool)
    ensures out + PrintElems(ECons(v, rest), first)
         == out + Separator(first) + Print(v) + PrintElems(rest, false)
  {
    hide Print;
  }

  class PartialParser {
    const data: Bytes
    var pos: nat
    /** The pooled bytes.Buffer every node is written to. */
    var out: Bytes

    constructor (data: Bytes)
      ensures this.data == data && pos == 0 && out == []
    {
      this.data := data;
      pos := 0;
      out := [];
    }

    method SkipWhitespace()
      requires pos <= |data|
      modifies this`pos
      ensures pos == SkipWs(data, old(pos))
    {
      while pos < |data| && IsWs(data[pos])
        invariant old(pos) <= pos <= |data|
        invariant SkipWs(data, old(pos)) == SkipWs(data, pos)
      {
        pos := pos + 1;
      }
    }

    /** On failure nothing has changed: buffer and position are as before. */
    method ParseValueInto() returns (ok: bool)
      requires pos <= |data|
      modifies this
      ensures match ParseValue(data, old(pos))
              case Fail => !ok && pos == old(pos) && out == old(out)
              case Ok(v, n) => ok && pos == n && out == old(out) + Print(v)
      decreases |data| - pos, 1
    {
      var savepoint := |out|;
      var posSave := pos;
      SkipWhitespace();
      if pos >= |data| {
        pos := posSave;
        return false;
      }
      ok := false;
      if data[pos] == LBRACE {
        ok := ParseObjectInto();
      } else if data[pos] == LBRACKET {
        ok := ParseArrayInto();
      } else if data[pos] == QUOTE {
        ok := ParseStringInto();
      } else if data[pos] == LOWER_T || data[pos] == LOWER_F || data[pos] == LOWER_N {
        ok := ParseLiteralInto();
      } else if data[pos] == MINUS || IsDigit(data[pos]) {
        ok := ParseNumberInto();
      }
      if !ok {
        out := out[..savepoint];
        pos := posSave;
        return false;
      }
    }

    method ParseStringInto() returns (ok: bool)
      requires pos <= |data|
      modifies this
      ensures ok <==> old(pos) < |data| && data[old(pos)] == QUOTE
      ensures !ok ==> pos == old(pos) && out == old(out)
      ensures ok ==>
        var r := ParseBody(data, old(pos) + 1);
        pos == r.next && out == old(out) + Quoted(r.body)
    {
      if pos >= |data| || data[pos] != QUOTE {
        return false;
      }
      pos := pos + 1;
      out := out + [QUOTE];
      ghost var all := ParseBody(data, pos);
      while pos < |data|
        invariant old(pos) < pos <= |data|
        invariant ParseBody(data, pos).next == all.next
        invariant out + ParseBody(data, pos).body == old(out) + [QUOTE] + all.body
      {
        var b := data[pos];
        if b == BACKSLASH {
          if pos + 1 >= |data| {
            break;
          }
          out := out + [b];
          pos := pos + 1;
          out := out + [data[pos]];
          pos := pos + 1;
          continue;
        }
        if b == QUOTE {
          CloseString(old(out), out, all.body);
          out := out + [QUOTE];
          pos := pos + 1;
          return true;
        }
        out := out + [b];
        pos := pos + 1;
      }
      CloseString(old(out), out, all.body);
      out := out + [QUOTE];
      return true;
    }

    /** May leave the position advanced on failure; the caller rolls it back. */
    method ParseNumberInto() returns (ok: bool)
      requires pos < |data|
      modifies this
      ensures var e := NumEnd(data, old(pos));
              && (ok <==> IsNumber(data[old(pos)..e]))
              && pos == e
              && out == if ok then old(out) + data[old(pos)..e] else old(out)
    {
      var start := pos;
      while pos < |data| && IsNumChar(data[pos])
        invariant start <= pos <= |data|
        invariant NumEnd(data, start) == NumEnd(data, pos) && out == old(out)
      {
        pos := pos + 1;
      }
      var raw := data[start..pos];
      ok := IsValidJSONNumber(raw);
      if !ok {
        return false;
      }
      out := out + raw;
    }

    method ParseLiteralInto() returns (ok: bool)
      requires pos <= |data|
      modifies this
      ensures match ParseLiteral(data, old(pos))
              case Fail => !ok && pos == old(pos) && out == old(out)
              case Ok(v, n) => ok && pos == n && out == old(out) + Print(v)
    {
      if LIT_TRUE <= data[pos..] {
        pos := pos + |LIT_TRUE|;
        out := out + LIT_TRUE;
        return true;
      }
      if LIT_FALSE <= data[pos..] {
        pos := pos + |LIT_FALSE|;
        out := out + LIT_FALSE;
        return true;
      }
      if LIT_NULL <= data[pos..] {
        pos := pos + |LIT_NULL|;
        out := out + LIT_NULL;
        return true;
      }
      return false;
    }

    /** Always succeeds: a truncated object is closed after its last whole pair. */
    method ParseObjectInto() returns (ok: bool)
      requires pos < |data|
      modifies this
      ensures var r := ParseMembers(data, old(pos) + 1, true);
              ok && pos == r.next && out == old(out) + Print(Obj(r.members))
      decreases |data| - pos, 0
    {
      pos := pos + 1;
      out := out + [LBRACE];
      var first := true;
      ghost var all := ParseMembers(data, pos, true);
      while true
        invariant old(pos) < pos <= |data|
        invariant ParseMembers(data, pos, first).next == all.next
        invariant out + PrintMembers(ParseMembers(data, pos, first).members, first)
               == old(out) + [LBRACE] + PrintMembers(all.members, true)
        decreases |data| - pos
      {
        ghost var before, start := out, pos;
        var closed := ObjectTurn(first);
        MembersTurn(data, start, first);
        if closed {
          CloseObject(old(out), before, all.members);
          return true;
        }
        ghost var r := MemberTurn(data, start, first);
        PrintPair(before, r.key, r.value, ParseMembers(data, pos, false).members, first);
        first := false;
      }
    }

    /** One turn of the object loop: close the object, or append one whole pair.
        The buffer and the position are saved when the turn begins, and a pair
        that turns out incomplete is undone back to there. */
    method ObjectTurn(first: bool) returns (closed: bool)
      requires pos <= |data|
      modifies this
      ensures
        match MemberTurn(data, old(pos), first)
        case Shut(n) => closed && pos == n && out == old(out) + [RBRACE]
        case Pair(key, v, n) =>
          && !closed && pos == n
          && out == old(out) + Separator(first) + Quoted(key) + [COLON] + Print(v)
      decreases |data| - pos, 2
    {
      hide ParseValue, ParseKey, SkipWs, Print;
      SkipWhitespace();
      if pos >= |data| {
        out := out + [RBRACE];
        return true;
      }
      if data[pos] == RBRACE {
        pos := pos + 1;
        out := out + [RBRACE];
        return true;
      }
      var pairOutSave := |out|;
      var pairPosSave := pos;
      if !first && data[pos] == COMMA {
        pos := pos + 1;
        SkipWhitespace();
        if pos >= |data| {
          out := out + [RBRACE];
          return true;
        }
      }
      var keyOk := KeyInto(first);
      if !keyOk {
        out := out[..pairOutSave];
        pos := pairPosSave;
        out := out + [RBRACE];
        return true;
      }
      var valueOk := ParseValueInto();
      if !valueOk {
        out := out[..pairOutSave];
        pos := pairPosSave;
        out := out + [RBRACE];
        return true;
      }
      return false;
    }

    /** The tentative part of a pair before its value. On failure what it wrote is
        still in the buffer, behind the caller's savepoint. */
    method KeyInto(first: bool) returns (ok: bool)
      requires pos < |data|
      modifies this
      ensures old(out) <= out && pos <= |data|
      ensures
        match ParseKey(data, old(pos))
        case NoKey => !ok
        case Key(key, at) => ok && pos == at && out == old(out) + Separator(first) + Quoted(key) + [COLON]
    {
      hide ParseBody, SkipWs;
      if data[pos] != QUOTE {
        return false;
      }
      if !first {
        out := out + [COMMA];
      }
      var keyOk := ParseStringInto();
      if !keyOk {
        return false;
      }
      SkipWhitespace();
      if pos >= |data| || data[pos] != COLON {
        return false;
      }
      pos := pos + 1;
      out := out + [COLON];
      SkipWhitespace();
      if pos >= |data| {
        return false;
      }
      return true;
    }

    /** Always succeeds: a truncated array is closed after its last whole element. */
    method ParseArrayInto() returns (ok: bool)
      requires pos < |data|
      modifies this
      ensures var r := ParseElems(data, old(pos) + 1, true);
              ok && pos == r.next && out == old(out) + Print(Arr(r.elems))
      decreases |data| - pos, 0
    {
      pos := pos + 1;
      out := out + [LBRACKET];
      var first := true;
      ghost var all := ParseElems(data, pos, true);
      while true
        invariant old(pos) < pos <= |data|
        invariant ParseElems(data, pos, first).next == all.next
        invariant out + PrintElems(ParseElems(data, pos, first).elems, first)
               == old(out) + [LBRACKET] + PrintElems(all.elems, true)
        decreases |data| - pos
      {
        ghost var before, start := out, pos;
        var closed := ArrayTurn(first);
        ElemsTurn(data, start, first);
        if closed {
          CloseArray(old(out), before, all.elems);
          return true;
        }
        PrintElem(before, ElemTurn(data, start, first).value, ParseElems(data, pos, false).elems, first);
        first := false;
      }
    }

    /** One turn of the array loop: close the array, or append one whole element. */
    method ArrayTurn(first: bool) returns (closed: bool)
      requires pos <= |data|
      modifies this
      ensures
        match ElemTurn(data, old(pos), first)
        case Shut(n) => closed && pos == n && out == old(out) + [RBRACKET]
        case Pair(_, v, n) => !closed && pos == n && out == old(out) + Separator(first) + Print(v)
      decreases |data| - pos, 2
    {
      hide ParseValue, ParseKey, SkipWs, Print;
      SkipWhitespace();
      if pos >= |data| {
        out := out + [RBRACKET];
        return true;
      }
      if data[pos] == RBRACKET {
        pos := pos + 1;
        out := out + [RBRACKET];
        return true;
      }
      var elemOutSave := |out|;
      var elemPosSave := pos;
      if !first {
        if data[pos] == COMMA {
          pos := pos + 1;
          SkipWhitespace();
          if pos >= |data| {
            out := out + [RBRACKET];
            return true;
          }
        }
        out := out + [COMMA];
      }
      var valueOk := ParseValueInto();
      if !valueOk {
        out := out[..elemOutSave];
        pos := elemPosSave;
        out := out + [RBRACKET];
        return true;
      }
      return false;
    }
  }

  /** PartialJSON: the buffer holds the snapshot exactly when there is one. */
  method Run(data: Bytes) returns (text: Bytes, ok: bool)
    ensures match PartialJSON(data)
            case NoSnapshot => !ok && text == []
            case Snapshot(s) => ok && text == s
  {
    if |data| == 0 {
      return [], false;
    }
    var p := new PartialParser(data);
    ok := p.ParseValueInto();
    if !ok {
      return [], false;
    }
    text := p.out;
  }
}
