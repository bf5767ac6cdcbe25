/**
 The incremental scanner of agent/stream.go that reports the elements of a
 streamed top-level array as they close. The buffer grows between calls; the
 scanner keeps its place and its nesting state.
 */
module ElementTracker {
  import opened Octets
  import opened Json

  /** Nesting state between two bytes; elemStart is -1 outside an element. */
  datatype Scan = Scan(depth: int, inString: bool, escape: bool, elemStart: int)

  const START: Scan := Scan(0, false, false, -1)

  /** json.Valid, asked only about scalar elements ended by a comma. */
  type Validity = Bytes -> bool

  datatype Result = Result(scan: Scan, completed: seq<Bytes>)

  ghost predicate ScanOk(st: Scan, i: nat) {
    -1 <= st.elemStart < i
  }

  predicate Opens(b: byte) {
    b == LBRACE || b == LBRACKET
  }

  predicate Closing(b: byte) {
    b == RBRACE || b == RBRACKET
  }

  function TrimWs(s: Bytes): (r: Bytes)
    ensures r <= s
  {
    if s != [] && IsWs(s[|s| - 1]) then TrimWs(s[..|s| - 1]) else s
  }

  /** One byte of the loop body. */
  function Step(valid: Validity, d: Bytes, i: nat, st: Scan): (r: Result)
    requires i < |d| && ScanOk(st, i)
    ensures ScanOk(r.scan, i + 1)
  {
    var b := d[i];
    if st.inString then
      if st.escape then Result(st.(escape := false), [])
      else if b == BACKSLASH then Result(st.(escape := true), [])
      else Result(st.(inString := b != QUOTE), [])
    else if b == QUOTE then Result(st.(inString := true), [])
    else if Opens(b) then
      Result(st.(depth := st.depth + 1,
                 elemStart := if st.depth == 1 && st.elemStart == -1 then i else st.elemStart), [])
    else if Closing(b) then
      if st.depth == 2 && st.elemStart != -1 then
        Result(st.(depth := 1, elemStart := -1), [d[st.elemStart..i + 1]])
      else Result(st.(depth := st.depth - 1), [])
    else if b == COMMA then
      if st.depth == 1 && st.elemStart != -1 then
        var scalar := TrimWs(d[st.elemStart..i]);
        Result(st.(elemStart := -1), if |scalar| > 0 && valid(scalar) then [scalar] else [])
      else Result(st, [])
    else if st.depth == 1 && st.elemStart == -1 && !IsWs(b) then
      Result(st.(elemStart := i), [])
    else Result(st, [])
  }

  /** After byte i the top-level array has just been closed. */
  predicate ClosesTop(d: Bytes, i: nat, st: Scan)
    requires i < |d|
  {
    !st.inString && Closing(d[i]) && st.depth == 1
  }

  /** All bytes from s up to e, whatever closes on the way. */
  function Run(valid: Validity, d: Bytes, s: nat, e: nat, st: Scan): (r: Result)
    requires s <= e <= |d| && ScanOk(st, s)
    ensures ScanOk(r.scan, e)
    decreases e - s
  {
    if s == e then Result(st, [])
    else
      var one := Step(valid, d, s, st);
      var more := Run(valid, d, s + 1, e, one.scan);
      Result(more.scan, one.completed + more.completed)
  }

  /** Where one call stops: just after the top-level array closes, or at the end. */
  function Stop(valid: Validity, d: Bytes, s: nat, st: Scan): (e: nat)
    requires s <= |d| && ScanOk(st, s)
    ensures s <= e <= |d|
    ensures s < |d| ==> s < e
    decreases |d| - s
  {
    if s == |d| then s
    else if ClosesTop(d, s, st) then s + 1
    else Stop(valid, d, s + 1, Step(valid, d, s, st).scan)
  }

  class ElementTracker {
    const valid: Validity
    var scanned: nat
    var depth: int
    var inString: bool
    var escape: bool
    var elemStart: int

    constructor (valid: Validity)
      ensures this.valid == valid && scanned == 0 && State() == START
    {
      this.valid := valid;
      scanned, depth, inString, escape, elemStart := 0, 0, false, false, -1;
    }

    function State(): Scan
      reads this
    {
      Scan(depth, inString, escape, elemStart)
    }

    /** One call on the buffer accumulated so far. */
    method Feed(buf: Bytes) returns (completed: seq<Bytes>)
      requires scanned <= |buf| && ScanOk(State(), scanned)
      modifies this
      ensures scanned == Stop(valid, buf, old(scanned), old(State()))
      ensures Result(State(), completed) == Run(valid, buf, old(scanned), scanned, old(State()))
      ensures ScanOk(State(), scanned)
    {
      completed := [];
      ghost var s0, st0 := scanned, State();
      var i := scanned;
      while i < |buf|
        invariant s0 <= i <= |buf| && ScanOk(State(), i) && scanned == s0
        invariant Stop(valid, buf, s0, st0) == Stop(valid, buf, i, State())
        invariant Run(valid, buf, s0, i, st0) == Result(State(), completed)
      {
        RunSnoc(valid, buf, s0, i, st0);
        var elems, closed := Byte(buf, i);
        completed := completed + elems;
        if closed {
          scanned := i + 1;
          return;
        }
        i := i + 1;
      }
      scanned := |buf|;
    }

    /** The loop body of Feed: byte i, and whether it closed the top-level array. */
    method Byte(buf: Bytes, i: nat) returns (elems: seq<Bytes>, closed: bool)
      requires i < |buf| && ScanOk(State(), i)
      modifies this`depth, this`inString, this`escape, this`elemStart
      ensures Result(State(), elems) == Step(valid, buf, i, old(State()))
      ensures closed == ClosesTop(buf, i, old(State()))
    {
      elems, closed := [], false;
      var b := buf[i];
      if inString {
        if escape {
          escape := false;
        } else if b == BACKSLASH {
          escape := true;
        } else if b == QUOTE {
          inString := false;
        }
        return;
      }
      if b == QUOTE {
        inString := true;
      } else if Opens(b) {
        if depth == 1 && elemStart == -1 {
          elemStart := i;
        }
        depth := depth + 1;
      } else if Closing(b) {
        depth := depth - 1;
        if depth == 1 && elemStart != -1 {
          elems := [buf[elemStart..i + 1]];
          elemStart := -1;
        }
        closed := depth == 0;
      } else if b == COMMA {
        if depth == 1 && elemStart != -1 {
          var trimmed := TrimWs(buf[elemStart..i]);
          if |trimmed| > 0 && valid(trimmed) {
            elems := [trimmed];
          }
          elemStart := -1;
        }
      } else if depth == 1 && elemStart == -1 && !IsWs(b) {
        elemStart := i;
      }
    }
  }

  /** At a comma between top-level elements a scalar is reported without the white space
      behind it, exactly if there is one and it is valid. */
  lemma CommaReports(valid: Validity, d: Bytes, i: nat, st: Scan)
    requires i < |d| && ScanOk(st, i) && d[i] == COMMA && !st.inString && st.depth == 1 && st.elemStart != -1
    ensures var r := Step(valid, d, i, st);
      var text := d[st.elemStart..i];
      && r.scan == st.(elemStart := -1) && |r.completed| <= 1
      && (r.completed != [] <==> TrimWs(text) != [] && valid(TrimWs(text)))
      && (r.completed != [] ==> r.completed[0] <= text && forall k :: |r.completed[0]| <= k < |text| ==> IsWs(text[k]))
  {
    TrimWsIs(d[st.elemStart..i]);
  }

  lemma {:induction false} TrimWsIs(s: Bytes)
    ensures var t := TrimWs(s);
      && t <= s && (forall k :: |t| <= k < |s| ==> IsWs(s[k])) && (t != [] ==> !IsWs(t[|t| - 1]))
    decreases |s|
  {
    if s != [] && IsWs(s[|s| - 1]) {
      TrimWsIs(s[..|s| - 1]);
    }
  }

  // ---------- Runs compose ----------

  lemma {:induction false} RunSnoc(valid: Validity, d: Bytes, s: nat, e: nat, st: Scan)
    requires s <= e < |d| && ScanOk(st, s)
    ensures
      var r := Run(valid, d, s, e, st);
      var one := Step(valid, d, e, r.scan);
      Run(valid, d, s, e + 1, st) == Result(one.scan, r.completed + one.completed)
    decreases e - s
  {
    hide Step;
    if s < e {
      RunSnoc(valid, d, s + 1, e, Step(valid, d, s, st).scan);
    } else {
      var one := Step(valid, d, e, st);
      assert Run(valid, d, e + 1, e + 1, one.scan) == Result(one.scan, []);
    }
  }

  lemma {:induction false} RunSplit(valid: Validity, d: Bytes, s: nat, m: nat, e: nat, st: Scan)
    requires s <= m <= e <= |d| && ScanOk(st, s)
    ensures
      var r := Run(valid, d, s, m, st);
      var q := Run(valid, d, m, e, r.scan);
      Run(valid, d, s, e, st) == Result(q.scan, r.completed + q.completed)
    decreases m - s
  {
    hide Step;
    if s < m {
      var one := Step(valid, d, s, st);
      RunSplit(valid, d, s + 1, m, e, one.scan);
      var r := Run(valid, d, s + 1, m, one.scan);
      var q := Run(valid, d, m, e, r.scan);
      assert one.completed + (r.completed + q.completed) == one.completed + r.completed + q.completed;
    }
  }

  /** What a call sees of a buffer that later grows is what it would have seen. */
  lemma {:induction false} RunPrefix(valid: Validity, d: Bytes, n: nat, s: nat, e: nat, st: Scan)
    requires s <= e <= n <= |d| && ScanOk(st, s)
    ensures Run(valid, d[..n], s, e, st) == Run(valid, d, s, e, st)
    decreases e - s
  {
    if s < e {
      StepPrefix(valid, d, n, s, st);
      RunPrefix(valid, d, n, s + 1, e, Step(valid, d, s, st).scan);
    }
  }

  lemma StepPrefix(valid: Validity, d: Bytes, n: nat, i: nat, st: Scan)
    requires i < n <= |d| && ScanOk(st, i)
    ensures Step(valid, d[..n], i, st) == Step(valid, d, i, st)
  {
    if st.elemStart != -1 {
      assert d[..n][st.elemStart..i + 1] == d[st.elemStart..i + 1];
      assert d[..n][st.elemStart..i] == d[st.elemStart..i];
    }
  }

  lemma {:induction false} StopPrefix(valid: Validity, d: Bytes, n: nat, s: nat, st: Scan)
    requires s <= n <= |d| && ScanOk(st, s)
    ensures var e := Stop(valid, d, s, st); Stop(valid, d[..n], s, st) == if e <= n then e else n
    decreases n - s
  {
    if s < n && !ClosesTop(d, s, st) {
      StepPrefix(valid, d, n, s, st);
      StopPrefix(valid, d, n, s + 1, Step(valid, d, s, st).scan);
    }
  }
}
