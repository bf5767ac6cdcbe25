/**
 String bodies in full, as section 7 of RFC 8259 defines them. The parser only pairs
 a backslash with the next byte, so a cut inside the four digits of a \u escape
 leaves a body that is not JSON; every other cut of a document leaves one that is.
 */
module PartialJsonStrings {
  import opened Basics
  import opened Octets
  import opened Json
  import opened PartialJson
  import opened PartialJsonRoundTrip
  import opened PartialJsonCut

  const LOWER_U: byte := 0x75

  /** The bytes that may stand alone behind a backslash. */
  const ESCAPED: Bytes := [QUOTE, BACKSLASH, 0x2F, 0x62, LOWER_F, LOWER_N, 0x72, LOWER_T]

  predicate IsHex(b: byte) {
    IsDigit(b) || 0x41 <= b <= 0x46 || 0x61 <= b <= 0x66
  }

  /** Bytes of the plain byte or escape that b begins with, 0 if it begins with none. */
  function UnitLen(b: Bytes): (n: nat)
    requires b != []
    ensures n <= |b| && n in [0, 1, 2, 6]
  {
    if b[0] == BACKSLASH then
      if |b| >= 2 && b[1] in ESCAPED then 2
      else if |b| >= 6 && b[1] == LOWER_U && forall i :: 2 <= i < 6 ==> IsHex(b[i]) then 6
      else 0
    else if b[0] < 0x20 || b[0] == QUOTE then 0
    else 1
  }

  predicate StringBody(b: Bytes) {
    b == [] || (UnitLen(b) > 0 && StringBody(b[UnitLen(b)..]))
  }

  /** All strings and keys are. */
  ghost predicate Strict(t: Json) {
    match t
    case Str(body) => StringBody(body)
    case Arr(es) => StrictElems(es)
    case Obj(ms) => StrictMembers(ms)
    case _ => true
  }

  ghost predicate StrictElems(es: Elems) {
    es.ECons? ==> Strict(es.head) && StrictElems(es.tail)
  }

  ghost predicate StrictMembers(ms: Members) {
    ms.MCons? ==> StringBody(ms.key) && Strict(ms.val) && StrictMembers(ms.rest)
  }

  // ---------- Where a cut does harm ----------

  /** k bytes into the body one is among the digits of an escape. */
  predicate Splits(b: Bytes, k: nat) {
    b != [] && UnitLen(b) > 0 &&
    if k < UnitLen(b) then k >= 2 else Splits(b[UnitLen(b)..], k - UnitLen(b))
  }

  /** m bytes into the layout one is among the digits of an escape of a string value. */
  ghost predicate SplitsEscape(w: Doc, m: nat) {
    0 < m < |Layout(w)| &&
    match w
    case DAtom(t) => t.Str? && Splits(t.body, m - 1)
    case DArr(es, _) => SplitsInElems(es, true, m - 1)
    case DObj(ms, _) => SplitsInMembers(ms, true, m - 1)
  }

  ghost predicate SplitsInElems(es: DElems, first: bool, m: nat) {
    match es
    case DENil => false
    case DECons(before, after, head, tail) =>
      var lead := |Lead(before, first, after)|;
      var end := lead + |Layout(head)|;
      if m <= lead then false
      else if m < end then SplitsEscape(head, m - lead)
      else SplitsInElems(tail, false, m - end)
  }

  ghost predicate SplitsInMembers(ms: DMembers, first: bool, m: nat) {
    match ms
    case DMNil => false
    case DMCons(_, _, _, _, _, val, rest) =>
      var opening := |Opening(ms, first)|;
      var end := opening + |Layout(val)|;
      if m <= opening then false
      else if m < end then SplitsEscape(val, m - opening)
      else SplitsInMembers(rest, false, m - end)
  }

  /** m bytes into the layout one is among the digits of an escape of a key. */
  ghost predicate SplitsKey(w: Doc, m: nat) {
    0 < m < |Layout(w)| &&
    match w
    case DAtom(_) => false
    case DArr(es, _) => SplitsKeyInElems(es, true, m - 1)
    case DObj(ms, _) => SplitsKeyInMembers(ms, true, m - 1)
  }

  ghost predicate SplitsKeyInElems(es: DElems, first: bool, m: nat) {
    match es
    case DENil => false
    case DECons(before, after, head, tail) =>
      var lead := |Lead(before, first, after)|;
      var end := lead + |Layout(head)|;
      if m <= lead then false
      else if m < end then SplitsKey(head, m - lead)
      else SplitsKeyInElems(tail, false, m - end)
  }

  ghost predicate SplitsKeyInMembers(ms: DMembers, first: bool, m: nat) {
    match ms
    case DMNil => false
    case DMCons(before, after, key, _, _, val, rest) =>
      var lead, opening := |Lead(before, first, after)|, |Opening(ms, first)|;
      var end := opening + |Layout(val)|;
      if m <= lead then false
      else if m <= opening then Splits(key, m - lead - 1)
      else if m < end then SplitsKey(val, m - opening)
      else SplitsKeyInMembers(rest, false, m - end)
  }

  // ---------- One body ----------

  lemma CutFirst(b: Bytes, k: nat)
    requires b != [] && k > 0 && b[0] != BACKSLASH
    ensures CutBody(b, k) == [b[0]] + CutBody(b[1..], k - 1)
  {}

  lemma {:induction false} CutPlain(b: Bytes, j: nat, k: nat)
    requires j <= |b| && j <= k && forall i :: 0 <= i < j ==> b[i] != BACKSLASH
    ensures CutBody(b, k) == b[..j] + CutBody(b[j..], k - j)
    decreases j
  {
    hide CutBody;
    if j > 0 {
      CutFirst(b, k);
      CutPlain(b[1..], j - 1, k - 1);
      assert b[..j] == [b[0]] + b[1..][..j - 1];
      assert b[1..][j - 1..] == b[j..];
    } else {
      assert b[0..] == b;
    }
  }

  lemma CutUnit(b: Bytes, k: nat)
    requires b != [] && 0 < UnitLen(b) <= k
    ensures CutBody(b, k) == b[..UnitLen(b)] + CutBody(b[UnitLen(b)..], k - UnitLen(b))
  {
    if UnitLen(b) == 6 {
      CutPlain(b[2..], 4, k - 2);
      assert b[..2] + b[2..][..4] == b[..6] && b[2..][4..] == b[6..];
    }
  }

  lemma CutInsideUnit(b: Bytes, k: nat)
    requires b != [] && k < UnitLen(b)
    ensures CutBody(b, k) == if k < 2 then [] else b[..k]
  {
    if k >= 2 {
      CutPlain(b[2..], k - 2, k - 2);
      assert b[..2] + b[2..][..k - 2] == b[..k];
    }
  }

  lemma {:induction false} CutStringBody(b: Bytes, k: nat)
    requires StringBody(b)
    ensures StringBody(CutBody(b, k)) <==> !Splits(b, k)
    decreases |b|
  {
    if b != [] {
      var n := UnitLen(b);
      if k < n {
        CutInsideUnit(b, k);
      } else {
        CutUnit(b, k);
        CutStringBody(b[n..], k - n);
        var c := CutBody(b, k);
        assert c[n..] == CutBody(b[n..], k - n);
        assert UnitLen(c) == n;
      }
    }
  }

  // ---------- Documents ----------

  /** A key is split only while it is pending, and then it does not read as a string. */
  lemma {:induction false} PendingKeyStrict(w: Doc, m: nat)
    requires Strict(Erase(w))
    ensures SplitsKey(w, m) <==> Pending(w, m) && !StringBody(PendingKey(w, m).value)
    decreases w
  {
    hide Layout;
    if 0 < m < |Layout(w)| {
      match w
      case DAtom(_) =>
      case DArr(es, _) => PendingKeyStrictElems(es, true, m - 1);
      case DObj(ms, _) => PendingKeyStrictMembers(ms, true, m - 1);
    }
  }

  lemma {:induction false} PendingKeyStrictElems(es: DElems, first: bool, m: nat)
    requires StrictElems(EraseElems(es))
    ensures var k := PendingKeyElems(es, first, m);
      SplitsKeyInElems(es, first, m) <==> k.Some? && !StringBody(k.value)
    decreases es
  {
    hide Layout, Lead, StringBody, SplitsKey, PendingKey;
    if es.DECons? {
      var lead := |Lead(es.before, first, es.after)|;
      var end := lead + |Layout(es.head)|;
      if lead < m < end {
        PendingKeyStrict(es.head, m - lead);
      } else if m >= end {
        PendingKeyStrictElems(es.tail, false, m - end);
      }
    }
  }

  lemma {:induction false} PendingKeyStrictMembers(ms: DMembers, first: bool, m: nat)
    requires StrictMembers(EraseMembers(ms))
    ensures var k := PendingKeyMembers(ms, first, m);
      SplitsKeyInMembers(ms, first, m) <==> k.Some? && !StringBody(k.value)
    decreases ms
  {
    hide Layout, Lead, Opening, StringBody, SplitsKey, PendingKey, CutBody, Splits, KeptAtom;
    if ms.DMCons? {
      var lead, opening := |Lead(ms.before, first, ms.after)|, |Opening(ms, first)|;
      var end := opening + |Layout(ms.val)|;
      if lead < m <= opening {
        CutStringBody(ms.key, m - lead - 1);
      } else if opening < m < end {
        PendingKeyStrict(ms.val, m - opening);
        AtomsHaveNoKeys(ms.val, m - opening);
      } else if m >= end {
        PendingKeyStrictMembers(ms.rest, false, m - end);
      }
    }
  }

  lemma AtomsHaveNoKeys(w: Doc, m: nat)
    ensures w.DAtom? ==> !SplitsKey(w, m)
  {}

  /** m bytes into the layout one is among the digits of an escape that the snapshot
      shows: of a string value, or of a key that an open array takes for an element. */
  ghost predicate SplitsShown(w: Doc, m: nat) {
    SplitsEscape(w, m) || (ArrayOpen(w, m) && SplitsKey(w, m))
  }

  lemma StrayStrict(w: Doc, m: nat)
    requires Strict(Erase(w))
    ensures StrictElems(Stray(w, m)) <==> ArrayOpen(w, m) || !SplitsKey(w, m)
  {
    hide SplitsKey, PendingKey, ArrayOpen, StringBody;
    PendingKeyStrict(w, m);
    if Pending(w, m) {
      OneString(PendingKey(w, m).value);
    }
  }

  lemma OneString(body: Bytes)
    ensures StrictElems(ECons(Str(body), ENil)) <==> StringBody(body)
  {}

  lemma EraseParts(w: Doc)
    requires Strict(Erase(w))
    ensures w.DArr? ==> StrictElems(EraseElems(w.elems))
    ensures w.DObj? ==> StrictMembers(EraseMembers(w.members))
  {}

  lemma {:induction false} ShownStrict(w: Doc, m: nat)
    requires Strict(Erase(w))
    ensures Shown(w, m).None? ==> !SplitsShown(w, m) && !SplitsKey(w, m)
    ensures Shown(w, m).Some? ==> (Strict(Shown(w, m).value) <==> !SplitsShown(w, m))
    decreases w
  {
    hide Layout, CutBody, StringBody, Splits, ShownElems, ShownMembers, SplitsInElems, SplitsInMembers,
      SplitsKeyInElems, SplitsKeyInMembers, ArrayOpenMembers, StrictElems, StrictMembers, EraseElems, EraseMembers;
    EraseParts(w);
    if 0 < m < |Layout(w)| {
      match w
      case DAtom(t) =>
        if t.Str? {
          CutStringBody(t.body, m - 1);
        }
      case DArr(es, _) => ShownStrictElems(es, true, m - 1);
      case DObj(ms, _) => ShownStrictMembers(ms, true, m - 1);
    }
  }

  lemma {:induction false} ShownStrictElems(es: DElems, first: bool, m: nat)
    requires StrictElems(EraseElems(es))
    ensures StrictElems(ShownElems(es, first, m)) <==> !SplitsInElems(es, first, m) && !SplitsKeyInElems(es, first, m)
    decreases es
  {
    hide Layout, Lead, Stray, StringBody, SplitsEscape, SplitsKey, ArrayOpen, Shown;
    if es.DECons? {
      var lead := |Lead(es.before, first, es.after)|;
      var end := lead + |Layout(es.head)|;
      if lead < m < end {
        ShownStrict(es.head, m - lead);
        StrayStrict(es.head, m - lead);
        ElemsSpecCut(es, first, m);
      } else if m >= end {
        WholeShown(es.head, m - lead);
        ShownStrictElems(es.tail, false, m - end);
      }
    }
  }

  lemma {:induction false} ShownStrictMembers(ms: DMembers, first: bool, m: nat)
    requires StrictMembers(EraseMembers(ms))
    ensures StrictMembers(ShownMembers(ms, first, m)) <==>
      !SplitsInMembers(ms, first, m) && !(ArrayOpenMembers(ms, first, m) && SplitsKeyInMembers(ms, first, m))
    decreases ms
  {
    hide Layout, Lead, Opening, StringBody, SplitsEscape, SplitsKey, ArrayOpen, Shown, Splits;
    if ms.DMCons? {
      var opening := |Opening(ms, first)|;
      var end := opening + |Layout(ms.val)|;
      LeadInOpening(ms, first);
      if opening < m < end {
        ShownStrict(ms.val, m - opening);
      } else if m >= end {
        WholeShown(ms.val, m - opening);
        ShownStrictMembers(ms.rest, false, m - end);
      }
    }
  }

  /** A JSON document with any white space, cut anywhere: the snapshot is JSON, string
      bodies included, if and only if the cut splits no escape that it shows. */
  lemma SnapshotIsStrict(w: Doc, lead: Bytes, trail: Bytes, n: nat)
    requires DocOk(w) && Strict(Erase(w)) && AllWs(lead) && AllWs(trail) && n <= |lead + Layout(w) + trail|
    ensures var m := Reached(lead, n);
      match Shown(w, m)
      case None => PartialJSON((lead + Layout(w) + trail)[..n]) == NoSnapshot
      case Some(t) =>
        && PartialJSON((lead + Layout(w) + trail)[..n]) == Snapshot(Print(t))
        && (Strict(t) <==> !SplitsShown(w, m))
  {
    hide Layout, ParseValue, Shown, Strict, SplitsShown, Print;
    ParseIsShown(w, lead, trail, n);
    ShownStrict(w, Reached(lead, n));
  }

  // ---------- The failing cases ----------

  const SHORT: Bytes := [BACKSLASH, LOWER_U, 0x31]

  /** `"\u1` snapshots to `"\u1"`, whose escape is incomplete. */
  lemma ShortEscapeKept()
    ensures PartialJSON([QUOTE] + SHORT) == Snapshot(Quoted(SHORT)) && !Strict(Str(SHORT))
  {
    var d := [QUOTE] + SHORT;
    assert ParseBody(d, 4) == PBody([], 4);
    assert ParseBody(d, 3) == PBody([0x31], 4);
    assert ParseBody(d, 1) == PBody(SHORT, 4);
    assert SkipWs(d, 0) == 0;
  }

  const OPENED_SHORT: Bytes := [LBRACKET, LBRACE, QUOTE] + SHORT

  /** The tree of `[{},"\u1"]`. */
  const SHORT_TAKEN: Json := Arr(ECons(Obj(MNil), ECons(Str(SHORT), ENil)))

  lemma ShortKeyRead()
    ensures ParseBody(OPENED_SHORT, 3) == PBody(SHORT, 6)
  {
    assert ParseBody(OPENED_SHORT, 6) == PBody([], 6);
    assert ParseBody(OPENED_SHORT, 5) == PBody([0x31], 6);
  }

  lemma ShortKeyDropped()
    ensures ParseValue(OPENED_SHORT, 1) == Ok(Obj(MNil), 2)
  {
    ShortKeyRead();
    assert SkipWs(OPENED_SHORT, 6) == 6 && SkipWs(OPENED_SHORT, 2) == 2 && SkipWs(OPENED_SHORT, 1) == 1;
    assert ParseKey(OPENED_SHORT, 2) == NoKey;
    assert ParseMembers(OPENED_SHORT, 2, true) == PMembers(MNil, 2);
  }

  lemma ShortKeyBack()
    ensures ParseValue(OPENED_SHORT, 0) == Ok(SHORT_TAKEN, 6)
  {
    ShortKeyRead();
    ShortKeyDropped();
    var d := OPENED_SHORT;
    assert SkipWs(d, 6) == 6 && SkipWs(d, 2) == 2 && SkipWs(d, 1) == 1 && SkipWs(d, 0) == 0;
    ParseQuote(d, 2);
    assert ParseElems(d, 6, false) == PElems(ENil, 6);
    assert ParseElems(d, 2, false) == PElems(ECons(Str(SHORT), ENil), 6);
    assert ParseElems(d, 1, true) == PElems(SHORT_TAKEN.elems, 6);
  }

  /** `[{"\u1` snapshots to `[{},"\u1"]`: the key has become an element, and its escape
      is incomplete. */
  lemma ShortKeyTaken()
    ensures PartialJSON(OPENED_SHORT) == Snapshot(Print(SHORT_TAKEN)) && !Strict(SHORT_TAKEN)
  {
    hide ParseValue, Print;
    ShortKeyBack();
    assert !StrictElems(ECons(Str(SHORT), ENil));
  }
}
