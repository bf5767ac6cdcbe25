/**
 Request and response correlation of mcp/jsonrpc.go (section 5 of the JSON-RPC 2.0
 specification): concurrent callers, one read loop, a map of pending calls under a
 lock, and a one-slot channel per call. One step per lock or channel operation.
 */
module RpcFramer {
  import opened Basics

  /** The decoded id of an inbound response: JSON numbers arrive as floating point. */
  datatype WireId = NoId | Number(value: real) | OtherId

  datatype Response = Response(id: WireId, payload: nat)

  /** Go's conversion to int64: toward zero. */
  function Truncate(v: real): int {
    if v >= 0.0 then v.Floor else -((-v).Floor)
  }

  predicate IsInteger(v: real) {
    v.Floor as real == v
  }

  /** The channel of one call, with how often it was sent to and closed. */
  datatype Channel = Channel(slot: Option<Response>, closed: bool, sends: nat, closes: nat)

  datatype Outcome = Answered(response: Response) | TransportClosed | ContextDone | EncodeFailed

  /** A call has its number, has entered the pending map, or has returned. */
  datatype Call = Numbered | Waiting | Returned(outcome: Outcome)

  /** The read loop: reading, about to send to the call it has just taken out of the
      map, or finished. */
  datatype Reader = Reading | Delivering(id: int, response: Response) | Finished

  datatype Framer = Framer(
    nextId: nat,
    calls: map<int, Call>,
    channels: map<int, Channel>,
    pending: set<int>,
    reader: Reader)

  datatype Step =
    | NewCall
    | Enter(id: int)
    | EncodeFails(id: int)
    | Inbound(response: Response)
    | Deliver
    | TakeAnswer(id: int)
    | TakeClosed(id: int)
    | GiveUp(id: int)
    | Teardown

  const EMPTY: Channel := Channel(None, false, 0, 0)

  ghost predicate Enabled(f: Framer, step: Step) {
    match step
    case NewCall => true
    case Enter(id) => id in f.calls && f.calls[id].Numbered?
    case EncodeFails(id) => id in f.calls && f.calls[id].Waiting?
    case Inbound(_) => f.reader.Reading?
    case Deliver => f.reader.Delivering? && f.reader.id in f.channels && CanSend(f.channels[f.reader.id])
    case TakeAnswer(id) =>
      id in f.calls && f.calls[id].Waiting? && id in f.channels && f.channels[id].slot.Some?
    case TakeClosed(id) =>
      id in f.calls && f.calls[id].Waiting? && id in f.channels && f.channels[id].slot.None? && f.channels[id].closed
    case GiveUp(id) => id in f.calls && f.calls[id].Waiting?
    case Teardown => f.reader.Reading? && f.pending <= f.channels.Keys
  }

  /** Neither full nor closed: a send goes through at once. */
  predicate CanSend(c: Channel) {
    c.slot.None? && !c.closed
  }

  /** The pending call a response is for, if its id is a number. */
  function Addressee(r: Response): Option<int> {
    if r.id.Number? then Some(Truncate(r.id.value)) else None
  }

  ghost function Apply(f: Framer, step: Step): Framer
    requires Enabled(f, step)
  {
    match step
    case NewCall => f.(nextId := f.nextId + 1, calls := f.calls[f.nextId + 1 := Numbered])
    case Enter(id) =>
      f.(calls := f.calls[id := Waiting], channels := f.channels[id := EMPTY], pending := f.pending + {id})
    case EncodeFails(id) =>
      f.(calls := f.calls[id := Returned(EncodeFailed)], pending := f.pending - {id})
    case Inbound(r) =>
      var to := Addressee(r);
      if to.Some? && to.value in f.pending
      then f.(pending := f.pending - {to.value}, reader := Delivering(to.value, r))
      else f
    case Deliver =>
      var c := f.channels[f.reader.id];
      f.(channels := f.channels[f.reader.id := c.(slot := Some(f.reader.response), sends := c.sends + 1)],
         reader := Reading)
    case TakeAnswer(id) =>
      f.(calls := f.calls[id := Returned(Answered(f.channels[id].slot.value))],
         channels := f.channels[id := f.channels[id].(slot := None)])
    case TakeClosed(id) => f.(calls := f.calls[id := Returned(TransportClosed)])
    case GiveUp(id) => f.(calls := f.calls[id := Returned(ContextDone)], pending := f.pending - {id})
    case Teardown =>
      f.(channels := map id | id in f.channels ::
           if id in f.pending then f.channels[id].(closed := true, closes := f.channels[id].closes + 1)
           else f.channels[id],
         pending := {}, reader := Finished)
  }

  // ---------- The invariant ----------

  ghost predicate CallOk(f: Framer, id: int)
    requires id in f.calls
  {
    && 1 <= id <= f.nextId
    && (f.calls[id].Numbered? <==> id !in f.channels)
    && (f.calls[id].Returned? && f.calls[id].outcome.Answered? ==>
          Addressee(f.calls[id].outcome.response) == Some(id))
  }

  /** At most one message or one close per channel; untouched while the call is
      pending or its answer is in the read loop's hands. */
  ghost predicate ChannelOk(f: Framer, id: int)
    requires id in f.channels
  {
    var c := f.channels[id];
    && id in f.calls
    && c.sends + c.closes <= 1 && (c.closed <==> c.closes == 1)
    && (c.slot.Some? ==> c.sends == 1 && Addressee(c.slot.value) == Some(id))
    && (Undecided(f, id) ==> c == EMPTY)
  }

  ghost predicate Undecided(f: Framer, id: int) {
    id in f.pending || (f.reader.Delivering? && f.reader.id == id)
  }

  ghost predicate Inv(f: Framer) {
    && (forall id :: id in f.calls ==> CallOk(f, id))
    && (forall id :: id in f.channels ==> ChannelOk(f, id))
    && f.pending <= f.channels.Keys
    && (forall id :: id in f.pending ==> f.calls[id].Waiting?)
    && (f.reader.Delivering? ==>
          f.reader.id in f.channels && f.reader.id !in f.pending
          && Addressee(f.reader.response) == Some(f.reader.id))
  }

  lemma CallStep(f: Framer, step: Step, id: int)
    requires Inv(f) && Enabled(f, step) && id in Apply(f, step).calls
    ensures CallOk(Apply(f, step), id)
  {
    if id in f.calls {
      assert CallOk(f, id);
    }
    if id in f.channels {
      assert ChannelOk(f, id);
    }
  }

  lemma ChannelStep(f: Framer, step: Step, id: int)
    requires Inv(f) && Enabled(f, step) && id in Apply(f, step).channels
    ensures ChannelOk(Apply(f, step), id)
  {
    if id in f.channels {
      assert ChannelOk(f, id);
      assert CallOk(f, id);
    }
  }

  lemma InvStep(f: Framer, step: Step)
    requires Inv(f) && Enabled(f, step)
    ensures Inv(Apply(f, step))
  {
    hide CallOk, ChannelOk;
    var f' := Apply(f, step);
    forall id | id in f'.calls ensures CallOk(f', id) {
      CallStep(f, step, id);
    }
    forall id | id in f'.channels ensures ChannelOk(f', id) {
      ChannelStep(f, step, id);
    }
    RestStep(f, step);
  }

  lemma RestStep(f: Framer, step: Step)
    requires Inv(f) && Enabled(f, step)
    ensures var f' := Apply(f, step);
      && f'.pending <= f'.channels.Keys
      && (forall id :: id in f'.pending ==> id in f'.calls && f'.calls[id].Waiting?)
      && (f'.reader.Delivering? ==>
            f'.reader.id in f'.channels && f'.reader.id !in f'.pending
            && Addressee(f'.reader.response) == Some(f'.reader.id))
  {
    forall id | id in f.channels ensures id in f.calls && !f.calls[id].Numbered? {
      assert ChannelOk(f, id) && CallOk(f, id);
    }
    forall id | id in f.calls ensures id <= f.nextId {
      assert CallOk(f, id);
    }
    forall id | id in f.pending ensures f.channels[id] == EMPTY {
      assert ChannelOk(f, id);
    }
  }

  // ---------- Every interleaving ----------

  ghost predicate Behaviour(fs: seq<Framer>, steps: seq<Step>) {
    && |fs| == |steps| + 1 && fs[0] == Framer(0, map[], map[], {}, Reading)
    && forall k :: 0 <= k < |steps| ==> Enabled(fs[k], steps[k]) && fs[k + 1] == Apply(fs[k], steps[k])
  }

  lemma {:induction false} InvAlways(fs: seq<Framer>, steps: seq<Step>, n: nat)
    requires Behaviour(fs, steps) && n < |fs|
    ensures Inv(fs[n])
    decreases n
  {
    if n > 0 {
      InvAlways(fs, steps, n - 1);
      InvStep(fs[n - 1], steps[n - 1]);
    }
  }

  /** A caller is only ever answered with a response whose id truncates to its own;
      that id is its own exactly when it is a whole number. */
  lemma AnswersCorrelate(fs: seq<Framer>, steps: seq<Step>, n: nat, id: int)
    requires Behaviour(fs, steps) && n < |fs| && id in fs[n].calls
    requires fs[n].calls[id].Returned? && fs[n].calls[id].outcome.Answered?
    ensures var wire := fs[n].calls[id].outcome.response.id;
      && wire.Number? && Truncate(wire.value) == id
      && (wire.value == id as real <==> IsInteger(wire.value))
  {
    InvAlways(fs, steps, n);
    assert CallOk(fs[n], id);
  }

  /** Each call's channel gets at most one message or one close, never both. */
  lemma OneSignalPerCall(fs: seq<Framer>, steps: seq<Step>, n: nat, id: int)
    requires Behaviour(fs, steps) && n < |fs| && id in fs[n].channels
    ensures fs[n].channels[id].sends + fs[n].channels[id].closes <= 1
  {
    InvAlways(fs, steps, n);
    assert ChannelOk(fs[n], id);
  }

  /** The read loop's send goes through at once, even when the caller has left. */
  lemma DeliveryNeverBlocks(fs: seq<Framer>, steps: seq<Step>, n: nat)
    requires Behaviour(fs, steps) && n < |fs| && fs[n].reader.Delivering?
    ensures Enabled(fs[n], Deliver)
    ensures var id := fs[n].reader.id;
      id in fs[n].channels && fs[n].channels[id].slot.None? && !fs[n].channels[id].closed
  {
    InvAlways(fs, steps, n);
    assert ChannelOk(fs[n], fs[n].reader.id);
  }

  /** Teardown wakes every call that is still pending: its wait can end at once. */
  lemma TeardownWakes(fs: seq<Framer>, steps: seq<Step>, n: nat, id: int)
    requires Behaviour(fs, steps) && n < |steps| && steps[n] == Teardown && id in fs[n].pending
    ensures Enabled(fs[n + 1], TakeClosed(id))
  {
    InvAlways(fs, steps, n);
    assert ChannelOk(fs[n], id);
  }

  /** An answer is handed to the pending call its id truncates to and to no other:
      a fractional id reaches the call below it. */
  lemma FractionalIdMisdelivers(f: Framer, v: real, payload: nat)
    requires Inv(f) && f.reader.Reading? && Truncate(v) in f.pending
    ensures var r := Response(Number(v), payload);
      var f1 := Apply(f, Inbound(r));
      && Enabled(f1, Deliver)
      && Enabled(Apply(f1, Deliver), TakeAnswer(Truncate(v)))
      && Apply(Apply(f1, Deliver), TakeAnswer(Truncate(v))).calls[Truncate(v)] == Returned(Answered(r))
  {
    assert ChannelOk(f, Truncate(v));
  }

  /** The concrete case: one call, number 1, and a response with id 1.5 that answers it. */
  lemma OnePointFive(payload: nat) returns (fs: seq<Framer>, steps: seq<Step>)
    ensures Behaviour(fs, steps) && !IsInteger(1.5)
    ensures var f := fs[|steps|];
      1 in f.calls && f.calls[1] == Returned(Answered(Response(Number(1.5), payload)))
  {
    assert 1.5.Floor == 1;
    var r := Response(Number(1.5), payload);
    var f0 := Framer(0, map[], map[], {}, Reading);
    var f1 := f0.(nextId := 1, calls := map[1 := Numbered]);
    var f2 := f1.(calls := map[1 := Waiting], channels := map[1 := EMPTY], pending := {1});
    var f3 := f2.(pending := {}, reader := Delivering(1, r));
    var f4 := f2.(pending := {}, channels := map[1 := EMPTY.(slot := Some(r), sends := 1)]);
    var f5 := f4.(calls := map[1 := Returned(Answered(r))], channels := map[1 := EMPTY.(sends := 1)]);
    fs := [f0, f1, f2, f3, f4, f5];
    steps := [NewCall, Enter(1), Inbound(r), Deliver, TakeAnswer(1)];
    assert Apply(f0, NewCall) == f1;
    assert f1.calls[1 := Waiting] == f2.calls && Apply(f1, Enter(1)) == f2;
    assert {1} - {1} == {} && Apply(f2, Inbound(r)) == f3;
    assert f3.channels[1 := f4.channels[1]] == f4.channels && Apply(f3, Deliver) == f4;
    assert f4.calls[1 := f5.calls[1]] == f5.calls && f4.channels[1 := f5.channels[1]] == f5.channels;
    assert Apply(f4, TakeAnswer(1)) == f5;
    forall i | 0 <= i < 5 ensures Enabled(fs[i], steps[i]) && fs[i + 1] == Apply(fs[i], steps[i]) {
      if i == 0 {} else if i == 1 {} else if i == 2 {} else if i == 3 {} else {}
    }
  }

  // ---------- What the steps achieve ----------

  /** Truncation drops the fraction, toward zero, and nothing else. */
  lemma TruncateIs(v: real)
    ensures v >= 0.0 ==> Truncate(v) as real <= v < Truncate(v) as real + 1.0
    ensures v <= 0.0 ==> Truncate(v) as real - 1.0 < v <= Truncate(v) as real
  {}

  /** Calls other than this one are as they were. */
  ghost predicate OtherCalls(f: Framer, f': Framer, id: int) {
    forall k :: k in f.calls && k != id ==> k in f'.calls && f'.calls[k] == f.calls[k]
  }

  lemma NumbersBelow(f: Framer)
    requires Inv(f)
    ensures forall id :: id in f.calls ==> id <= f.nextId
  {
    forall id | id in f.calls ensures id <= f.nextId {
      assert CallOk(f, id);
    }
  }

  /** Numbers are never used twice. */
  lemma NumbersAreFresh(fs: seq<Framer>, steps: seq<Step>, n: nat) returns (id: int)
    requires Behaviour(fs, steps) && n < |fs|
    ensures Enabled(fs[n], NewCall)
    ensures var f, f' := fs[n], Apply(fs[n], NewCall);
      id !in f.calls && f'.calls == f.calls[id := Numbered] && f'.pending == f.pending && f'.reader == f.reader
  {
    InvAlways(fs, steps, n);
    id := fs[n].nextId + 1;
    NumbersBelow(fs[n]);
  }

  /** A call enters the map with an empty channel of its own. It can give up or fail to be
      sent at any time while it waits, and is then no longer pending; what it takes
      from its channel is what was sent there, or the end of the transport. */
  lemma CallerStep(fs: seq<Framer>, steps: seq<Step>, n: nat, id: int)
    requires Behaviour(fs, steps) && n < |steps|
    requires var step := steps[n];
      step == Enter(id) || step == EncodeFails(id) || step == GiveUp(id) || step == TakeAnswer(id) || step == TakeClosed(id)
    ensures var f, f', step := fs[n], fs[n + 1], steps[n];
      && id in f.calls && id in f'.calls && OtherCalls(f, f', id) && f'.reader == f.reader
      && (step.Enter? ==> f'.calls[id] == Waiting && f'.pending == f.pending + {id} && f'.channels == f.channels[id := EMPTY])
      && (step.EncodeFails? ==> f'.calls[id] == Returned(EncodeFailed) && f'.pending == f.pending - {id})
      && (step.GiveUp? ==> f'.calls[id] == Returned(ContextDone) && f'.pending == f.pending - {id})
      && (step.TakeAnswer? ==>
            id in f.channels && f.channels[id].slot.Some? && f'.calls[id] == Returned(Answered(f.channels[id].slot.value)))
      && (step.TakeClosed? ==> id in f.channels && f.channels[id].closed && f'.calls[id] == Returned(TransportClosed))
  {}

  lemma WaitingCanLeave(f: Framer, id: int)
    requires id in f.calls && f.calls[id].Waiting?
    ensures Enabled(f, GiveUp(id)) && Enabled(f, EncodeFails(id))
  {}

  lemma NumberedCanEnter(f: Framer, id: int)
    requires id in f.calls && f.calls[id].Numbered?
    ensures Enabled(f, Enter(id))
  {}

  /** While it reads, the loop accepts any message and can be torn down; a message that is
      for no pending call changes nothing. */
  lemma ReaderIsOpen(fs: seq<Framer>, steps: seq<Step>, n: nat, r: Response)
    requires Behaviour(fs, steps) && n < |fs| && fs[n].reader.Reading?
    ensures Enabled(fs[n], Inbound(r)) && Enabled(fs[n], Teardown)
    ensures (r.id.Number? ==> Truncate(r.id.value) !in fs[n].pending) ==> Apply(fs[n], Inbound(r)) == fs[n]
  {
    InvAlways(fs, steps, n);
  }

  /** A delivery fills the one-slot channel, which is empty and open, and touches no
      other. */
  lemma DeliveryFills(fs: seq<Framer>, steps: seq<Step>, n: nat)
    requires Behaviour(fs, steps) && n < |steps| && steps[n].Deliver?
    ensures var f, f' := fs[n], fs[n + 1];
      && f.reader.Delivering? && f.reader.id in f.channels && f.reader.id in f'.channels
      && f.channels[f.reader.id].slot.None? && !f.channels[f.reader.id].closed
      && f'.channels[f.reader.id].slot == Some(f.reader.response)
      && (forall k :: k in f.channels && k != f.reader.id ==> k in f'.channels && f'.channels[k] == f.channels[k])
      && f'.calls == f.calls && f'.pending == f.pending && f'.reader.Reading?
  {
    InvAlways(fs, steps, n);
    assert ChannelOk(fs[n], fs[n].reader.id);
  }

  /** Teardown closes exactly the channels of pending calls, and ends the read loop for
      good. */
  lemma {:induction false} TornDownForever(fs: seq<Framer>, steps: seq<Step>, n: nat, m: nat)
    requires Behaviour(fs, steps) && n < m < |fs| && steps[n].Teardown?
    ensures fs[n + 1].pending == {} && fs[n + 1].channels.Keys == fs[n].channels.Keys
    ensures forall id :: id in fs[n].channels && id in fs[n + 1].channels ==>
      fs[n + 1].channels[id].closed == (fs[n].channels[id].closed || id in fs[n].pending)
    ensures fs[m].reader == Finished && forall k :: n < k < m ==> !steps[k].Teardown? && !steps[k].Inbound? && !steps[k].Deliver?
    decreases m
  {
    if n + 1 < m {
      TornDownForever(fs, steps, n, m - 1);
      FinishedStep(fs[m - 1], steps[m - 1]);
    }
  }

  lemma FinishedStep(f: Framer, step: Step)
    requires Enabled(f, step) && f.reader == Finished
    ensures !step.Teardown? && !step.Inbound? && !step.Deliver? && Apply(f, step).reader == Finished
  {}
}
