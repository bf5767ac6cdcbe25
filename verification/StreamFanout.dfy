/**
 The stream wrapper of agent/stream.go: one goroutine dispatches every event to all
 subscribers under a lock, late channel subscribers are first served the replay
 ring, and consumers drain their channels at any moment, also while the lock is held.
 */
module StreamFanout {
  import opened Basics

  datatype StreamEvent = StreamEvent(kind: string, content: string)

  /** What the wrapper sends to a subscriber it gives up on. */
  const DROPPED: StreamEvent := StreamEvent("stream-warning", "subscriber-dropped")

  const BUFFER: nat := 32

  /** The first event a subscriber arriving now is served. */
  function WindowStart(n: nat, limit: nat): nat {
    n - Min(n, limit)
  }

  // ---------- The replay ring ----------

  lemma Wraps(i: nat, n: nat)
    requires n > 0 && i < 2 * n
    ensures i % n == if i < n then i else i - n
  {}

  /** Events overwrite the oldest slot once the ring is full. */
  class ReplayRing {
    var replay: seq<StreamEvent>
    var head: nat
    const limit: nat
    ghost var dispatched: seq<StreamEvent>

    constructor (limit: nat)
      requires limit > 0
      ensures Valid() && dispatched == [] && this.limit == limit
    {
      replay, head, dispatched := [], 0, [];
      this.limit := limit;
    }

    ghost predicate Valid()
      reads this
    {
      && limit > 0
      && |replay| == Min(|dispatched|, limit)
      && head < limit && (|replay| < limit ==> head == 0)
      && forall i :: 0 <= i < |replay| ==> dispatched[|dispatched| - |replay| + i] == replay[Slot(head, i, limit)]
    }

    /** The ring half of dispatch. */
    method Push(ev: StreamEvent)
      requires Valid()
      modifies this
      ensures Valid() && dispatched == old(dispatched) + [ev]
    {
      if |replay| < limit {
        replay := replay + [ev];
      } else {
        replay := replay[head := ev];
        head := head + 1;
        if head == limit {
          head := 0;
        }
      }
      dispatched := dispatched + [ev];
      ghost var n := |replay|;
      forall i | 0 <= i < n ensures dispatched[|dispatched| - n + i] == replay[Slot(head, i, limit)] {
        if i < n - 1 && n == old(|replay|) {
          assert Slot(head, i, limit) == Slot(old(head), i + 1, limit) != old(head);
        }
      }
    }

    /** The replay loop of subscribe, into a fresh channel nobody reads yet: the
        window oldest first, cut at the buffer. The warning never fits. */
    method Replay() returns (sent: seq<StreamEvent>, fits: bool)
      requires Valid()
      ensures var from := WindowStart(|dispatched|, limit);
        && sent == dispatched[from..][..Min(32, |dispatched| - from)]
        && (fits <==> |dispatched| - from <= 32)
      ensures var r := Arrival(Fanout(limit, dispatched, [], Idle)); sent == r.buffer && (fits <==> !r.dropped)
    {
      sent := [];
      var n := |replay|;
      ghost var window := dispatched[WindowStart(|dispatched|, limit)..];
      for i := 0 to n
        invariant i <= BUFFER && sent == window[..i]
      {
        Wraps(head + i, n);
        var ev := replay[(head + i) % n];
        assert ev == window[i] by {
          assert replay[Slot(head, i, limit)] == dispatched[|dispatched| - n + i];
        }
        assert window[..i + 1] == window[..i] + [window[i]];
        if |sent| < BUFFER {
          sent := sent + [ev];
        } else {
          if |sent| < BUFFER {
            sent := sent + [DROPPED];
          }
          return sent, false;
        }
      }
      return sent, true;
    }
  }

  /** Where the i-th oldest event sits. */
  function Slot(head: nat, i: nat, limit: nat): nat
    requires head < limit && i < limit
  {
    if head + i < limit then head + i else head + i - limit
  }

  // ---------- The fan-out as a transition system ----------

  /** A subscriber, with where its events begin. `upTo`, `mark`, `warned` and `closes`
      are history: how far it was served, how much had been received when it was
      dropped, whether the warning got in, and how often its channel was closed. */
  datatype Subscriber =
    | Reader(from: nat, upTo: nat, received: seq<StreamEvent>, buffer: seq<StreamEvent>,
             listed: bool, dropped: bool, mark: nat, warned: bool, closes: nat)
    | Callback(from: nat, filter: string, calls: seq<StreamEvent>, listed: bool)

  /** What the run goroutine is doing. Offering and Dropping hold the lock. */
  datatype Phase =
    | Idle
    | Offering(at: nat, toDrop: seq<nat>, toCall: seq<nat>)
    | Dropping(toDrop: seq<nat>, toCall: seq<nat>)
    | Calling(toCall: seq<nat>)
    | Finished

  datatype Fanout = Fanout(limit: nat, history: seq<StreamEvent>, subs: seq<Subscriber>, phase: Phase)

  datatype Step =
    | Dispatch(ev: StreamEvent)
    | Offer
    | EndOffers
    | Drop
    | EndDrops
    | Call
    | EndCalls
    | Finalize
    | Subscribe
    | OnEvent(filter: string)
    | Receive(id: nat)

  predicate LockFree(f: Fanout) {
    f.phase.Idle? || f.phase.Calling? || f.phase.Finished?
  }

  predicate Enabled(f: Fanout, step: Step) {
    match step
    case Dispatch(_) => f.phase.Idle?
    case Offer => f.phase.Offering? && f.phase.at < |f.subs| && f.history != []
    case EndOffers => f.phase.Offering? && f.phase.at == |f.subs|
    case Drop => f.phase.Dropping? && f.phase.toDrop != [] && IsReader(f, f.phase.toDrop[0])
    case EndDrops => f.phase.Dropping? && f.phase.toDrop == []
    case Call => f.phase.Calling? && f.phase.toCall != [] && IsCallback(f, f.phase.toCall[0]) && f.history != []
    case EndCalls => f.phase.Calling? && f.phase.toCall == []
    case Finalize => f.phase.Idle?
    case Subscribe => LockFree(f)
    case OnEvent(_) => LockFree(f)
    case Receive(id) => IsReader(f, id) && f.subs[id].buffer != []
  }

  predicate IsReader(f: Fanout, id: nat) {
    id < |f.subs| && f.subs[id].Reader?
  }

  predicate IsCallback(f: Fanout, id: nat) {
    id < |f.subs| && f.subs[id].Callback?
  }

  /** A channel subscriber as subscribe leaves it: fully replayed and registered, or
      cut off at the buffer and closed, or, after the end, replayed and closed. */
  function Arrival(f: Fanout): (r: Subscriber)
    ensures r.Reader?
  {
    var n := |f.history|;
    var from := WindowStart(n, f.limit);
    var fits := n - from <= BUFFER;
    var upTo := if fits then n else from + BUFFER;
    var open := fits && !f.phase.Finished?;
    Reader(from, upTo, [], f.history[from..upTo], open, !fits, 0, false, if open then 0 else 1)
  }

  /** A non-blocking send of the event, or the subscriber is marked dropped. */
  function Offered(r: Subscriber, ev: StreamEvent): (r': Subscriber)
    requires r.Reader?
    ensures r'.Reader?
  {
    if |r.buffer| < BUFFER then r.(buffer := r.buffer + [ev], upTo := r.upTo + 1)
    else r.(dropped := true, mark := |r.received|)
  }

  /** A non-blocking send of the warning, then close. */
  function Ended(r: Subscriber): (r': Subscriber)
    requires r.Reader?
    ensures r'.Reader?
  {
    var room := |r.buffer| < BUFFER;
    r.(buffer := if room then r.buffer + [DROPPED] else r.buffer, warned := room, closes := r.closes + 1)
  }

  /** The callback runs when its filter is empty or names the event's type. */
  predicate Matches(filter: string, ev: StreamEvent) {
    filter == "" || filter == ev.kind
  }

  function Called(c: Subscriber, ev: StreamEvent): (c': Subscriber)
    requires c.Callback?
    ensures c'.Callback?
  {
    if Matches(c.filter, ev) then c.(calls := c.calls + [ev]) else c
  }

  function Taken(r: Subscriber): (r': Subscriber)
    requires r.Reader? && r.buffer != []
    ensures r'.Reader?
  {
    r.(received := r.received + [r.buffer[0]], buffer := r.buffer[1..])
  }

  /** The end of the run closes what is still open and forgets everyone. */
  function Dismissed(s: Subscriber): Subscriber {
    match s
    case Reader(from, upTo, received, buffer, listed, dropped, mark, warned, closes) =>
      Reader(from, upTo, received, buffer, false, dropped, mark, warned,
             if listed && !dropped then closes + 1 else closes)
    case Callback(from, filter, calls, _) => Callback(from, filter, calls, false)
  }

  function OfferAt(f: Fanout): Fanout
    requires Enabled(f, Offer)
  {
    var i, ev := f.phase.at, f.history[|f.history| - 1];
    var s := f.subs[i];
    if s.Callback? then
      if s.listed then f.(phase := f.phase.(at := i + 1, toCall := f.phase.toCall + [i]))
      else f.(phase := f.phase.(at := i + 1))
    else if !s.listed || s.dropped then f.(phase := f.phase.(at := i + 1))
    else if |s.buffer| < BUFFER then f.(subs := f.subs[i := Offered(s, ev)], phase := f.phase.(at := i + 1))
    else f.(subs := f.subs[i := Offered(s, ev)], phase := f.phase.(at := i + 1, toDrop := f.phase.toDrop + [i]))
  }

  function Apply(f: Fanout, step: Step): Fanout
    requires Enabled(f, step)
  {
    match step
    case Dispatch(ev) => f.(history := f.history + [ev], phase := Offering(0, [], []))
    case Offer => OfferAt(f)
    case EndOffers => f.(phase := Dropping(f.phase.toDrop, f.phase.toCall))
    case Drop =>
      var id := f.phase.toDrop[0];
      f.(subs := f.subs[id := Ended(f.subs[id])], phase := Dropping(f.phase.toDrop[1..], f.phase.toCall))
    case EndDrops => f.(phase := Calling(f.phase.toCall))
    case Call =>
      var id := f.phase.toCall[0];
      f.(subs := f.subs[id := Called(f.subs[id], f.history[|f.history| - 1])],
         phase := Calling(f.phase.toCall[1..]))
    case EndCalls => f.(phase := Idle)
    case Finalize => f.(subs := seq(|f.subs|, i requires 0 <= i < |f.subs| => Dismissed(f.subs[i])), phase := Finished)
    case Subscribe => f.(subs := f.subs + [Arrival(f)])
    case OnEvent(filter) => f.(subs := f.subs + [Callback(|f.history|, filter, [], true)])
    case Receive(id) => f.(subs := f.subs[id := Taken(f.subs[id])])
  }

  // ---------- The invariant ----------

  /** Channels given up on in this dispatch and not closed yet. */
  function Doomed(p: Phase): seq<nat> {
    if p.Offering? || p.Dropping? then p.toDrop else []
  }

  function ToCall(p: Phase): seq<nat> {
    if p.Offering? || p.Dropping? || p.Calling? then p.toCall else []
  }

  /** The subscriber has not been offered the newest event yet. */
  predicate Awaits(p: Phase, id: nat) {
    p.Offering? && p.at <= id
  }

  /** Everything that ever entered the channel is a stretch of the history, then
      perhaps the warning. */
  predicate Served(h: seq<StreamEvent>, r: Subscriber)
    requires r.Reader?
  {
    && r.from <= r.upTo <= |h|
    && r.received + r.buffer == h[r.from..r.upTo] + if r.warned then [DROPPED] else []
  }

  /** A channel subscriber in a stream with history h: given up on but not closed yet
      (doomed), not offered the newest event yet (awaits), the run over or not. */
  predicate ReaderFits(h: seq<StreamEvent>, r: Subscriber, doomed: bool, awaits: bool, over: bool)
    requires r.Reader?
  {
    && Served(h, r)
    && |r.buffer| <= BUFFER
    && (r.warned ==> r.dropped && r.closes == 1)
    && r.closes == (if r.listed && (!r.dropped || doomed) then 0 else 1)
    && (r.dropped ==> r.upTo < |h|)
    && (!r.dropped ==> r.upTo == |h| - if awaits && r.listed then 1 else 0)
    && (!r.dropped && !r.listed ==> over)
    && (over ==> !r.listed)
    && (doomed ==> r.dropped && r.listed && r.mark <= |r.received| && |r.received| + |r.buffer| == r.mark + BUFFER)
  }

  function Matching(h: seq<StreamEvent>, filter: string): seq<StreamEvent> {
    if h == [] then []
    else Matching(h[..|h| - 1], filter) + if Matches(filter, h[|h| - 1]) then [h[|h| - 1]] else []
  }

  /** A callback, which may still be owed the newest event. */
  predicate CallbackFits(h: seq<StreamEvent>, c: Subscriber, owed: bool, over: bool)
    requires c.Callback?
  {
    var n := |h| - if owed then 1 else 0;
    c.from <= n && c.calls == Matching(h[c.from..n], c.filter) && (!c.listed ==> over)
  }

  predicate Owed(f: Fanout, id: nat) {
    id in ToCall(f.phase) || Awaits(f.phase, id)
  }

  predicate ReaderOk(f: Fanout, id: nat)
    requires IsReader(f, id)
  {
    ReaderFits(f.history, f.subs[id], id in Doomed(f.phase), Awaits(f.phase, id), f.phase.Finished?)
  }

  predicate CallbackOk(f: Fanout, id: nat)
    requires IsCallback(f, id)
  {
    CallbackFits(f.history, f.subs[id], Owed(f, id), f.phase.Finished?)
  }

  predicate Increasing(s: seq<nat>, bound: nat) {
    && (forall i :: 0 <= i < |s| ==> s[i] < bound)
    && forall i, j :: 0 <= i < j < |s| ==> s[i] < s[j]
  }

  /** The list names subscribers of one kind. */
  predicate Kind(list: seq<nat>, subs: seq<Subscriber>, readers: bool) {
    forall i :: 0 <= i < |list| ==> list[i] < |subs| && subs[list[i]].Reader? == readers
  }

  function Reached(f: Fanout): nat {
    if f.phase.Offering? then f.phase.at else |f.subs|
  }

  predicate ListsOk(f: Fanout) {
    && Reached(f) <= |f.subs|
    && Increasing(Doomed(f.phase), Reached(f)) && Kind(Doomed(f.phase), f.subs, true)
    && Increasing(ToCall(f.phase), Reached(f)) && Kind(ToCall(f.phase), f.subs, false)
    && (f.phase.Idle? || f.phase.Finished? || f.history != [])
  }

  ghost predicate Inv(f: Fanout) {
    && ListsOk(f)
    && (forall id: nat :: IsReader(f, id) ==> ReaderOk(f, id))
    && (forall id: nat :: IsCallback(f, id) ==> CallbackOk(f, id))
  }

  // ---------- What each operation does to one subscriber ----------

  lemma ReaderGrow(h: seq<StreamEvent>, r: Subscriber, ev: StreamEvent)
    requires r.Reader? && ReaderFits(h, r, false, false, false)
    ensures ReaderFits(h + [ev], r, false, true, false)
  {
    assert (h + [ev])[r.from..r.upTo] == h[r.from..r.upTo];
  }

  lemma ReaderOffered(h: seq<StreamEvent>, r: Subscriber)
    requires r.Reader? && h != [] && ReaderFits(h, r, false, true, false)
    ensures r.listed && !r.dropped ==> r.closes == 0
    ensures if r.listed && !r.dropped then ReaderFits(h, Offered(r, h[|h| - 1]), |r.buffer| >= BUFFER, false, false)
            else ReaderFits(h, r, false, false, false)
  {
    if r.listed && !r.dropped && |r.buffer| < BUFFER {
      assert h[r.from..] == h[r.from..r.upTo] + [h[|h| - 1]];
      assert r.received + (r.buffer + [h[|h| - 1]]) == (r.received + r.buffer) + [h[|h| - 1]];
      assert h[r.from..|h|] == h[r.from..] == h[r.from..|h|] + [];
    }
  }

  lemma ReaderEnded(h: seq<StreamEvent>, r: Subscriber, awaits: bool)
    requires r.Reader? && ReaderFits(h, r, true, awaits, false)
    ensures r.closes == 0
    ensures ReaderFits(h, Ended(r), false, awaits, false)
    ensures Ended(r).warned <==> |r.received| > r.mark
  {
    assert r.received + (r.buffer + [DROPPED]) == (r.received + r.buffer) + [DROPPED];
    assert h[r.from..r.upTo] + [] == h[r.from..r.upTo];
  }

  lemma ReaderTaken(h: seq<StreamEvent>, r: Subscriber, doomed: bool, awaits: bool, over: bool)
    requires r.Reader? && r.buffer != [] && ReaderFits(h, r, doomed, awaits, over)
    ensures ReaderFits(h, Taken(r), doomed, awaits, over)
  {
    assert (r.received + [r.buffer[0]]) + r.buffer[1..] == r.received + r.buffer;
  }

  lemma ReaderDismissed(h: seq<StreamEvent>, r: Subscriber)
    requires r.Reader? && ReaderFits(h, r, false, false, false)
    ensures ReaderFits(h, Dismissed(r), false, false, true)
  {}

  lemma ReaderArrives(f: Fanout)
    ensures ReaderFits(f.history, Arrival(f), false, false, f.phase.Finished?)
  {
    var r := Arrival(f);
    assert r.received + r.buffer == r.buffer == r.buffer + [];
  }

  lemma CallbackGrow(h: seq<StreamEvent>, c: Subscriber, ev: StreamEvent)
    requires c.Callback? && CallbackFits(h, c, false, false)
    ensures CallbackFits(h + [ev], c, true, false)
  {
    assert (h + [ev])[c.from..|h|] == h[c.from..|h|];
  }

  lemma CallbackCalled(h: seq<StreamEvent>, c: Subscriber)
    requires c.Callback? && h != [] && CallbackFits(h, c, true, false)
    ensures CallbackFits(h, Called(c, h[|h| - 1]), false, false)
  {
    var n := |h|;
    var all := h[c.from..n];
    assert all[..|all| - 1] == h[c.from..n - 1] && all[|all| - 1] == h[n - 1];
    assert c.calls + [] == c.calls;
  }

  lemma CallbackArrives(h: seq<StreamEvent>, filter: string, over: bool)
    ensures CallbackFits(h, Callback(|h|, filter, [], true), false, over)
  {
    assert h[|h|..|h|] == [];
  }

  // ---------- Every step keeps the invariant ----------

  lemma IncreasingSnoc(s: seq<nat>, bound: nat)
    requires Increasing(s, bound)
    ensures Increasing(s, bound + 1) && Increasing(s + [bound], bound + 1)
  {}

  lemma IncreasingTail(s: seq<nat>, bound: nat)
    requires Increasing(s, bound) && s != []
    ensures Increasing(s[1..], bound) && s[0] !in s[1..]
  {}

  lemma IncreasingWider(s: seq<nat>, bound: nat, wider: nat)
    requires Increasing(s, bound) && bound <= wider
    ensures Increasing(s, wider)
  {}

  lemma KindUpdate(list: seq<nat>, subs: seq<Subscriber>, readers: bool, i: nat, s: Subscriber)
    requires Kind(list, subs, readers) && i < |subs| && s.Reader? == subs[i].Reader?
    ensures Kind(list, subs[i := s], readers)
  {}

  lemma KindAppend(list: seq<nat>, subs: seq<Subscriber>, readers: bool, s: Subscriber)
    requires Kind(list, subs, readers)
    ensures Kind(list, subs + [s], readers)
  {}

  lemma KindSnoc(list: seq<nat>, subs: seq<Subscriber>, readers: bool, i: nat)
    requires Kind(list, subs, readers) && i < |subs| && subs[i].Reader? == readers
    ensures Kind(list + [i], subs, readers)
  {}

  lemma KindTail(list: seq<nat>, subs: seq<Subscriber>, readers: bool)
    requires Kind(list, subs, readers) && list != []
    ensures Kind(list[1..], subs, readers)
  {}

  lemma NoList(subs: seq<Subscriber>, bound: nat)
    ensures Increasing([], bound) && Kind([], subs, true) && Kind([], subs, false)
  {}

  lemma ListsOffer(f: Fanout)
    requires ListsOk(f) && Enabled(f, Offer)
    ensures ListsOk(OfferAt(f))
  {
    hide Increasing, Kind;
    var i, s, p := f.phase.at, f.subs[f.phase.at], f.phase;
    IncreasingSnoc(p.toDrop, i);
    IncreasingSnoc(p.toCall, i);
    if s.Callback? {
      KindSnoc(p.toCall, f.subs, false, i);
    } else {
      var s' := Offered(s, f.history[|f.history| - 1]);
      KindSnoc(p.toDrop, f.subs, true, i);
      KindUpdate(p.toDrop + [i], f.subs, true, i, s');
      KindUpdate(p.toDrop, f.subs, true, i, s');
      KindUpdate(p.toCall, f.subs, false, i, s');
    }
  }

  lemma ListsStep(f: Fanout, step: Step)
    requires ListsOk(f) && Enabled(f, step)
    ensures ListsOk(Apply(f, step))
  {
    hide Increasing, Kind, OfferAt, Arrival, Ended, Called, Taken, Dismissed;
    NoList(Apply(f, step).subs, Reached(Apply(f, step)));
    match step
    case Offer => ListsOffer(f);
    case Drop =>
      var id := f.phase.toDrop[0];
      IncreasingTail(f.phase.toDrop, |f.subs|);
      KindTail(f.phase.toDrop, f.subs, true);
      KindUpdate(f.phase.toDrop[1..], f.subs, true, id, Ended(f.subs[id]));
      KindUpdate(f.phase.toCall, f.subs, false, id, Ended(f.subs[id]));
    case Call =>
      var id, ev := f.phase.toCall[0], f.history[|f.history| - 1];
      IncreasingTail(f.phase.toCall, |f.subs|);
      KindTail(f.phase.toCall, f.subs, false);
      KindUpdate(f.phase.toCall[1..], f.subs, false, id, Called(f.subs[id], ev));
    case Subscribe => ListsAppend(f, Arrival(f));
    case OnEvent(filter) => ListsAppend(f, Callback(|f.history|, filter, [], true));
    case Receive(id) =>
      KindUpdate(Doomed(f.phase), f.subs, true, id, Taken(f.subs[id]));
      KindUpdate(ToCall(f.phase), f.subs, false, id, Taken(f.subs[id]));
    case _ =>
  }

  lemma ListsAppend(f: Fanout, s: Subscriber)
    requires ListsOk(f) && LockFree(f)
    ensures ListsOk(f.(subs := f.subs + [s]))
  {
    hide Increasing, Kind;
    NoList(f.subs + [s], |f.subs| + 1);
    IncreasingWider(ToCall(f.phase), |f.subs|, |f.subs| + 1);
    KindAppend(ToCall(f.phase), f.subs, false, s);
  }

  /** The phase lists of one step, seen from one subscriber. */
  lemma ReaderStep(f: Fanout, step: Step, id: nat)
    requires ListsOk(f) && Enabled(f, step) && IsReader(Apply(f, step), id)
    requires IsReader(f, id) ==> ReaderOk(f, id)
    ensures ReaderOk(Apply(f, step), id)
  {
    hide ReaderFits, OfferAt, Arrival, Offered, Ended, Called, Taken, Kind;
    match step
    case Dispatch(ev) => ReaderGrow(f.history, f.subs[id], ev);
    case Offer => ReaderOffer(f, id);
    case Drop =>
      IncreasingTail(f.phase.toDrop, |f.subs|);
      if id == f.phase.toDrop[0] {
        ReaderEnded(f.history, f.subs[id], false);
      }
    case Finalize => ReaderDismissed(f.history, f.subs[id]);
    case Subscribe =>
      if id == |f.subs| {
        ReaderArrives(f);
      }
    case Receive(j) =>
      if id == j {
        ReaderTaken(f.history, f.subs[id], id in Doomed(f.phase), Awaits(f.phase, id), f.phase.Finished?);
      }
    case _ =>
  }

  lemma ReaderOffer(f: Fanout, id: nat)
    requires ListsOk(f) && Enabled(f, Offer) && IsReader(OfferAt(f), id)
    requires IsReader(f, id) ==> ReaderOk(f, id)
    ensures ReaderOk(OfferAt(f), id)
  {
    hide ReaderFits, Offered, Kind;
    if id == f.phase.at {
      ReaderOffered(f.history, f.subs[id]);
    }
  }

  lemma CallbackStep(f: Fanout, step: Step, id: nat)
    requires ListsOk(f) && Enabled(f, step) && IsCallback(Apply(f, step), id)
    requires IsCallback(f, id) ==> CallbackOk(f, id)
    ensures CallbackOk(Apply(f, step), id)
  {
    hide CallbackFits, OfferAt, Arrival, Offered, Ended, Called, Taken, Kind;
    match step
    case Dispatch(ev) => CallbackGrow(f.history, f.subs[id], ev);
    case Offer => CallbackOffer(f, id);
    case Call =>
      IncreasingTail(f.phase.toCall, |f.subs|);
      if id == f.phase.toCall[0] {
        CallbackCalled(f.history, f.subs[id]);
      }
    case Finalize => CallbackDismissed(f.history, f.subs[id]);
    case OnEvent(filter) =>
      if id == |f.subs| {
        CallbackArrives(f.history, filter, f.phase.Finished?);
      }
    case _ =>
  }

  lemma CallbackDismissed(h: seq<StreamEvent>, c: Subscriber)
    requires c.Callback? && CallbackFits(h, c, false, false)
    ensures CallbackFits(h, Dismissed(c), false, true)
  {}

  lemma CallbackListed(h: seq<StreamEvent>, c: Subscriber, owed: bool)
    requires c.Callback? && CallbackFits(h, c, owed, false)
    ensures c.listed
  {}

  lemma CallbackOffer(f: Fanout, id: nat)
    requires ListsOk(f) && Enabled(f, Offer) && IsCallback(OfferAt(f), id)
    requires IsCallback(f, id) ==> CallbackOk(f, id)
    ensures CallbackOk(OfferAt(f), id)
  {
    hide CallbackFits, Offered, Kind;
    if id == f.phase.at {
      CallbackListed(f.history, f.subs[id], true);
    }
  }

  lemma InvStep(f: Fanout, step: Step)
    requires Inv(f) && Enabled(f, step)
    ensures Inv(Apply(f, step))
  {
    hide ListsOk, ReaderOk, CallbackOk, Apply, Enabled;
    ListsStep(f, step);
    forall id: nat | IsReader(Apply(f, step), id) ensures ReaderOk(Apply(f, step), id) {
      ReaderStep(f, step, id);
    }
    forall id: nat | IsCallback(Apply(f, step), id) ensures CallbackOk(Apply(f, step), id) {
      CallbackStep(f, step, id);
    }
  }

  // ---------- Over whole runs ----------

  ghost predicate Behaviour(states: seq<Fanout>, steps: seq<Step>) {
    && |states| == |steps| + 1
    && states[0].limit > 0 && states[0] == Fanout(states[0].limit, [], [], Idle)
    && forall k :: 0 <= k < |steps| ==> Enabled(states[k], steps[k]) && states[k + 1] == Apply(states[k], steps[k])
  }

  lemma {:induction false} InvAlways(states: seq<Fanout>, steps: seq<Step>, k: nat)
    requires Behaviour(states, steps) && k < |states|
    ensures Inv(states[k])
    decreases k
  {
    hide Apply, Enabled, ReaderOk, CallbackOk;
    if k > 0 {
      InvAlways(states, steps, k - 1);
      hide Inv;
      assert Enabled(states[k - 1], steps[k - 1]);
      InvStep(states[k - 1], steps[k - 1]);
    }
  }

  /** At every moment of every run, what a consumer has received and what its channel
      still holds is a gap-free stretch of the history from the start of its replay
      window; only a warning may follow, and then nothing. */
  lemma Delivered(states: seq<Fanout>, steps: seq<Step>, k: nat, id: nat)
    requires Behaviour(states, steps) && k < |states| && IsReader(states[k], id)
    ensures var r := states[k].subs[id];
      && Served(states[k].history, r) && |r.buffer| <= BUFFER
      && r.closes <= 1 && (r.warned ==> r.closes == 1)
      && (LockFree(states[k]) ==> (r.upTo == |states[k].history| <==> !r.dropped))
      && (LockFree(states[k]) ==> (r.closes == 1 <==> r.dropped || states[k].phase.Finished?))
  {
    InvAlways(states, steps, k);
    assert ReaderOk(states[k], id);
  }

  lemma FromKept(f: Fanout, step: Step, id: nat)
    requires Enabled(f, step) && id < |f.subs|
    ensures var f' := Apply(f, step);
      id < |f'.subs| && f'.subs[id].Reader? == f.subs[id].Reader? && f'.subs[id].from == f.subs[id].from
  {}

  /** That stretch starts with the window of the last `limit` events at the moment of
      subscribing, for the rest of the run. */
  lemma {:induction false} ServedFromWindow(states: seq<Fanout>, steps: seq<Step>, k: nat, j: nat)
    requires Behaviour(states, steps) && k < j < |states| && steps[k] == Subscribe
    ensures var id := |states[k].subs|;
      IsReader(states[j], id) && states[j].subs[id].from == WindowStart(|states[k].history|, states[k].limit)
    decreases j
  {
    if j > k + 1 {
      ServedFromWindow(states, steps, k, j - 1);
      hide Apply, Enabled;
      assert Enabled(states[j - 1], steps[j - 1]);
      FromKept(states[j - 1], steps[j - 1], |states[k].subs|);
    } else {
      assert Enabled(states[k], steps[k]);
    }
  }

  /** The events of one type, in order. */
  function OfKind(h: seq<StreamEvent>, kind: string): seq<StreamEvent> {
    if h == [] then []
    else (if h[0].kind == kind then [h[0]] else []) + OfKind(h[1..], kind)
  }

  lemma {:induction false} OfKindSnoc(h: seq<StreamEvent>, ev: StreamEvent, kind: string)
    ensures OfKind(h + [ev], kind) == OfKind(h, kind) + if ev.kind == kind then [ev] else []
    decreases |h|
  {
    if h == [] {
      assert h + [ev] == [ev] && [ev][1..] == [];
    } else {
      assert (h + [ev])[1..] == h[1..] + [ev];
      OfKindSnoc(h[1..], ev, kind);
    }
  }

  /** No filter lets everything through, a filter the events of its type. */
  lemma {:induction false} MatchingIs(h: seq<StreamEvent>, filter: string)
    ensures Matching(h, filter) == if filter == "" then h else OfKind(h, filter)
    decreases |h|
  {
    if h != [] {
      var front, last := h[..|h| - 1], h[|h| - 1];
      MatchingIs(front, filter);
      assert h == front + [last];
      OfKindSnoc(front, last, filter);
    }
  }

  /** Once the run is over every channel has been closed exactly once, a subscriber
      that kept up has been sent everything, and every callback has been called with
      exactly the events it asked for, in order. */
  lemma AllServedAtEnd(states: seq<Fanout>, steps: seq<Step>, k: nat, id: nat)
    requires Behaviour(states, steps) && k < |states| && states[k].phase.Finished? && id < |states[k].subs|
    ensures var s, h := states[k].subs[id], states[k].history;
      match s
      case Reader(_, _, _, _, _, _, _, _, _) =>
        s.closes == 1 && (!s.dropped ==> s.from <= |h| && s.received + s.buffer == h[s.from..])
      case Callback(_, _, _, _) =>
        s.from <= |h| && s.calls == if s.filter == "" then h[s.from..] else OfKind(h[s.from..], s.filter)
  {
    InvAlways(states, steps, k);
    var s, h := states[k].subs[id], states[k].history;
    if s.Reader? {
      assert ReaderOk(states[k], id);
      if !s.dropped {
        assert h[s.from..s.upTo] + [] == h[s.from..];
      }
    } else {
      assert CallbackOk(states[k], id);
      assert h[s.from..|h|] == h[s.from..];
      MatchingIs(h[s.from..], s.filter);
    }
  }

  /** No send to, and no close of, a channel that is already closed: the three places
      that touch channels always find them open. */
  lemma NeverTouchedAfterClose(states: seq<Fanout>, steps: seq<Step>, k: nat, id: nat)
    requires Behaviour(states, steps) && k < |states| && IsReader(states[k], id)
    ensures var f, r := states[k], states[k].subs[id];
      && (Enabled(f, Offer) && f.phase.at == id && r.listed && !r.dropped ==> r.closes == 0)
      && (Enabled(f, Drop) && f.phase.toDrop[0] == id ==> r.closes == 0)
      && (Enabled(f, Finalize) && r.listed && !r.dropped ==> r.closes == 0)
  {
    InvAlways(states, steps, k);
    assert ReaderOk(states[k], id);
  }

  /** The warning reaches a dropped subscriber exactly when its consumer has taken
      something since the send that failed; the documentation promises it always. */
  lemma WarningDelivered(states: seq<Fanout>, steps: seq<Step>, k: nat)
    requires Behaviour(states, steps) && k < |states| && Enabled(states[k], Drop)
    ensures var r := states[k].subs[states[k].phase.toDrop[0]];
      Ended(r).warned <==> |r.received| > r.mark
  {
    InvAlways(states, steps, k);
    var f := states[k];
    var id := f.phase.toDrop[0];
    assert ReaderOk(f, id);
    ReaderEnded(f.history, f.subs[id], false);
  }

  // ---------- Subscribers that never read ----------

  /** Nothing was received, so no warning ever found room. */
  predicate Silent(r: Subscriber)
    requires r.Reader?
  {
    r.received == [] && !r.warned && (r.dropped ==> |r.buffer| == BUFFER)
  }

  lemma SilentStep(f: Fanout, step: Step, id: nat)
    requires Enabled(f, step) && step != Receive(id) && IsReader(Apply(f, step), id)
    requires IsReader(f, id) ==> ReaderOk(f, id) && Silent(f.subs[id])
    ensures Silent(Apply(f, step).subs[id])
  {
    if id < |f.subs| {
      KindKept(f, step, id);
      if step.Drop? && f.phase.toDrop[0] == id {
        assert id in Doomed(f.phase);
      }
    }
  }

  lemma KindKept(f: Fanout, step: Step, id: nat)
    requires Enabled(f, step) && id < |f.subs|
    ensures id < |Apply(f, step).subs| && Apply(f, step).subs[id].Reader? == f.subs[id].Reader?
  {
    FromKept(f, step, id);
  }

  lemma {:induction false} SilentAlways(states: seq<Fanout>, steps: seq<Step>, k: nat, id: nat)
    requires Behaviour(states, steps) && k < |states| && IsReader(states[k], id)
    requires forall i :: 0 <= i < |steps| ==> steps[i] != Receive(id)
    ensures Silent(states[k].subs[id])
    decreases k
  {
    hide Apply, Enabled, ReaderFits, Silent;
    if k > 0 {
      var f := states[k - 1];
      assert Enabled(f, steps[k - 1]);
      InvAlways(states, steps, k - 1);
      if IsReader(f, id) {
        SilentAlways(states, steps, k - 1, id);
        assert ReaderOk(f, id);
      }
      SilentStep(f, steps[k - 1], id);
    }
  }

  /** In every behaviour a subscriber whose consumer never reads is dropped exactly when
      more events than the buffer holds have come since its window began, and it is
      dropped without the promised warning. */
  lemma SilentReaderDropped(states: seq<Fanout>, steps: seq<Step>, k: nat, id: nat)
    requires Behaviour(states, steps) && k < |states| && IsReader(states[k], id) && LockFree(states[k])
    requires forall i :: 0 <= i < |steps| ==> steps[i] != Receive(id)
    ensures var r := states[k].subs[id];
      && r.from <= |states[k].history|
      && (r.dropped <==> |states[k].history| - r.from > 32)
      && !r.warned && r.received == []
  {
    InvAlways(states, steps, k);
    SilentAlways(states, steps, k, id);
    assert ReaderOk(states[k], id);
    var r := states[k].subs[id];
    assert r.received + r.buffer == r.buffer;
  }

  lemma Extend(states: seq<Fanout>, steps: seq<Step>, step: Step)
    requires Behaviour(states, steps) && Enabled(states[|steps|], step)
    ensures Behaviour(states + [Apply(states[|steps|], step)], steps + [step])
  {
    hide Apply, Enabled;
    var ss, ts := states + [Apply(states[|steps|], step)], steps + [step];
    forall k | 0 <= k < |ts| ensures Enabled(ss[k], ts[k]) && ss[k + 1] == Apply(ss[k], ts[k]) {
      assert k < |steps| ==> Enabled(states[k], steps[k]) && states[k + 1] == Apply(states[k], steps[k]);
    }
  }

  /** A stream with one channel subscriber, nothing received, between two events. */
  ghost predicate Alone(states: seq<Fanout>, steps: seq<Step>, n: nat) {
    && Behaviour(states, steps)
    && (forall i :: 0 <= i < |steps| ==> steps[i] != Receive(0))
    && var f := states[|steps|];
    f.phase == Idle && |f.history| == n && |f.subs| == 1 && f.subs[0].Reader? && f.subs[0].from == 0
  }

  /** One step of such a stream. */
  lemma Go(states: seq<Fanout>, steps: seq<Step>, step: Step) returns (ss: seq<Fanout>, ts: seq<Step>)
    requires Behaviour(states, steps) && Enabled(states[|steps|], step) && step != Receive(0)
    requires forall i :: 0 <= i < |steps| ==> steps[i] != Receive(0)
    ensures ss == states + [Apply(states[|steps|], step)] && ts == steps + [step]
    ensures Behaviour(ss, ts) && ss[|ts|] == Apply(states[|steps|], step)
    ensures forall i :: 0 <= i < |ts| ==> ts[i] != Receive(0)
  {
    hide Apply, Enabled;
    Extend(states, steps, step);
    ss, ts := states + [Apply(states[|steps|], step)], steps + [step];
  }

  lemma {:induction false} AnyNumberOfEvents(limit: nat, n: nat, ev: StreamEvent)
    returns (states: seq<Fanout>, steps: seq<Step>)
    requires limit > 0
    ensures Alone(states, steps, n)
    decreases n
  {
    hide Behaviour;
    if n == 0 {
      states, steps := FirstSubscriber(limit);
    } else {
      states, steps := AnyNumberOfEvents(limit, n - 1, ev);
      states, steps := Go(states, steps, Dispatch(ev));
      states, steps := Go(states, steps, Offer);
      var p := states[|steps|].phase;
      assert |p.toDrop| <= 1 && p.toCall == [] && (p.toDrop != [] ==> p.toDrop[0] == 0);
      states, steps := Go(states, steps, EndOffers);
      if p.toDrop != [] {
        states, steps := Go(states, steps, Drop);
      }
      states, steps := Go(states, steps, EndDrops);
      states, steps := Go(states, steps, EndCalls);
    }
  }

  lemma FirstSubscriber(limit: nat) returns (states: seq<Fanout>, steps: seq<Step>)
    requires limit > 0
    ensures Alone(states, steps, 0)
  {
    var f := Fanout(limit, [], [], Idle);
    assert Behaviour([f], []);
    states, steps := Go([f], [], Subscribe);
  }

  /** Such a run exists: after 33 events the lone subscriber is gone, unwarned. */
  lemma WarningLost(limit: nat, ev: StreamEvent) returns (states: seq<Fanout>, steps: seq<Step>)
    requires limit > 0
    ensures Behaviour(states, steps) && IsReader(states[|steps|], 0)
    ensures states[|steps|].subs[0].dropped && !states[|steps|].subs[0].warned && states[|steps|].subs[0].closes == 1
  {
    states, steps := AnyNumberOfEvents(limit, BUFFER + 1, ev);
    SilentReaderDropped(states, steps, |steps|, 0);
    Delivered(states, steps, |steps|, 0);
  }
}
