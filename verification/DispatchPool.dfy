/**
 The worker pool of agent/dispatch.go: a work queue filled and closed up front,
 workers, a result channel with room for every call, a closer and a collector. One
 step per channel operation, in any order; a call may come back with any value.
 */
module DispatchPool {
  import opened Basics

  type Value = nat

  datatype Res = Done(value: Value) | ContextError

  datatype Slot = Zero | Filled(res: Res)

  datatype Worker = Idle | Holding(call: nat) | Sending(call: nat, res: Res) | Exited

  datatype Message = Message(call: nat, res: Res)

  /** Where a call is; kept for the proof only, no step depends on it. */
  datatype Place = Queued | With(w: nat) | InChannel | Collected

  datatype Pool = Pool(
    queue: seq<nat>,
    workers: seq<Worker>,
    channel: seq<Message>,
    closed: bool,
    slots: seq<Slot>,
    seen: seq<bool>,
    received: nat,
    returned: bool,
    cancelled: bool,
    runs: seq<nat>,
    outcome: map<nat, Value>,
    place: seq<Place>)

  datatype Step =
    | Take(w: nat)
    | Dispatch(w: nat, value: Value)
    | Skip(w: nat)
    | Send(w: nat)
    | Exit(w: nat)
    | CloseResults
    | Receive
    | ReceiveClosed
    | ReturnAll
    | ReturnCancelled
    | CancelContext

  function Numbers(n: nat): seq<nat> {
    seq(n, i => i)
  }

  /** n calls and min(n, maxWorkers) workers. */
  function Start(n: nat, maxWorkers: nat): Pool {
    Pool(Numbers(n), seq(Min(n, maxWorkers), _ => Idle), [], false, seq(n, _ => Zero), seq(n, _ => false),
         0, false, false, seq(n, _ => 0), map[], seq(n, _ => Queued))
  }

  ghost predicate Enabled(n: nat, p: Pool, step: Step) {
    match step
    case Take(w) => w < |p.workers| && p.workers[w].Idle? && p.queue != [] && p.queue[0] < |p.place|
    case Dispatch(w, _) => w < |p.workers| && p.workers[w].Holding? && p.workers[w].call < |p.runs| && !p.cancelled
    case Skip(w) => w < |p.workers| && p.workers[w].Holding? && p.cancelled
    case Send(w) => w < |p.workers| && p.workers[w].Sending? && p.workers[w].call < |p.place| && |p.channel| < n && !p.closed
    case Exit(w) => w < |p.workers| && p.workers[w].Idle? && p.queue == []
    case CloseResults => !p.closed && forall w :: 0 <= w < |p.workers| ==> p.workers[w].Exited?
    case Receive => !p.returned && p.received < n && p.channel != [] && p.channel[0].call < |p.slots| == |p.seen| == |p.place|
    case ReceiveClosed => !p.returned && p.received < n && p.channel == [] && p.closed
    case ReturnAll => !p.returned && p.received == n
    case ReturnCancelled => !p.returned && p.received < n && p.cancelled && |p.slots| == |p.seen|
    case CancelContext => true
  }

  ghost function Apply(n: nat, p: Pool, step: Step): Pool
    requires Enabled(n, p, step)
  {
    match step
    case Take(w) =>
      p.(queue := p.queue[1..], workers := p.workers[w := Holding(p.queue[0])], place := p.place[p.queue[0] := With(w)])
    case Dispatch(w, v) =>
      var i := p.workers[w].call;
      p.(workers := p.workers[w := Sending(i, Done(v))], runs := p.runs[i := p.runs[i] + 1],
         outcome := p.outcome[i := v])
    case Skip(w) => p.(workers := p.workers[w := Sending(p.workers[w].call, ContextError)])
    case Send(w) =>
      p.(channel := p.channel + [Message(p.workers[w].call, p.workers[w].res)], workers := p.workers[w := Idle],
         place := p.place[p.workers[w].call := InChannel])
    case Exit(w) => p.(workers := p.workers[w := Exited])
    case CloseResults => p.(closed := true)
    case Receive =>
      var m := p.channel[0];
      p.(channel := p.channel[1..], slots := p.slots[m.call := Filled(m.res)], seen := p.seen[m.call := true],
         received := p.received + 1, place := p.place[m.call := Collected])
    case ReceiveClosed => p.(returned := true)
    case ReturnAll => p.(returned := true)
    case ReturnCancelled => p.(returned := true, slots := FillUnseen(p.slots, p.seen))
    case CancelContext => p.(cancelled := true)
  }

  function FillUnseen(slots: seq<Slot>, seen: seq<bool>): (r: seq<Slot>)
    requires |slots| == |seen|
    ensures |r| == |slots|
  {
    seq(|slots|, i requires 0 <= i < |slots| => if seen[i] then slots[i] else Filled(ContextError))
  }

  predicate Busy(w: Worker) {
    w.Holding? || w.Sending?
  }

  predicate Holds(w: Worker, i: nat) {
    Busy(w) && w.call == i
  }

  function CountTrue(s: seq<bool>): (n: nat)
    ensures n <= |s|
  {
    if s == [] then 0 else (if s[0] then 1 else 0) + CountTrue(s[1..])
  }

  lemma {:induction false} CountSet(s: seq<bool>, i: nat)
    requires i < |s| && !s[i]
    ensures CountTrue(s[i := true]) == CountTrue(s) + 1
    decreases |s|
  {
    if i == 0 {
      assert s[0 := true][1..] == s[1..];
    } else {
      CountSet(s[1..], i - 1);
      assert s[i := true][1..] == s[1..][i - 1 := true];
    }
  }

  lemma {:induction false} CountFull(s: seq<bool>)
    ensures CountTrue(s) == |s| <==> forall i :: 0 <= i < |s| ==> s[i]
    decreases |s|
  {
    if s != [] {
      CountFull(s[1..]);
      assert (forall i :: 0 <= i < |s| ==> s[i]) <==> s[0] && forall i :: 0 <= i < |s[1..]| ==> s[1..][i];
    }
  }

  // ---------- The invariant ----------

  /** A result belongs to its call: it is what dispatching that call gave, or the
      context error, and that only after cancellation. */
  ghost predicate Own(p: Pool, i: nat, r: Res) {
    match r
    case Done(v) => i in p.outcome && p.outcome[i] == v
    case ContextError => p.cancelled
  }

  ghost predicate ResultsOwn(p: Pool) {
    && (forall w :: 0 <= w < |p.workers| && p.workers[w].Sending? ==> Own(p, p.workers[w].call, p.workers[w].res))
    && (forall k :: 0 <= k < |p.channel| ==> Own(p, p.channel[k].call, p.channel[k].res))
    && (forall i :: 0 <= i < |p.slots| && p.slots[i].Filled? ==> Own(p, i, p.slots[i].res))
  }

  /** A call waiting in the queue or just taken has not been dispatched, and no call
      is dispatched twice. */
  ghost predicate RunsOnce(p: Pool) {
    && (forall k :: 0 <= k < |p.queue| ==> p.queue[k] !in p.outcome)
    && (forall w :: 0 <= w < |p.workers| && p.workers[w].Holding? ==> p.workers[w].call !in p.outcome)
    && (forall i :: 0 <= i < |p.runs| ==> p.runs[i] == if i in p.outcome then 1 else 0)
  }

  /** Every call is in exactly one place: queued, with one worker, once in the
      channel, or collected. */
  ghost predicate Placed(n: nat, p: Pool) {
    Located(n, p) && forall i :: 0 <= i < n ==> Found(p, i)
  }

  /** Queue, workers and channel agree with the places. */
  ghost predicate Located(n: nat, p: Pool) {
    && |p.place| == |p.slots| == |p.seen| == |p.runs| == n
    && (forall k :: 0 <= k < |p.queue| ==> p.queue[k] < n && p.place[p.queue[k]] == Queued)
    && (forall k, l :: 0 <= k < l < |p.queue| ==> p.queue[k] != p.queue[l])
    && (forall w :: 0 <= w < |p.workers| && Busy(p.workers[w]) ==>
          p.workers[w].call < n && p.place[p.workers[w].call] == With(w))
    && (forall k :: 0 <= k < |p.channel| ==> p.channel[k].call < n && p.place[p.channel[k].call] == InChannel)
    && (forall k, l :: 0 <= k < l < |p.channel| ==> p.channel[k].call != p.channel[l].call)
  }

  ghost predicate Found(p: Pool, i: nat)
    requires i < |p.place| && i < |p.seen|
  {
    && (p.seen[i] <==> p.place[i].Collected?)
    && match p.place[i]
       case Queued => i in p.queue
       case With(w) => w < |p.workers| && Holds(p.workers[w], i)
       case InChannel => exists k :: 0 <= k < |p.channel| && p.channel[k].call == i
       case Collected => true
  }

  ghost predicate Progress(n: nat, p: Pool) {
    && |p.slots| == |p.seen| == n && p.received == CountTrue(p.seen)
    && (forall i :: 0 <= i < n && p.seen[i] ==> p.slots[i].Filled?)
    && (p.closed ==> forall w :: 0 <= w < |p.workers| ==> p.workers[w].Exited?)
    && (forall w :: 0 <= w < |p.workers| && p.workers[w].Exited? ==> p.queue == [])
  }

  /** What the collector returns: a full slot for every call. */
  ghost predicate AllFilled(p: Pool) {
    forall i :: 0 <= i < |p.slots| ==> p.slots[i].Filled?
  }

  ghost predicate Inv(n: nat, p: Pool) {
    && Placed(n, p) && Progress(n, p) && ResultsOwn(p) && RunsOnce(p)
    && (p.returned && |p.workers| > 0 ==> AllFilled(p))
  }

  // ---------- Every step keeps it ----------

  lemma PlacedStep(n: nat, p: Pool, step: Step)
    requires Inv(n, p) && Enabled(n, p, step)
    ensures Placed(n, Apply(n, p, step))
  {
    hide ResultsOwn, RunsOnce, Progress, AllFilled, Found, Located, Apply, Enabled;
    var p' := Apply(n, p, step);
    if step.Take? {
      LocatedTake(n, p, step.w);
    } else if step.Send? {
      LocatedSend(n, p, step.w);
    } else if step.Receive? {
      LocatedReceive(n, p);
    } else {
      LocatedOther(n, p, step);
    }
    LocatedSizes(n, p');
    forall i | 0 <= i < n ensures Found(p', i) {
      FoundStep(n, p, step, i);
    }
  }

  lemma LocatedSizes(n: nat, p: Pool)
    requires Located(n, p)
    ensures |p.place| == |p.seen| == n
  {}

  lemma LocatedTake(n: nat, p: Pool, w: nat)
    requires Located(n, p) && Enabled(n, p, Take(w))
    ensures Located(n, Apply(n, p, Take(w)))
  {}

  lemma LocatedSend(n: nat, p: Pool, w: nat)
    requires Located(n, p) && Enabled(n, p, Send(w))
    ensures Located(n, Apply(n, p, Send(w)))
  {}

  lemma LocatedReceive(n: nat, p: Pool)
    requires Located(n, p) && Enabled(n, p, Receive)
    ensures Located(n, Apply(n, p, Receive))
  {}

  /** The other operations leave every call where it is. */
  lemma LocatedOther(n: nat, p: Pool, step: Step)
    requires Located(n, p) && Enabled(n, p, step) && !step.Take? && !step.Send? && !step.Receive?
    ensures Located(n, Apply(n, p, step))
  {
    hide FillUnseen;
    var p' := Apply(n, p, step);
    assert p'.place == p.place && p'.queue == p.queue && p'.channel == p.channel && |p'.workers| == |p.workers|;
    forall w | 0 <= w < |p'.workers| && Busy(p'.workers[w]) ensures p'.workers[w].call < n && p'.place[p'.workers[w].call] == With(w) {
      assert Busy(p.workers[w]) && p'.workers[w].call == p.workers[w].call;
    }
  }

  lemma FoundStep(n: nat, p: Pool, step: Step, i: nat)
    requires Inv(n, p) && Enabled(n, p, step) && i < n
    ensures |Apply(n, p, step).place| == |Apply(n, p, step).seen| == n && Found(Apply(n, p, step), i)
  {
    hide ResultsOwn, RunsOnce, Progress, FillUnseen, AllFilled, Found;
    assert Found(p, i);
    if step.Take? {
      FoundTake(n, p, step.w, i);
    } else if step.Send? {
      FoundSend(n, p, step.w, i);
    } else if step.Receive? {
      FoundReceive(n, p, i);
    } else {
      FoundOther(n, p, step, i);
    }
  }

  lemma FoundOther(n: nat, p: Pool, step: Step, i: nat)
    requires Placed(n, p) && Enabled(n, p, step) && i < n && Found(p, i)
    requires !step.Take? && !step.Send? && !step.Receive?
    ensures Found(Apply(n, p, step), i)
  {
    hide FillUnseen;
  }

  lemma FoundTake(n: nat, p: Pool, w: nat, i: nat)
    requires Placed(n, p) && Enabled(n, p, Take(w)) && i < n && Found(p, i)
    ensures Found(Apply(n, p, Take(w)), i)
  {
    var p' := Apply(n, p, Take(w));
    if i in p.queue && i != p.queue[0] {
      var k :| 0 <= k < |p.queue| && p.queue[k] == i;
      assert p'.queue[k - 1] == i;
    }
  }

  lemma FoundSend(n: nat, p: Pool, w: nat, i: nat)
    requires Placed(n, p) && Enabled(n, p, Send(w)) && i < n && Found(p, i)
    ensures Found(Apply(n, p, Send(w)), i)
  {
    var p' := Apply(n, p, Send(w));
    assert Busy(p.workers[w]);
    if p.place[i].InChannel? {
      var k :| 0 <= k < |p.channel| && p.channel[k].call == i;
      assert p'.channel[k].call == i;
    }
    assert p'.channel[|p.channel|].call == p.workers[w].call;
  }

  lemma FoundReceive(n: nat, p: Pool, i: nat)
    requires Placed(n, p) && Enabled(n, p, Receive) && i < n && Found(p, i)
    ensures Found(Apply(n, p, Receive), i)
  {
    var p' := Apply(n, p, Receive);
    if p.place[i].InChannel? && i != p.channel[0].call {
      var k :| 0 <= k < |p.channel| && p.channel[k].call == i;
      assert p'.channel[k - 1].call == i;
    }
  }

  lemma ProgressStep(n: nat, p: Pool, step: Step)
    requires Inv(n, p) && Enabled(n, p, step)
    ensures Progress(n, Apply(n, p, step))
  {
    hide ResultsOwn, RunsOnce, AllFilled, Holds;
    if step.Receive? {
      var i := p.channel[0].call;
      assert Found(p, i);
      CountSet(p.seen, i);
    }
  }

  lemma OwnGrows(n: nat, p: Pool, step: Step, i: nat, r: Res)
    requires Inv(n, p) && Enabled(n, p, step) && Own(p, i, r)
    ensures Own(Apply(n, p, step), i, r)
  {
    hide Placed, Progress, ResultsOwn, FillUnseen, AllFilled;
  }

  lemma ResultsOwnStep(n: nat, p: Pool, step: Step)
    requires Inv(n, p) && Enabled(n, p, step)
    ensures ResultsOwn(Apply(n, p, step))
  {
    hide Placed, RunsOnce, Own, AllFilled;
    var p' := Apply(n, p, step);
    forall i, r | Own(p, i, r) ensures Own(p', i, r) {
      OwnGrows(n, p, step, i, r);
    }
    NewOwn(n, p, step);
  }

  /** The results a step itself produces. */
  lemma NewOwn(n: nat, p: Pool, step: Step)
    requires Inv(n, p) && Enabled(n, p, step)
    ensures var p' := Apply(n, p, step);
      && (step.Dispatch? ==> Own(p', p.workers[step.w].call, Done(step.value)))
      && (step.Skip? ==> Own(p', p.workers[step.w].call, ContextError))
      && (step.ReturnCancelled? ==> forall i: nat :: Own(p', i, ContextError))
  {
    hide Placed, Progress, ResultsOwn, RunsOnce, FillUnseen, AllFilled;
  }

  lemma RunsOnceStep(n: nat, p: Pool, step: Step)
    requires Inv(n, p) && Enabled(n, p, step)
    ensures RunsOnce(Apply(n, p, step))
  {
    hide Progress, ResultsOwn, FillUnseen, AllFilled, Found;
    if step.Dispatch? {
      var i := p.workers[step.w].call;
      assert Busy(p.workers[step.w]);
      assert forall w :: 0 <= w < |p.workers| && Busy(p.workers[w]) && p.workers[w].call == i ==> w == step.w;
    }
  }

  /** A collector that stops at the closed channel has seen everything, if there was
      a worker at all. */
  lemma DrainedMeansAll(n: nat, p: Pool)
    requires Placed(n, p) && Progress(n, p) && |p.workers| > 0 && p.closed && p.channel == []
    ensures p.received == n
  {
    assert p.workers[0].Exited?;
    forall i | 0 <= i < n ensures p.seen[i] {
      assert Found(p, i);
    }
    CountFull(p.seen);
  }

  lemma InvStep(n: nat, p: Pool, step: Step)
    requires Inv(n, p) && Enabled(n, p, step)
    ensures Inv(n, Apply(n, p, step))
  {
    PlacedStep(n, p, step);
    ProgressStep(n, p, step);
    ResultsOwnStep(n, p, step);
    RunsOnceStep(n, p, step);
    CountFull(p.seen);
    if step.ReceiveClosed? && |p.workers| > 0 {
      DrainedMeansAll(n, p);
    }
  }

  lemma InvStart(n: nat, maxWorkers: nat)
    ensures Inv(n, Start(n, maxWorkers))
  {
    var p := Start(n, maxWorkers);
    NoneSeen(p.seen);
    forall i | 0 <= i < n ensures Found(p, i) {
      assert p.queue[i] == i;
    }
  }

  lemma {:induction false} NoneSeen(s: seq<bool>)
    requires forall i :: 0 <= i < |s| ==> !s[i]
    ensures CountTrue(s) == 0
    decreases |s|
  {
    if s != [] {
      NoneSeen(s[1..]);
    }
  }

  // ---------- Every schedule ----------

  ghost predicate Schedule(n: nat, maxWorkers: nat, pools: seq<Pool>, steps: seq<Step>) {
    && |pools| == |steps| + 1 && pools[0] == Start(n, maxWorkers)
    && forall k :: 0 <= k < |steps| ==> Enabled(n, pools[k], steps[k]) && pools[k + 1] == Apply(n, pools[k], steps[k])
  }

  lemma {:induction false} InvAlways(n: nat, maxWorkers: nat, pools: seq<Pool>, steps: seq<Step>, k: nat)
    requires Schedule(n, maxWorkers, pools, steps) && k < |pools|
    ensures Inv(n, pools[k]) && |pools[k].workers| == Min(n, maxWorkers)
    decreases k
  {
    if k == 0 {
      InvStart(n, maxWorkers);
    } else {
      InvAlways(n, maxWorkers, pools, steps, k - 1);
      InvStep(n, pools[k - 1], steps[k - 1]);
    }
  }

  /** With a worker, whatever the schedule: once the collector has returned, slot i
      holds the result of dispatching call i, dispatched exactly once; after a
      cancellation it may hold the context error instead, dispatched at most once. */
  lemma RefinesSequentialMap(n: nat, maxWorkers: nat, pools: seq<Pool>, steps: seq<Step>, k: nat)
    requires Schedule(n, maxWorkers, pools, steps) && k < |pools| && maxWorkers > 0
    requires pools[k].returned
    ensures var p := pools[k];
      |p.slots| == |p.runs| == n && forall i :: 0 <= i < n ==>
        && p.runs[i] <= 1
        && ((p.slots[i] == Filled(ContextError) && p.cancelled)
            || (i in p.outcome && p.slots[i] == Filled(Done(p.outcome[i])) && p.runs[i] == 1))
  {
    InvAlways(n, maxWorkers, pools, steps, k);
    var p := pools[k];
    forall i | 0 <= i < n ensures p.slots[i].Filled? && Own(p, i, p.slots[i].res) {
      assert n > 0 ==> |p.workers| > 0;
    }
  }

  /** A worker with a result in hand never waits: there is room in the channel and
      it is still open. */
  lemma SendNeverBlocks(n: nat, maxWorkers: nat, pools: seq<Pool>, steps: seq<Step>, k: nat, w: nat)
    requires Schedule(n, maxWorkers, pools, steps) && k < |pools|
    requires w < |pools[k].workers| && pools[k].workers[w].Sending?
    ensures Enabled(n, pools[k], Send(w))
  {
    InvAlways(n, maxWorkers, pools, steps, k);
    var p := pools[k];
    assert Busy(p.workers[w]);
    var calls := seq(|p.channel|, j requires 0 <= j < |p.channel| => p.channel[j].call);
    DistinctFits(calls, n, p.workers[w].call);
  }

  /** Distinct numbers below n that leave one out are fewer than n. */
  lemma {:induction false} DistinctFits(s: seq<nat>, n: nat, i: nat)
    requires i < n && (forall k :: 0 <= k < |s| ==> s[k] < n && s[k] != i)
    requires forall k, l :: 0 <= k < l < |s| ==> s[k] != s[l]
    ensures |s| < n
  {
    var below := set x: nat {:trigger x in s} | x in s;
    DistinctSize(s, below);
    UptoSize(n);
    var all := Upto(n);
    assert below <= all - {i};
    SubsetSize(below, all - {i});
  }

  function Upto(n: nat): set<nat> {
    if n == 0 then {} else Upto(n - 1) + {n - 1}
  }

  lemma {:induction false} UptoSize(n: nat)
    ensures |Upto(n)| == n && forall x: nat :: x in Upto(n) <==> x < n
    decreases n
  {
    if n > 0 {
      UptoSize(n - 1);
    }
  }

  lemma {:induction false} SubsetSize(a: set<nat>, b: set<nat>)
    requires a <= b
    ensures |a| <= |b|
  {
    assert b == a + (b - a);
  }

  lemma {:induction false} DistinctSize(s: seq<nat>, xs: set<nat>)
    requires forall k, l :: 0 <= k < l < |s| ==> s[k] != s[l]
    requires forall x :: x in xs <==> x in s
    ensures |xs| == |s|
    decreases |s|
  {
    if s == [] {
      assert xs == {};
    } else {
      var m := |s| - 1;
      var last := s[m];
      forall x ensures x in xs - {last} <==> x in s[..m] {
        if x in s && x != last {
          var k :| 0 <= k < |s| && s[k] == x;
          assert s[..m][k] == x;
        }
      }
      DistinctSize(s[..m], xs - {last});
      assert last in xs;
    }
  }

  /** Several calls and no worker: the collector returns untouched slots. So for two
      or more calls every schedule fills every slot exactly when there is a worker. */
  lemma FilledNeedsWorker(n: nat, maxWorkers: nat)
    requires n >= 2
    ensures maxWorkers >= 1 <==>
      forall pools: seq<Pool>, steps: seq<Step> :: Schedule(n, maxWorkers, pools, steps) && pools[|steps|].returned ==> AllFilled(pools[|steps|])
  {
    if maxWorkers >= 1 {
      forall pools: seq<Pool>, steps: seq<Step> | Schedule(n, maxWorkers, pools, steps) && pools[|steps|].returned
        ensures AllFilled(pools[|steps|])
      {
        InvAlways(n, maxWorkers, pools, steps, |steps|);
      }
    } else {
      var p0 := Start(n, maxWorkers);
      var p1 := Apply(n, p0, CloseResults);
      var p2 := Apply(n, p1, ReceiveClosed);
      var pools, steps := [p0, p1, p2], [CloseResults, ReceiveClosed];
      assert Schedule(n, maxWorkers, pools, steps);
      assert p2.slots[0] == Zero;
      assert pools[|steps|] == p2;
    }
  }

  // ---------- The collector returns ----------

  /** Channel operations a worker has before it: to finish its call and to exit. */
  function Duty(w: Worker): nat {
    match w
    case Idle => 1
    case Holding(_) => 4
    case Sending(_, _) => 3
    case Exited => 0
  }

  function Duties(ws: seq<Worker>): nat {
    if ws == [] then 0 else Duty(ws[0]) + Duties(ws[1..])
  }

  lemma {:induction false} DutiesUpdate(ws: seq<Worker>, w: nat, x: Worker)
    requires w < |ws|
    ensures Duties(ws[w := x]) + Duty(ws[w]) == Duties(ws) + Duty(x)
    decreases |ws|
  {
    if w == 0 {
      assert ws[0 := x][1..] == ws[1..];
    } else {
      DutiesUpdate(ws[1..], w - 1, x);
      assert ws[w := x][1..] == ws[1..][w - 1 := x];
    }
  }

  /** A bound on the operations still to come. */
  function Ahead(p: Pool): nat {
    4 * |p.queue| + Duties(p.workers) + |p.channel| + (if p.closed then 0 else 1) + if p.returned then 0 else 1
  }

  /** Every operation but cancelling the context brings the pool nearer its end. */
  lemma StepsRunOut(n: nat, p: Pool, step: Step)
    requires Enabled(n, p, step) && !step.CancelContext?
    ensures Ahead(Apply(n, p, step)) < Ahead(p)
  {
    hide Duties, FillUnseen;
    if step.Take? || step.Dispatch? || step.Skip? || step.Send? || step.Exit? {
      DutiesUpdate(p.workers, step.w, Apply(n, p, step).workers[step.w]);
    }
  }

  /** In every reachable state in which the collector has not returned, some operation
      is possible without a cancellation: no schedule gets stuck. */
  lemma NeverStuck(n: nat, maxWorkers: nat, pools: seq<Pool>, steps: seq<Step>, k: nat) returns (step: Step)
    requires Schedule(n, maxWorkers, pools, steps) && k < |pools| && !pools[k].returned
    ensures !step.CancelContext? && Enabled(n, pools[k], step) && Ahead(Apply(n, pools[k], step)) < Ahead(pools[k])
  {
    hide ResultsOwn, RunsOnce, AllFilled, Ahead, Apply;
    InvAlways(n, maxWorkers, pools, steps, k);
    var p := pools[k];
    if p.received == n {
      step := ReturnAll;
    } else if p.channel != [] {
      step := Receive;
    } else if p.closed {
      step := ReceiveClosed;
    } else if w: nat :| w < |p.workers| && !p.workers[w].Exited? {
      step := WorkerStep(n, p, w);
    } else {
      step := CloseResults;
    }
    StepsRunOut(n, p, step);
  }

  /** A worker that has not exited can always go on while the channel is empty. */
  lemma WorkerStep(n: nat, p: Pool, w: nat) returns (step: Step)
    requires Placed(n, p) && Progress(n, p) && p.received < n && p.channel == [] && !p.closed
    requires w < |p.workers| && !p.workers[w].Exited?
    ensures !step.CancelContext? && Enabled(n, p, step)
  {
    assert Busy(p.workers[w]) ==> p.workers[w].call < n;
    match p.workers[w]
    case Idle => step := if p.queue != [] then Take(w) else Exit(w);
    case Holding(_) => step := if p.cancelled then Skip(w) else Dispatch(w, 0);
    case Sending(_, _) => step := Send(w);
  }

  // ---------- Cancellation ----------

  /** The context is cancelled exactly by its cancellation. */
  lemma {:induction false} CancelledByStep(n: nat, maxWorkers: nat, pools: seq<Pool>, steps: seq<Step>, k: nat)
    requires Schedule(n, maxWorkers, pools, steps) && k < |pools|
    ensures pools[k].cancelled <==> exists j :: 0 <= j < k && steps[j].CancelContext?
    decreases k
  {
    if k > 0 {
      CancelledByStep(n, maxWorkers, pools, steps, k - 1);
      CancelStep(n, pools[k - 1], steps[k - 1]);
    }
  }

  lemma CancelStep(n: nat, p: Pool, step: Step)
    requires Enabled(n, p, step)
    ensures Apply(n, p, step).cancelled <==> p.cancelled || step.CancelContext?
  {}

  /** Without a cancellation the dispatch is the sequential map: every slot holds what its
      call came back with. */
  lemma UncancelledIsMap(n: nat, maxWorkers: nat, pools: seq<Pool>, steps: seq<Step>, k: nat)
    requires Schedule(n, maxWorkers, pools, steps) && k < |pools| && maxWorkers > 0 && pools[k].returned
    requires forall j :: 0 <= j < k ==> !steps[j].CancelContext?
    ensures var p := pools[k];
      |p.slots| == |p.runs| == n && forall i :: 0 <= i < n ==>
        i in p.outcome && p.slots[i] == Filled(Done(p.outcome[i])) && p.runs[i] == 1
  {
    CancelledByStep(n, maxWorkers, pools, steps, k);
    RefinesSequentialMap(n, maxWorkers, pools, steps, k);
  }

  /** A result once collected stays, also when the dispatch is cancelled. */
  lemma {:induction false} CollectedStays(n: nat, maxWorkers: nat, pools: seq<Pool>, steps: seq<Step>, j: nat, k: nat, i: nat)
    requires Schedule(n, maxWorkers, pools, steps) && j <= k < |pools|
    requires i < |pools[j].seen| && i < |pools[j].slots| && pools[j].seen[i]
    ensures i < |pools[k].seen| && i < |pools[k].slots| && pools[k].seen[i] && pools[k].slots[i] == pools[j].slots[i]
    decreases k
  {
    hide Inv, Apply, Enabled;
    if j < k {
      CollectedStays(n, maxWorkers, pools, steps, j, k - 1, i);
      InvAlways(n, maxWorkers, pools, steps, k - 1);
      CollectedStep(n, pools[k - 1], steps[k - 1], i);
    }
  }

  lemma CollectedStep(n: nat, p: Pool, step: Step, i: nat)
    requires Inv(n, p) && Enabled(n, p, step) && i < |p.seen| && i < |p.slots| && p.seen[i]
    ensures var q := Apply(n, p, step); i < |q.seen| && i < |q.slots| && q.seen[i] && q.slots[i] == p.slots[i]
  {
    hide ResultsOwn, RunsOnce, AllFilled;
    assert Found(p, i);
  }

  /** The context can be cancelled at any time, and then a dispatch that is still
      collecting can return at once, with the context error in every open slot. */
  lemma CancelReturnsAtOnce(n: nat, maxWorkers: nat, pools: seq<Pool>, steps: seq<Step>, k: nat)
    requires Schedule(n, maxWorkers, pools, steps) && k < |pools| && !pools[k].returned && pools[k].received < n
    ensures Enabled(n, pools[k], CancelContext)
    ensures var p := Apply(n, pools[k], CancelContext);
      && Enabled(n, p, ReturnCancelled)
      && var q := Apply(n, p, ReturnCancelled);
      && q.returned && |q.slots| == n == |pools[k].slots| == |pools[k].seen|
      && forall i :: 0 <= i < n ==> q.slots[i] == if pools[k].seen[i] then pools[k].slots[i] else Filled(ContextError)
  {
    InvAlways(n, maxWorkers, pools, steps, k);
  }
}
