/**
 The agent run loop of agent/loop.go and agent/iteration.go: what a run sends on its
 event channel and persists, on every path. Providers, tools, processors and hooks
 are scripts of arbitrary outcomes; the context is not cancelled.
 */
module RunLoop {

  datatype Reason = Stop | ToolCalls | Halted | Suspended | MaxIter | Error | Unset

  /** Envelope events, and everything else a run emits. */
  datatype Event =
    | IterationStart(iter: nat)
    | IterationFinish(iter: nat, reason: Reason)
    | RunFinish(reason: Reason)
    | Content

  // ---------- Scripts ----------

  /** What a processor chain came back with: nothing, a suspension the budget
      admits, or a stop whose result has output (a halt) or not. */
  datatype Processed = Clean | Suspend | Halt(hasOutput: bool)

  datatype OnError = Unhandled | OnErrorFails | Retry | HaltWith(hasOutput: bool, reason: Reason)

  datatype Decision = NoHook | HookFails | StopWith | Inject | Continue

  datatype Script = Script(
    pre: Processed,
    prepareFails: bool,
    chatter: nat,
    llmFails: bool,
    onError: OnError,
    post: Processed,
    thinking: bool,
    narration: bool,
    tools: seq<Processed>,
    toolChatter: nat,
    decision: Decision,
    objectFinish: bool)

  /** How an iteration ends: the run goes on, or it is over with this reason on the
      run-finish event and this one on the returned result. */
  datatype Ending = GoesOn | Over(event: Reason, result: Reason)

  function HaltReason(hasOutput: bool): Reason {
    if hasOutput then Halted else Error
  }

  /** The finish reason the result carries after a failed model call. */
  function Reported(d: OnError): Reason {
    match d
    case OnErrorFails => Unset
    case HaltWith(_, reason) => reason
    case _ => Error
  }

  /** The iteration ends in an exit of the OnError hook, whose result reports
      something other than the error announced on the stream. */
  predicate ReportsElse(s: Script) {
    s.pre.Clean? && !s.prepareFails && s.llmFails && !Reported(s.onError).Error?
  }

  // ---------- How an iteration should end ----------

  datatype Verdict = KeepGoing | EndWith(reason: Reason)

  /** A suspension, a halt with output, or an error. */
  function ExitReason(p: Processed): Reason
    requires !p.Clean?
  {
    if p.Suspend? then Suspended else HaltReason(p.hasOutput)
  }

  /** The first processed result that is not clean decides. */
  function FirstExit(ps: seq<Processed>): Verdict {
    if ps == [] then KeepGoing
    else if !ps[0].Clean? then EndWith(ExitReason(ps[0]))
    else FirstExit(ps[1..])
  }

  function Decided(s: Script): Verdict {
    if s.decision.HookFails? then EndWith(Error)
    else if s.decision.StopWith? then EndWith(Stop)
    else if s.tools == [] && !s.decision.Inject? then EndWith(Stop)
    else KeepGoing
  }

  /** What a run owes a script: the earliest stage that objects names the reason, and
      otherwise the decision does. */
  function Judge(s: Script): Verdict {
    if !s.pre.Clean? then EndWith(ExitReason(s.pre))
    else if s.prepareFails then EndWith(Error)
    else if s.llmFails then if s.onError.Retry? then KeepGoing else EndWith(Error)
    else match FirstExit([s.post] + s.tools)
      case KeepGoing => Decided(s)
      case EndWith(r) => EndWith(r)
  }

  /** The model answered, and nothing objected to the answer. */
  predicate Answered(s: Script) {
    s.pre.Clean? && !s.prepareFails && !s.llmFails && s.post.Clean?
  }

  /** The reason the iteration itself finishes with: that of the run if it ends here, else
      what it was followed by. */
  function FinishOf(s: Script): Reason {
    match Judge(s)
    case EndWith(r) => r
    case KeepGoing => if s.llmFails then Error else if s.tools == [] then Stop else ToolCalls
  }

  /** The iteration leaves step traces behind: of its tools, or of a narration that an
      injection follows. */
  predicate LeavesSteps(s: Script) {
    Answered(s) && (s.tools != [] || (s.decision.Inject? && s.narration))
  }

  /** The OnError hook halts a failed call with output of its own. */
  predicate HaltsWithOutput(s: Script) {
    s.pre.Clean? && !s.prepareFails && s.llmFails && s.onError.HaltWith? && s.onError.hasOutput
  }

  /** One event for a suspension. */
  function SuspendEvents(p: Processed): nat {
    if p.Suspend? then 1 else 0
  }

  /** Events for results in turn: one for each up to the first exit, one more if that
      suspends. */
  function ResultEvents(ps: seq<Processed>): nat {
    if ps == [] then 0
    else 1 + if ps[0].Clean? then ResultEvents(ps[1..]) else SuspendEvents(ps[0])
  }

  /** The events of an iteration between its start and its finish: what the provider
      streams, the thinking, each tool call and its result, the finished object. */
  function ContentOf(s: Script): nat {
    if !s.pre.Clean? then SuspendEvents(s.pre)
    else if s.prepareFails then 0
    else if s.llmFails then s.chatter
    else if !s.post.Clean? then s.chatter + SuspendEvents(s.post)
    else s.chatter + (if s.thinking then 1 else 0) +
         if s.tools != [] then |s.tools| + s.toolChatter + ResultEvents(s.tools)
         else if s.objectFinish && (s.decision.NoHook? || s.decision.Continue?) then 1 else 0
  }

  function SynthesisContent(s: Script): nat {
    s.chatter + if s.llmFails then 0 else if !s.post.Clean? then SuspendEvents(s.post) else if s.objectFinish then 1 else 0
  }

  function TotalContent(scripts: nat -> Script, n: nat): nat {
    if n == 0 then 0 else TotalContent(scripts, n - 1) + ContentOf(scripts(n - 1))
  }

  lemma {:induction false} ResultEventsAt(ps: seq<Processed>, j: nat)
    requires j <= |ps| && forall k :: 0 <= k < j ==> ps[k].Clean?
    ensures ResultEvents(ps) == j + ResultEvents(ps[j..])
    decreases j
  {
    if j > 0 {
      ResultEventsAt(ps[1..], j - 1);
      assert ps[1..][j - 1..] == ps[j..];
    } else {
      assert ps[0..] == ps;
    }
  }

  lemma ExitAt(ps: seq<Processed>, j: nat)
    requires j < |ps| && !ps[j].Clean? && forall k :: 0 <= k < j ==> ps[k].Clean?
    ensures FirstExit(ps) == EndWith(ExitReason(ps[j])) && ResultEvents(ps) == j + 1 + SuspendEvents(ps[j])
  {
    FirstExitAt(ps, j);
    ResultEventsAt(ps, j);
  }

  lemma NoExit(ps: seq<Processed>)
    requires forall k :: 0 <= k < |ps| ==> ps[k].Clean?
    ensures FirstExit(ps) == KeepGoing && ResultEvents(ps) == |ps|
  {
    FirstExitAt(ps, |ps|);
    ResultEventsAt(ps, |ps|);
  }

  function JudgeSynthesis(s: Script): Reason {
    if s.llmFails then Error else if s.post.Clean? then MaxIter else ExitReason(s.post)
  }

  lemma {:induction false} FirstExitAt(ps: seq<Processed>, j: nat)
    requires j <= |ps| && forall k :: 0 <= k < j ==> ps[k].Clean?
    ensures FirstExit(ps) == FirstExit(ps[j..])
    decreases j
  {
    if j > 0 {
      FirstExitAt(ps[1..], j - 1);
      assert ps[1..][j - 1..] == ps[j..];
    } else {
      assert ps[0..] == ps;
    }
  }

  lemma FirstExitCons(p: Processed, ps: seq<Processed>)
    ensures FirstExit([p] + ps) == if p.Clean? then FirstExit(ps) else EndWith(ExitReason(p))
    ensures FirstExit([]) == KeepGoing
  {
    assert ([p] + ps)[1..] == ps;
  }

  lemma RetryHasNoOutput(s: Script)
    requires Judge(s) == KeepGoing
    ensures !HaltsWithOutput(s)
  {}

  // ---------- The event grammar ----------

  datatype Phase = Between(next: nat) | Inside(iter: nat) | Finished(reason: Reason) | Broken

  /** Iterations are numbered from 0 and bracketed; the run finish comes once, last
      and outside any iteration. */
  function Next(p: Phase, e: Event): Phase {
    match (p, e)
    case (Between(n), IterationStart(i)) => if i == n then Inside(n) else Broken
    case (Between(n), Content) => Between(n)
    case (Between(n), RunFinish(r)) => Finished(r)
    case (Inside(n), Content) => Inside(n)
    case (Inside(n), IterationFinish(i, _)) => if i == n then Between(n + 1) else Broken
    case _ => Broken
  }

  function Track(t: seq<Event>): Phase {
    if t == [] then Between(0) else Next(Track(t[..|t| - 1]), t[|t| - 1])
  }

  /** The reasons the iterations of a trace finish with, in order. */
  function Reasons(t: seq<Event>): seq<Reason> {
    if t == [] then []
    else
      var last := t[|t| - 1];
      Reasons(t[..|t| - 1]) + if last.IterationFinish? then [last.reason] else []
  }

  /** How many events of a trace are content. */
  function Contents(t: seq<Event>): nat {
    if t == [] then 0 else Contents(t[..|t| - 1]) + if t[|t| - 1].Content? then 1 else 0
  }

  lemma TrackSnoc(t: seq<Event>, e: Event)
    ensures Track(t + [e]) == Next(Track(t), e)
    ensures Contents(t + [e]) == Contents(t) + if e.Content? then 1 else 0
    ensures Reasons(t + [e]) == Reasons(t) + if e.IterationFinish? then [e.reason] else []
  {
    assert (t + [e])[..|t|] == t;
  }

  lemma {:induction false} TrackPrefix(t: seq<Event>, n: nat)
    requires n <= |t| && !Track(t).Broken?
    ensures !Track(t[..n]).Broken? && (n < |t| ==> !Track(t[..n]).Finished?)
    decreases |t|
  {
    if n < |t| {
      var m := |t| - 1;
      TrackPrefix(t[..m], n);
      assert t[..m][..n] == t[..n];
    } else {
      assert t[..n] == t;
    }
  }

  /** What the grammar means: in a finished trace the run finish is the last event
      and the only one, and the iteration open at any point is closed by its own
      finish before any other iteration or the run finish. */
  lemma FinishedTrace(t: seq<Event>, r: Reason)
    requires Track(t) == Finished(r)
    ensures |t| > 0 && t[|t| - 1] == RunFinish(r)
    ensures forall k :: 0 <= k < |t| - 1 ==> !t[k].RunFinish?
    ensures forall k :: 0 <= k < |t| && t[k].IterationStart? ==> ClosedBefore(t, k)
  {
    forall k | 0 <= k < |t| - 1 ensures !t[k].RunFinish? {
      TrackPrefix(t, k);
      TrackPrefix(t, k + 1);
      assert t[..k + 1][..k] == t[..k];
    }
    forall k | 0 <= k < |t| && t[k].IterationStart? ensures ClosedBefore(t, k) {
      TrackPrefix(t, k);
      TrackPrefix(t, k + 1);
      assert t[..k + 1][..k] == t[..k];
      FindFinish(t, k, k + 1);
    }
  }

  /** The iteration started at k finishes at some later q with only content between. */
  ghost predicate ClosedBefore(t: seq<Event>, k: nat)
    requires k < |t| && t[k].IterationStart?
  {
    exists q :: k < q < |t| && t[q].IterationFinish? && t[q].iter == t[k].iter
                && forall j :: k < j < q ==> t[j].Content?
  }

  lemma {:induction false} FindFinish(t: seq<Event>, k: nat, m: nat)
    requires k < m <= |t| && t[k].IterationStart? && Track(t).Finished?
    requires Track(t[..m]) == Inside(t[k].iter) && forall j :: k < j < m ==> t[j].Content?
    ensures ClosedBefore(t, k)
    decreases |t| - m
  {
    assert t[..|t|] == t;
    assert m < |t|;
    TrackPrefix(t, m + 1);
    assert t[..m + 1][..m] == t[..m];
    if t[m].Content? {
      FindFinish(t, k, m + 1);
    }
  }

  // ---------- The run ----------

  class Run {
    const streaming: bool
    /** There is a memory with a store, and the task belongs to a thread. */
    const memory: bool
    /** Events sent on the channel, in order. */
    var sent: seq<Event>
    /** Times the channel has been closed; sync.Once. */
    var closes: nat
    var closeOnce: bool
    /** Turns persisted. */
    var persisted: nat
    /** Whether any step trace has been recorded. */
    var hasSteps: bool
    /** Iterations begun, and iterations ended by endIteration. */
    var begun: nat
    var ended: nat

    constructor (streaming: bool, memory: bool)
      ensures this.streaming == streaming && this.memory == memory && Ready(0) && !hasSteps && sent == []
    {
      this.streaming, this.memory := streaming, memory;
      sent, closes, closeOnce, persisted, hasSteps, begun, ended := [], 0, false, 0, false, 0, 0;
    }

    /** Once, where there is a memory to persist into. */
    function Once(): nat {
      if memory then 1 else 0
    }

    /** The channel is open and nothing has been persisted. */
    ghost predicate Live()
      reads this
    {
      closes == 0 && !closeOnce && persisted == 0 && (!streaming ==> sent == [])
    }

    /** Between iterations, n of them done. */
    ghost predicate Ready(n: nat)
      reads this
    {
      Live() && begun == n && ended == n && (streaming ==> Track(sent) == Between(n))
    }

    /** Inside iteration n. */
    ghost predicate Busy(n: nat)
      reads this
    {
      Live() && begun == n + 1 && ended == n && (streaming ==> Track(sent) == Inside(n))
    }

    /** The run is over: its events are complete, the channel was closed exactly
        once, and the turn was persisted as its reason demands. */
    ghost predicate Complete(reason: Reason)
      reads this
    {
      && begun == ended && closeOnce == streaming
      && closes == (if streaming then 1 else 0)
      && (if streaming then Track(sent) == Finished(reason) else sent == [])
      && persisted <= Once()
      && (reason.Stop? || reason.MaxIter? || reason.Halted? ==> persisted == Once())
      && (reason.Suspended? ==> persisted == 0)
      && (reason.Error? && hasSteps ==> persisted == Once())
    }

    /** The stream has announced exactly these reasons for iterations since then. */
    ghost predicate Finishes(before: seq<Event>, reasons: seq<Reason>)
      reads this
    {
      streaming ==> Reasons(sent) == Reasons(before) + reasons
    }

    /** And this much content. */
    ghost predicate Emits(before: seq<Event>, n: nat)
      reads this
    {
      streaming ==> Contents(sent) == Contents(before) + n
    }

    /** Persisted as an error is: exactly if there is something to tell. */
    ghost predicate ErrorKept(hasOutput: bool)
      reads this
    {
      persisted == if hasOutput || hasSteps then Once() else 0
    }

    /** Sending on a closed channel would panic. */
    method Emit(e: Event)
      requires streaming ==> closes == 0
      modifies this`sent
      ensures sent == if streaming then old(sent) + [e] else old(sent)
    {
      if streaming {
        TrackSnoc(sent, e);
        sent := sent + [e];
      }
    }

    /** Any number of content events: provider deltas, tool and sub-agent events. */
    method EmitContent(n: nat)
      requires streaming ==> closes == 0
      modifies this`sent
      ensures !streaming ==> sent == old(sent)
      ensures Reasons(sent) == Reasons(old(sent)) && Emits(old(sent), n)
      ensures Track(old(sent)).Between? || Track(old(sent)).Inside? ==> Track(sent) == Track(old(sent))
    {
      for i := 0 to n
        invariant !streaming ==> sent == old(sent)
        invariant Reasons(sent) == Reasons(old(sent)) && Emits(old(sent), i)
        invariant Track(old(sent)).Between? || Track(old(sent)).Inside? ==> Track(sent) == Track(old(sent))
      {
        TrackSnoc(sent, Content);
        Emit(Content);
      }
    }

    method SafeClose()
      modifies this`closes, this`closeOnce
      ensures closeOnce == (old(closeOnce) || streaming)
      ensures closes == old(closes) + (if streaming && !old(closeOnce) then 1 else 0)
    {
      if streaming && !closeOnce {
        closeOnce := true;
        closes := closes + 1;
      }
    }

    method EndIteration(n: nat, reason: Reason)
      requires Busy(n)
      modifies this`sent, this`ended
      ensures Ready(n + 1)
      ensures streaming ==> sent == old(sent) + [IterationFinish(n, reason)]
      ensures Finishes(old(sent), [reason]) && Emits(old(sent), 0)
    {
      ended := ended + 1;
      TrackSnoc(sent, IterationFinish(n, reason));
      Emit(IterationFinish(n, reason));
    }

    method FinalizeRun(reason: Reason)
      requires closes == 0 && !closeOnce && begun == ended && persisted <= Once()
      requires if streaming then Track(sent).Between? else sent == []
      requires reason.Stop? || reason.MaxIter? || reason.Halted? ==> persisted == Once()
      requires reason.Suspended? ==> persisted == 0
      requires reason.Error? && hasSteps ==> persisted == Once()
      modifies this`sent, this`closes, this`closeOnce
      ensures Complete(reason) && Finishes(old(sent), []) && Emits(old(sent), 0)
    {
      TrackSnoc(sent, RunFinish(reason));
      Emit(RunFinish(reason));
      SafeClose();
    }

    method PersistTurn()
      modifies this`persisted
      ensures persisted == old(persisted) + Once()
    {
      if !memory {
        return;
      }
      persisted := persisted + 1;
    }

    /** Persists a turn that did real work before it was interrupted. */
    method PersistInterruptedTurn(hasOutput: bool)
      modifies this`persisted
      ensures persisted == old(persisted) + (if hasOutput || hasSteps then Once() else 0)
    {
      if !memory || (!hasOutput && !hasSteps) {
        return;
      }
      PersistTurn();
    }

    method TerminateIteration(reason: Reason, hasOutput: bool, ghost n: nat) returns (e: Ending)
      requires Ready(n) && (reason.Suspended? || reason.Error? || reason.Halted?)
      requires reason.Halted? ==> hasOutput
      modifies this
      ensures Complete(reason) && e == Over(reason, reason)
      ensures begun == old(begun) && hasSteps == old(hasSteps)
      ensures Finishes(old(sent), []) && Emits(old(sent), 0) && (reason.Error? ==> ErrorKept(hasOutput))
    {
      if reason != Suspended {
        PersistInterruptedTurn(hasOutput);
      }
      FinalizeRun(reason);
      return Over(reason, reason);
    }

    /** A processor error other than a clean pass, inside iteration n. */
    method ProcessorExit(n: nat, p: Processed) returns (e: Ending)
      requires Busy(n) && !p.Clean?
      modifies this
      ensures e.Over? && e.event == e.result && Complete(e.event) && begun == n + 1
      ensures e.event == ExitReason(p) && Finishes(old(sent), [e.event]) && Emits(old(sent), SuspendEvents(p))
      ensures hasSteps == old(hasSteps) && (e.event.Error? ==> ErrorKept(false))
    {
      if p.Suspend? {
        TrackSnoc(sent, Content);
        Emit(Content);
        EndIteration(n, Suspended);
        e := TerminateIteration(Suspended, false, n + 1);
      } else {
        EndIteration(n, HaltReason(p.hasOutput));
        e := TerminateIteration(HaltReason(p.hasOutput), p.hasOutput, n + 1);
      }
    }

    /** The exits of runPostLLMOrHandle, which finalize without terminateIteration.
        During forced synthesis there is no iteration to end. */
    method PostLLMExit(n: nat, p: Processed, synthesis: bool) returns (e: Ending)
      requires !p.Clean? && if synthesis then Ready(n) else Busy(n)
      modifies this
      ensures e.Over? && e.event == e.result && Complete(e.event) && e.event == ExitReason(p)
      ensures begun == old(begun) && Finishes(old(sent), if synthesis then [] else [e.event])
      ensures Emits(old(sent), SuspendEvents(p))
      ensures hasSteps == old(hasSteps) && (e.event.Error? ==> ErrorKept(false))
    {
      if p.Suspend? {
        TrackSnoc(sent, Content);
        Emit(Content);
        if !synthesis {
          EndIteration(n, Suspended);
        }
        FinalizeRun(Suspended);
        return Over(Suspended, Suspended);
      }
      var reason := HaltReason(p.hasOutput);
      if !synthesis {
        EndIteration(n, reason);
      }
      PersistInterruptedTurn(p.hasOutput);
      FinalizeRun(reason);
      return Over(reason, reason);
    }

    method FinalizeIterationStop(n: nat) returns (e: Ending)
      requires Busy(n)
      modifies this
      ensures Complete(Stop) && e == Over(Stop, Stop) && begun == n + 1
      ensures Finishes(old(sent), [Stop]) && Emits(old(sent), 0) && hasSteps == old(hasSteps)
    {
      EndIteration(n, Stop);
      PersistTurn();
      FinalizeRun(Stop);
      return Over(Stop, Stop);
    }

    /** A failed LLM call: the iteration ends first, then the hook decides. */
    method LLMFailed(n: nat, d: OnError) returns (e: Ending)
      requires Busy(n)
      modifies this
      ensures begun == n + 1
      ensures e.GoesOn? <==> d.Retry?
      ensures e.GoesOn? ==> Ready(n + 1)
      ensures e.Over? ==> Complete(Error) && e.event == Error
      ensures e.Over? ==> e.result == Reported(d)
      ensures Finishes(old(sent), [Error]) && Emits(old(sent), 0) && hasSteps == old(hasSteps)
      ensures e.Over? ==> ErrorKept(d.HaltWith? && d.hasOutput)
    {
      EndIteration(n, Error);
      match d
      case Retry =>
        return GoesOn;
      case OnErrorFails =>
        PersistInterruptedTurn(false);
        FinalizeRun(Error);
        return Over(Error, Unset);
      case HaltWith(hasOutput, reason) =>
        PersistInterruptedTurn(hasOutput);
        FinalizeRun(Error);
        return Over(Error, reason);
      case Unhandled =>
        e := TerminateIteration(Error, false, n + 1);
    }

    /** The branch of an iteration without tool calls. */
    method FinalResponse(n: nat, s: Script) returns (e: Ending)
      requires Busy(n)
      modifies this
      requires s.tools == []
      ensures begun == n + 1
      ensures e.GoesOn? ==> Ready(n + 1)
      ensures e.Over? ==> e.event == e.result && Complete(e.event)
      ensures Decided(s) == if e.GoesOn? then KeepGoing else EndWith(e.event)
      ensures Finishes(old(sent), [if e.GoesOn? then Stop else e.event])
      ensures Emits(old(sent), if s.objectFinish && (s.decision.NoHook? || s.decision.Continue?) then 1 else 0)
      ensures hasSteps == (old(hasSteps) || (s.decision.Inject? && s.narration))
      ensures e.Over? && e.event.Error? ==> ErrorKept(false)
    {
      hide Track, Reasons, Contents, Complete;
      match s.decision {
        case HookFails =>
          EndIteration(n, Error);
          e := TerminateIteration(Error, false, n + 1);
          return;
        case StopWith =>
          e := FinalizeIterationStop(n);
          return;
        case Inject =>
          hasSteps := hasSteps || s.narration;
          EndIteration(n, Stop);
          return GoesOn;
        case _ =>
      }
      EndIteration(n, Stop);
      PersistTurn();
      EmitContent(if s.objectFinish then 1 else 0);
      FinalizeRun(Stop);
      return Over(Stop, Stop);
    }

    /** The results of the tool calls in turn, up to the first one a processor objects to. */
    method ToolResults(n: nat, s: Script) returns (e: Ending)
      requires Busy(n) && s.tools != []
      modifies this
      ensures begun == n + 1 && hasSteps && Emits(old(sent), ResultEvents(s.tools))
      ensures FirstExit(s.tools) == if e.GoesOn? then KeepGoing else EndWith(e.event)
      ensures e.GoesOn? ==> Busy(n) && Finishes(old(sent), [])
      ensures e.Over? ==> e.event == e.result && Complete(e.event) && Finishes(old(sent), [e.event])
      ensures e.Over? && e.event.Error? ==> ErrorKept(false)
    {
      hide Track, Reasons, Contents, Complete, FirstExit, ResultEvents;
      for j := 0 to |s.tools|
        invariant Busy(n) && forall k :: 0 <= k < j ==> s.tools[k].Clean?
        invariant Finishes(old(sent), []) && Emits(old(sent), j) && (j > 0 ==> hasSteps)
      {
        EmitContent(1);
        hasSteps := true;
        if !s.tools[j].Clean? {
          ExitAt(s.tools, j);
          e := ProcessorExit(n, s.tools[j]);
          return;
        }
      }
      NoExit(s.tools);
      return GoesOn;
    }

    /** The branch with tool calls: dispatch, the results, then the decision. */
    method ToolCallsBranch(n: nat, s: Script) returns (e: Ending)
      requires Busy(n) && s.tools != []
      modifies this
      ensures begun == n + 1
      ensures e.GoesOn? ==> Ready(n + 1)
      ensures e.Over? ==> e.event == e.result && Complete(e.event)
      ensures (if FirstExit(s.tools).EndWith? then FirstExit(s.tools) else Decided(s))
           == if e.GoesOn? then KeepGoing else EndWith(e.event)
      ensures Finishes(old(sent), [if e.GoesOn? then ToolCalls else e.event])
      ensures Emits(old(sent), |s.tools| + s.toolChatter + ResultEvents(s.tools))
      ensures hasSteps && (e.Over? && e.event.Error? ==> ErrorKept(false))
    {
      hide Track, Reasons, Contents, Complete, FirstExit, ResultEvents;
      hasSteps := hasSteps || s.narration;
      EmitContent(|s.tools| + s.toolChatter);
      e := ToolResults(n, s);
      if e.Over? {
        return;
      }
      match s.decision {
        case HookFails =>
          EndIteration(n, Error);
          e := TerminateIteration(Error, false, n + 1);
          return;
        case StopWith =>
          e := FinalizeIterationStop(n);
          return;
        case _ =>
      }
      EndIteration(n, ToolCalls);
      return GoesOn;
    }

    method RunIteration(n: nat, s: Script) returns (e: Ending)
      requires Ready(n)
      modifies this
      ensures begun == n + 1
      ensures e.GoesOn? ==> Ready(n + 1)
      ensures e.Over? ==> Complete(e.event)
      ensures Judge(s) == if e.GoesOn? then KeepGoing else EndWith(e.event)
      ensures ReportsElse(s) ==> e.Over? && e.result == Reported(s.onError)
      ensures e.Over? && e.event != e.result <==> ReportsElse(s)
      ensures Finishes(old(sent), [FinishOf(s)]) && Emits(old(sent), ContentOf(s))
      ensures hasSteps == (old(hasSteps) || LeavesSteps(s))
      ensures e.Over? && e.event.Error? ==> ErrorKept(HaltsWithOutput(s))
    {
      hide Track, Reasons, Contents, Complete, FirstExit, ResultEvents;
      TrackSnoc(sent, IterationStart(n));
      begun := begun + 1;
      Emit(IterationStart(n));
      if !s.pre.Clean? {
        e := ProcessorExit(n, s.pre);
        return;
      }
      if s.prepareFails {
        EndIteration(n, Error);
        e := TerminateIteration(Error, false, n + 1);
        return;
      }
      EmitContent(s.chatter);
      if s.llmFails {
        e := LLMFailed(n, s.onError);
        return;
      }
      FirstExitCons(s.post, s.tools);
      if !s.post.Clean? {
        e := PostLLMExit(n, s.post, false);
        return;
      }
      EmitContent(if s.thinking then 1 else 0);
      if s.tools == [] {
        e := FinalResponse(n, s);
      } else {
        e := ToolCallsBranch(n, s);
      }
    }

    /** forceSynthesis, after the last iteration. */
    method ForceSynthesis(n: nat, s: Script) returns (e: Ending)
      requires Ready(n)
      modifies this
      ensures e.Over? && e.event == e.result && Complete(e.event) && begun == n
      ensures e.event == JudgeSynthesis(s) && Finishes(old(sent), []) && Emits(old(sent), SynthesisContent(s))
      ensures hasSteps == old(hasSteps) && (e.event.Error? ==> ErrorKept(false))
    {
      EmitContent(s.chatter);
      if s.llmFails {
        e := TerminateIteration(Error, false, n);
        return;
      }
      if !s.post.Clean? {
        e := PostLLMExit(n, s.post, true);
        return;
      }
      PersistTurn();
      EmitContent(if s.objectFinish then 1 else 0);
      FinalizeRun(MaxIter);
      return Over(MaxIter, MaxIter);
    }
  }

  /** runLoop on any scripts: iterations up to the first that must end the run, or all
      maxIter and then synthesis; at the end the run is complete, for that reason.
      The result carries the reason announced on the stream exactly when the last
      iteration did not end in an OnError exit that reports something else. */
  method Execute(streaming: bool, memory: bool, maxIter: nat, scripts: nat -> Script, synthesis: Script)
    returns (run: Run, event: Reason, result: Reason)
    ensures fresh(run) && run.streaming == streaming && run.memory == memory
    ensures run.Complete(event) && run.begun <= maxIter
    ensures (0 < run.begun && Judge(scripts(run.begun - 1)) == EndWith(event)
             && forall j :: 0 <= j < run.begun - 1 ==> Judge(scripts(j)) == KeepGoing)
         || (run.begun == maxIter && event == JudgeSynthesis(synthesis)
             && forall j :: 0 <= j < maxIter ==> Judge(scripts(j)) == KeepGoing)
    ensures result == if run.begun > 0 && ReportsElse(scripts(run.begun - 1))
                      then Reported(scripts(run.begun - 1).onError) else event
    ensures event == result <==> run.begun == 0 || !ReportsElse(scripts(run.begun - 1))
    ensures streaming ==> |Reasons(run.sent)| == run.begun
    ensures streaming ==> forall j :: 0 <= j < run.begun ==> Reasons(run.sent)[j] == FinishOf(scripts(j))
    ensures var more := if run.begun == 0 || Judge(scripts(run.begun - 1)).KeepGoing? then SynthesisContent(synthesis) else 0;
      streaming ==> Contents(run.sent) == TotalContent(scripts, run.begun) + more
    ensures run.hasSteps <==> exists j :: 0 <= j < run.begun && LeavesSteps(scripts(j))
    ensures event.Error? ==> run.ErrorKept(run.begun > 0 && HaltsWithOutput(scripts(run.begun - 1)))
  {
    hide Judge, FinishOf, ReportsElse, LeavesSteps, HaltsWithOutput, ContentOf, SynthesisContent, Track;
    run := new Run(streaming, memory);
    for i := 0 to maxIter
      invariant fresh(run) && run.streaming == streaming && run.memory == memory && run.Ready(i)
      invariant forall j :: 0 <= j < i ==> !ReportsElse(scripts(j)) && Judge(scripts(j)) == KeepGoing
      invariant streaming ==> |Reasons(run.sent)| == i
      invariant streaming ==> forall j :: 0 <= j < i ==> Reasons(run.sent)[j] == FinishOf(scripts(j))
      invariant streaming ==> Contents(run.sent) == TotalContent(scripts, i)
      invariant run.hasSteps <==> exists j :: 0 <= j < i && LeavesSteps(scripts(j))
    {
      var e := run.RunIteration(i, scripts(i));
      if e.Over? {
        return run, e.event, e.result;
      }
    }
    if maxIter > 0 {
      RetryHasNoOutput(scripts(maxIter - 1));
    }
    var e := run.ForceSynthesis(maxIter, synthesis);
    return run, e.event, e.result;
  }

  /** A model call fails and the OnError hook fails too. */
  const HOOK_BROKEN := Script(Clean, false, 0, true, OnErrorFails, Clean, false, false, [], 0, NoHook, false)

  /** The concrete case: such a run announces an error and returns no finish reason. */
  method HookFailureUnreported(streaming: bool, memory: bool, maxIter: nat, synthesis: Script)
    returns (run: Run, event: Reason, result: Reason)
    requires maxIter > 0
    ensures fresh(run) && run.Complete(event) && run.begun == 1
    ensures event == Error && result == Unset
  {
    var scripts := (_: nat) => HOOK_BROKEN;
    assert ReportsElse(scripts(0)) && Judge(scripts(0)) == EndWith(Error);
    run, event, result := Execute(streaming, memory, maxIter, scripts, synthesis);
  }
}
