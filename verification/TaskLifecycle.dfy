/**
 The life of A2A tasks (a2a/server_*.go) with the bounded store's eviction
 (a2a/taskstore.go) as a transition system: one step per critical section, in any
 order. The store lock spans the steps of one Save, while records go on changing.
 */
module TaskLifecycle {
  import opened Basics

  type Id = nat
  type RunId = nat
  type Handle = nat

  /** TaskState of section 4.1.3 of A2A v1.0. */
  datatype TaskState =
    | Unspecified | Submitted | Working | Completed | Failed | Canceled
    | InputRequired | Rejected | AuthRequired

  predicate Terminal(s: TaskState) {
    s.Completed? || s.Failed? || s.Canceled? || s.Rejected?
  }

  /** A TaskRecord: its status, the single-use resume handle, whether a cancel
      handle is published, and the number of messages in its history. */
  datatype Record = Record(state: TaskState, resume: Option<Handle>, cancel: bool, history: nat)

  /** An agent run working for a task: not yet at its first lock, executing with a
      published cancel handle, or continuing a suspended run without one. */
  datatype Phase = Starting | Executing | Resumed

  datatype AgentRun = AgentRun(task: Id, phase: Phase, ctxDone: bool)

  /** The store lock: free, or held by a Save that is about to look at the entry at
      `cursor`, or that has seen that entry terminal and is about to remove it. */
  datatype StoreLock = Free | Scanning(cursor: nat) | Removing(cursor: nat)

  datatype System = System(
    tasks: map<Id, Record>,
    runs: map<RunId, AgentRun>,
    issued: set<Handle>,
    consumed: seq<Handle>,
    order: seq<Id>,
    saved: set<Id>,
    lock: StoreLock)

  /** What Execute or Resume came back with. */
  datatype Outcome = Finished | Suspended(handle: Handle) | Errored(isCanceled: bool)

  datatype Step =
    | NewTask(id: Id, run: RunId, blocking: bool)
    | NewStream(id: Id, run: RunId)
    | StartRun(run: RunId)
    | Settle(run: RunId, outcome: Outcome)
    | Resume(id: Id, run: RunId)
    | Cancel(id: Id)
    | ContextDone(run: RunId)
    | LoseRun(run: RunId)
    | BeginSave(id: Id)
    | ScanEntry
    | RemoveEntry

  ghost predicate Init(s: System) {
    s == System(map[], map[], {}, [], [], {}, Free)
  }

  function Without<K, V>(m: map<K, V>, k: K): map<K, V> {
    m - {k}
  }

  function SettledState(run: AgentRun, o: Outcome): TaskState {
    match o
    case Finished => Completed
    case Suspended(_) => InputRequired
    case Errored(isCanceled) => if isCanceled || run.ctxDone then Canceled else Failed
  }

  /** settle: drop the cancel handle, then complete, fail, cancel or suspend. */
  function SettleRecord(r: Record, run: AgentRun, o: Outcome): Record {
    r.(cancel := false,
       state := SettledState(run, o),
       resume := if o.Suspended? then Some(o.handle) else r.resume)
  }

  /** handleTasksCancel: a terminal task is refused, an input-required task is
      settled here, any other is left to its run. */
  function CancelRecord(r: Record): Record {
    if Terminal(r.state) || r.resume.None? then r
    else r.(resume := None, state := Canceled)
  }

  function CancelRuns(runs: map<RunId, AgentRun>, id: Id): map<RunId, AgentRun> {
    map r | r in runs ::
      if runs[r].task == id && runs[r].phase.Executing? then runs[r].(ctxDone := true) else runs[r]
  }

  ghost predicate Enabled(s: System, step: Step) {
    match step
    case NewTask(id, run, _) => id !in s.tasks && run !in s.runs
    case NewStream(id, run) => id !in s.tasks && run !in s.runs
    case StartRun(run) => run in s.runs && s.runs[run].phase.Starting? && s.runs[run].task in s.tasks
    case Settle(run, o) =>
      && run in s.runs && !s.runs[run].phase.Starting? && s.runs[run].task in s.tasks
      && (o.Suspended? ==> o.handle !in s.issued)
    case Resume(id, run) => id in s.tasks && run !in s.runs
    case Cancel(id) => id in s.tasks
    case ContextDone(run) => run in s.runs
    case LoseRun(run) => run in s.runs && s.runs[run].phase.Resumed?
    case BeginSave(id) => s.lock.Free? && id in s.tasks
    case ScanEntry => s.lock.Scanning?
    case RemoveEntry => s.lock.Removing? && s.lock.cursor < |s.order|
  }

  /** resumeTask claims the handle only from an input-required task that has one. */
  predicate Resumable(r: Record) {
    r.state.InputRequired? && r.resume.Some?
  }

  ghost function Apply(cap: nat, s: System, step: Step): System
    requires Enabled(s, step)
  {
    match step
    case NewTask(id, run, blocking) =>
      s.(tasks := s.tasks[id := Record(if blocking then Submitted else Working, None, false, 1)],
         runs := s.runs[run := AgentRun(id, Starting, false)])
    case NewStream(id, run) =>
      s.(tasks := s.tasks[id := Record(Working, None, true, 1)],
         runs := s.runs[run := AgentRun(id, Executing, false)])
    case StartRun(run) =>
      var id := s.runs[run].task;
      s.(tasks := s.tasks[id := s.tasks[id].(cancel := true, state := Working)],
         runs := s.runs[run := s.runs[run].(phase := Executing)])
    case Settle(run, o) =>
      var id := s.runs[run].task;
      s.(tasks := s.tasks[id := SettleRecord(s.tasks[id], s.runs[run], o)],
         runs := Without(s.runs, run),
         issued := if o.Suspended? then s.issued + {o.handle} else s.issued)
    case Resume(id, run) =>
      var r := s.tasks[id];
      if !Resumable(r) then s
      else
        s.(tasks := s.tasks[id := r.(resume := None, state := Working, history := r.history + 1)],
           runs := s.runs[run := AgentRun(id, Resumed, false)],
           consumed := s.consumed + [r.resume.value])
    case Cancel(id) =>
      var r := s.tasks[id];
      s.(tasks := s.tasks[id := CancelRecord(r)],
         runs := if !Terminal(r.state) && r.cancel then CancelRuns(s.runs, id) else s.runs)
    case ContextDone(run) =>
      s.(runs := s.runs[run := s.runs[run].(ctxDone := true)])
    case LoseRun(run) =>
      s.(runs := Without(s.runs, run))
    case BeginSave(id) =>
      if id in s.order then s
      else s.(order := s.order + [id], saved := s.saved + {id}, lock := Scanning(0))
    case ScanEntry =>
      var c := s.lock.cursor;
      if |s.order| <= cap || c >= |s.order| then s.(lock := Free)
      else if s.order[c] in s.tasks && Terminal(s.tasks[s.order[c]].state) then s.(lock := Removing(c))
      else s.(lock := Scanning(c + 1))
    case RemoveEntry =>
      var c := s.lock.cursor;
      s.(order := s.order[..c] + s.order[c + 1..], lock := Scanning(0))
  }

  // ---------- The invariant ----------

  /** The record fields agree with each other and with the task's run. */
  ghost predicate RecordOk(s: System, id: Id)
    requires id in s.tasks
  {
    var r := s.tasks[id];
    && (r.resume.Some? <==> r.state.InputRequired?)
    && (r.cancel ==> r.state.Working?)
    && (r.resume.Some? ==> r.resume.value in s.issued && r.resume.value !in s.consumed)
    && (r.state.Submitted? || r.state.Working? || r.state.InputRequired? || Terminal(r.state))
  }

  /** A run in flight keeps its task out of every settled state. */
  ghost predicate RunOk(s: System, run: RunId)
    requires run in s.runs
  {
    var a := s.runs[run];
    && a.task in s.tasks
    && var r := s.tasks[a.task];
       && (a.phase.Starting? ==> !r.cancel && (r.state.Submitted? || r.state.Working?))
       && (a.phase.Executing? ==> r.cancel && r.state.Working?)
       && (a.phase.Resumed? ==> !r.cancel && r.state.Working?)
  }

  ghost predicate AtMostOneRun(s: System) {
    forall a, b :: a in s.runs && b in s.runs && s.runs[a].task == s.runs[b].task ==> a == b
  }

  predicate SameHandle(a: Record, b: Record) {
    a.resume.Some? && a.resume == b.resume
  }

  /** A published cancel handle belongs to a run that is executing. */
  ghost predicate CancelOwned(s: System) {
    forall id :: id in s.tasks && s.tasks[id].cancel ==> exists run :: RunsFor(s, run, id)
  }

  ghost predicate RunsFor(s: System, run: RunId, id: Id) {
    run in s.runs && s.runs[run].task == id && s.runs[run].phase.Executing?
  }

  ghost predicate HandlesOk(s: System) {
    && (forall i :: 0 <= i < |s.consumed| ==> s.consumed[i] in s.issued)
    && (forall i, j :: 0 <= i < j < |s.consumed| ==> s.consumed[i] != s.consumed[j])
    && (forall a, b :: a in s.tasks && b in s.tasks && SameHandle(s.tasks[a], s.tasks[b]) ==> a == b)
  }

  ghost predicate RecordsOk(s: System) {
    forall id :: id in s.tasks ==> RecordOk(s, id)
  }

  ghost predicate RunsOk(s: System) {
    forall run :: run in s.runs ==> RunOk(s, run)
  }

  /** The store: no entry twice, every saved task that is gone had ended, and an
      entry about to be removed has ended. */
  ghost predicate StoreOk(s: System) {
    && (forall i, j :: 0 <= i < j < |s.order| ==> s.order[i] != s.order[j])
    && (forall i :: 0 <= i < |s.order| ==> s.order[i] in s.saved)
    && (forall id :: id in s.saved ==> id in s.tasks && (id in s.order || Terminal(s.tasks[id].state)))
    && (s.lock.Removing? ==>
          s.lock.cursor < |s.order| && s.order[s.lock.cursor] in s.tasks
          && Terminal(s.tasks[s.order[s.lock.cursor]].state))
  }

  ghost predicate Inv(s: System) {
    RecordsOk(s) && RunsOk(s) && AtMostOneRun(s) && CancelOwned(s) && HandlesOk(s) && StoreOk(s)
  }

  // ---------- Every step keeps it ----------

  lemma TerminalStep(cap: nat, s: System, step: Step, id: Id)
    requires Inv(s) && Enabled(s, step) && id in s.tasks && Terminal(s.tasks[id].state)
    ensures var s' := Apply(cap, s, step); id in s'.tasks && s'.tasks[id] == s.tasks[id]
  {
    assert RecordOk(s, id);
    match step
    case StartRun(run) => assert RunOk(s, run);
    case Settle(run, _) => assert RunOk(s, run);
    case _ =>
  }

  lemma RecordStep(cap: nat, s: System, step: Step, id: Id)
    requires Inv(s) && Enabled(s, step) && id in Apply(cap, s, step).tasks
    ensures RecordOk(Apply(cap, s, step), id)
  {
    hide StoreOk, CancelOwned, AtMostOneRun;
    if id in s.tasks {
      assert RecordOk(s, id);
    }
    match step
    case StartRun(run) => assert RunOk(s, run);
    case Settle(run, _) => assert RunOk(s, run);
    case Resume(i, _) => assert RecordOk(s, i);
    case _ =>
  }

  lemma RecordsStep(cap: nat, s: System, step: Step)
    requires Inv(s) && Enabled(s, step)
    ensures RecordsOk(Apply(cap, s, step))
  {
    hide Inv, Apply, Enabled, RecordOk;
    forall id | id in Apply(cap, s, step).tasks ensures RecordOk(Apply(cap, s, step), id) {
      RecordStep(cap, s, step, id);
    }
  }

  lemma RunStep(cap: nat, s: System, step: Step, run: RunId)
    requires Inv(s) && Enabled(s, step) && run in Apply(cap, s, step).runs
    ensures RunOk(Apply(cap, s, step), run)
  {
    hide StoreOk, CancelOwned, HandlesOk;
    if run in s.runs {
      assert RunOk(s, run);
      assert RecordOk(s, s.runs[run].task);
    }
    if step.Resume? {
      assert RecordOk(s, step.id);
    }
  }

  lemma RunsStep(cap: nat, s: System, step: Step)
    requires Inv(s) && Enabled(s, step)
    ensures RunsOk(Apply(cap, s, step))
  {
    hide Inv, Apply, Enabled, RunOk;
    forall run | run in Apply(cap, s, step).runs ensures RunOk(Apply(cap, s, step), run) {
      RunStep(cap, s, step, run);
    }
  }

  lemma OneRunStep(cap: nat, s: System, step: Step)
    requires Inv(s) && Enabled(s, step)
    ensures AtMostOneRun(Apply(cap, s, step))
  {
    var s' := Apply(cap, s, step);
    forall a, b | a in s'.runs && b in s'.runs && s'.runs[a].task == s'.runs[b].task ensures a == b {
      assert a in s.runs ==> RunOk(s, a);
      assert b in s.runs ==> RunOk(s, b);
    }
  }

  lemma CancelOwnedStep(cap: nat, s: System, step: Step)
    requires Inv(s) && Enabled(s, step)
    ensures CancelOwned(Apply(cap, s, step))
  {
    var s' := Apply(cap, s, step);
    forall id | id in s'.tasks && s'.tasks[id].cancel ensures exists run :: RunsFor(s', run, id) {
      if id in s.tasks && s.tasks[id].cancel {
        var run :| RunsFor(s, run, id);
        if step.Settle? && step.run != run {
          assert s.runs[step.run].task != id;
        }
        assert RunsFor(s', run, id);
      } else {
        assert RunsFor(s', step.run, id);
      }
    }
  }

  lemma HandlesStep(cap: nat, s: System, step: Step)
    requires Inv(s) && Enabled(s, step)
    ensures HandlesOk(Apply(cap, s, step))
  {
    match step
    case Settle(run, _) =>
      assert RunOk(s, run) && RecordOk(s, s.runs[run].task);
      forall id | id in s.tasks ensures RecordOk(s, id) { }
    case Resume(id, _) => assert RecordOk(s, id);
    case Cancel(id) => assert RecordOk(s, id);
    case StartRun(run) => assert RunOk(s, run);
    case _ =>
  }

  lemma SavedStep(cap: nat, s: System, step: Step)
    requires Inv(s) && Enabled(s, step)
    ensures var s' := Apply(cap, s, step);
            forall id :: id in s'.saved ==> id in s'.tasks && (id in s'.order || Terminal(s'.tasks[id].state))
  {
    hide CancelOwned, HandlesOk, AtMostOneRun, RunsOk;
    var s' := Apply(cap, s, step);
    forall id | id in s'.saved ensures id in s'.tasks && (id in s'.order || Terminal(s'.tasks[id].state)) {
      if id in s.saved && Terminal(s.tasks[id].state) {
        TerminalStep(cap, s, step, id);
      } else if id in s.saved && step.RemoveEntry? {
        var c := s.lock.cursor;
        var k :| 0 <= k < |s.order| && s.order[k] == id;
        assert id == if k < c then s'.order[k] else s'.order[k - 1];
      } else if step.BeginSave? && id == step.id {
        assert id in s.order || s'.order[|s.order|] == id;
      } else {
        assert id in s.order && id in s.saved;
      }
    }
  }

  lemma OrderStep(cap: nat, s: System, step: Step)
    requires Inv(s) && Enabled(s, step)
    ensures var s' := Apply(cap, s, step);
            && (forall i, j :: 0 <= i < j < |s'.order| ==> s'.order[i] != s'.order[j])
            && (forall i :: 0 <= i < |s'.order| ==> s'.order[i] in s'.saved)
  {
  }

  lemma LockStep(cap: nat, s: System, step: Step)
    requires Inv(s) && Enabled(s, step)
    ensures var s' := Apply(cap, s, step);
            s'.lock.Removing? ==>
              s'.lock.cursor < |s'.order| && s'.order[s'.lock.cursor] in s'.tasks
              && Terminal(s'.tasks[s'.order[s'.lock.cursor]].state)
  {
    if s.lock.Removing? {
      TerminalStep(cap, s, step, s.order[s.lock.cursor]);
    }
  }

  lemma StoreStep(cap: nat, s: System, step: Step)
    requires Inv(s) && Enabled(s, step)
    ensures StoreOk(Apply(cap, s, step))
  {
    hide Inv, Apply, Enabled;
    SavedStep(cap, s, step);
    OrderStep(cap, s, step);
    LockStep(cap, s, step);
  }

  lemma InvStep(cap: nat, s: System, step: Step)
    requires Inv(s) && Enabled(s, step)
    ensures Inv(Apply(cap, s, step))
  {
    RecordsStep(cap, s, step);
    RunsStep(cap, s, step);
    OneRunStep(cap, s, step);
    CancelOwnedStep(cap, s, step);
    HandlesStep(cap, s, step);
    StoreStep(cap, s, step);
  }

  // ---------- Whole runs of the server ----------

  /** States visited by the steps, from the start. */
  ghost predicate Behaviour(cap: nat, states: seq<System>, steps: seq<Step>) {
    && |states| == |steps| + 1 && Init(states[0])
    && forall i :: 0 <= i < |steps| ==> Enabled(states[i], steps[i]) && states[i + 1] == Apply(cap, states[i], steps[i])
  }

  lemma {:induction false} InvAlways(cap: nat, states: seq<System>, steps: seq<Step>, n: nat)
    requires Behaviour(cap, states, steps) && n < |states|
    ensures Inv(states[n])
    decreases n
  {
    if n > 0 {
      InvAlways(cap, states, steps, n - 1);
      InvStep(cap, states[n - 1], steps[n - 1]);
    }
  }

  /** A task that has reached a terminal state never changes again. */
  lemma {:induction false} TerminalForever(cap: nat, states: seq<System>, steps: seq<Step>, i: nat, j: nat, id: Id)
    requires Behaviour(cap, states, steps) && i <= j < |states|
    requires id in states[i].tasks && Terminal(states[i].tasks[id].state)
    ensures id in states[j].tasks && states[j].tasks[id] == states[i].tasks[id]
    decreases j
  {
    if i < j {
      TerminalForever(cap, states, steps, i, j - 1, id);
      InvAlways(cap, states, steps, j - 1);
      TerminalStep(cap, states[j - 1], steps[j - 1], id);
    }
  }

  /** At any moment: one run per task at most; a resume handle exactly while input
      is required; a cancel handle only while working; no handle used twice. */
  lemma LifecycleSafety(cap: nat, states: seq<System>, steps: seq<Step>, n: nat)
    requires Behaviour(cap, states, steps) && n < |states|
    ensures var s := states[n];
      && AtMostOneRun(s)
      && (forall id :: id in s.tasks ==> (s.tasks[id].resume.Some? <==> s.tasks[id].state.InputRequired?))
      && (forall id :: id in s.tasks && s.tasks[id].cancel ==> s.tasks[id].state.Working?)
      && (forall i, j :: 0 <= i < j < |s.consumed| ==> s.consumed[i] != s.consumed[j])
  {
    InvAlways(cap, states, steps, n);
    forall id | id in states[n].tasks ensures RecordOk(states[n], id) { }
  }

  /** The store never drops a live task, whatever happens while it scans. */
  lemma LiveTasksStay(cap: nat, states: seq<System>, steps: seq<Step>, n: nat, id: Id)
    requires Behaviour(cap, states, steps) && n < |states|
    requires id in states[n].saved && id !in states[n].order
    ensures id in states[n].tasks && Terminal(states[n].tasks[id].state)
  {
    InvAlways(cap, states, steps, n);
  }

  /** A settlement always finds its task working: no cancel, resume or second
      settlement got there first. */
  lemma SettleFindsWorking(cap: nat, states: seq<System>, steps: seq<Step>, n: nat)
    requires Behaviour(cap, states, steps) && n < |steps| && steps[n].Settle?
    ensures var a := states[n].runs[steps[n].run];
            a.task in states[n].tasks && states[n].tasks[a.task].state.Working?
  {
    InvAlways(cap, states, steps, n);
    assert RunOk(states[n], steps[n].run);
  }

  /** CancelTask on a task with a published cancel handle reaches its run, and an
      error from that run then settles the task as canceled. */
  lemma CancelReachesRun(cap: nat, s: System, id: Id)
    requires Inv(s) && id in s.tasks && s.tasks[id].cancel
    ensures var s' := Apply(cap, s, Cancel(id));
      && s'.tasks == s.tasks
      && exists run :: RunsFor(s', run, id) && forall e :: SettledState(s'.runs[run], Errored(e)) == Canceled
  {
    assert RecordOk(s, id);
    var s' := Apply(cap, s, Cancel(id));
    var run :| RunsFor(s, run, id);
    assert RunsFor(s', run, id) && s'.runs[run].ctxDone;
  }

  /** CancelTask: a task waiting for input is canceled on the spot, one with a published
      handle has its run's context done, and any other, ended, not started yet or
      resumed, is left as it was. Runs of other tasks are never touched. */
  lemma CancelEffect(cap: nat, s: System, id: Id)
    requires Inv(s) && id in s.tasks
    ensures var s', r := Apply(cap, s, Cancel(id)), s.tasks[id];
      && (Terminal(r.state) ==> s' == s)
      && (r.resume.None? && !r.cancel ==> s' == s)
      && (r.resume.Some? ==> s'.tasks == s.tasks[id := r.(resume := None, state := Canceled)] && s'.runs == s.runs)
      && (r.cancel ==> s'.tasks == s.tasks && exists run :: RunsFor(s', run, id) && s'.runs[run].ctxDone)
      && (forall run :: run in s.runs && s.runs[run].task != id ==> run in s'.runs && s'.runs[run] == s.runs[run])
      && !(r.resume.Some? && r.cancel)
  {
    assert RecordOk(s, id);
    var s', r := Apply(cap, s, Cancel(id)), s.tasks[id];
    assert r.resume.None? ==> s.tasks[id := r] == s.tasks;
    if r.cancel {
      var run :| RunsFor(s, run, id);
      assert RunsFor(s', run, id);
    }
  }

  // A task is sent, asks for input, and is resumed.

  const NOTHING: System := System(map[], map[], {}, [], [], {}, Free)

  const SENT: System :=
    NOTHING.(tasks := map[0 := Record(Submitted, None, false, 1)], runs := map[0 := AgentRun(0, Starting, false)])

  const STARTED: System :=
    NOTHING.(tasks := map[0 := Record(Working, None, true, 1)], runs := map[0 := AgentRun(0, Executing, false)])

  const ASKING: System := NOTHING.(tasks := map[0 := Record(InputRequired, Some(0), false, 1)], issued := {0})

  const RESUMED: System :=
    NOTHING.(tasks := map[0 := Record(Working, None, false, 2)], runs := map[1 := AgentRun(0, Resumed, false)],
             issued := {0}, consumed := [0])

  lemma SentStarts(cap: nat)
    ensures Enabled(NOTHING, NewTask(0, 0, true)) && Apply(cap, NOTHING, NewTask(0, 0, true)) == SENT
    ensures Enabled(SENT, StartRun(0)) && Apply(cap, SENT, StartRun(0)) == STARTED
  {
    assert SENT.tasks[0 := STARTED.tasks[0]] == STARTED.tasks && SENT.runs[0 := STARTED.runs[0]] == STARTED.runs;
  }

  lemma StartedAsks(cap: nat)
    ensures Enabled(STARTED, Settle(0, Suspended(0))) && Apply(cap, STARTED, Settle(0, Suspended(0))) == ASKING
  {
    assert STARTED.tasks[0 := ASKING.tasks[0]] == ASKING.tasks && Without(STARTED.runs, 0) == map[];
  }

  lemma AskingResumes(cap: nat)
    ensures Enabled(ASKING, Resume(0, 1)) && Apply(cap, ASKING, Resume(0, 1)) == RESUMED
    ensures Enabled(RESUMED, Cancel(0)) && Apply(cap, RESUMED, Cancel(0)) == RESUMED
  {
    assert ASKING.tasks[0 := RESUMED.tasks[0]] == RESUMED.tasks && ASKING.consumed + [0] == [0];
    assert RESUMED.tasks[0 := RESUMED.tasks[0]] == RESUMED.tasks;
  }

  /** A task is created, starts, asks for input and is resumed: a cancel now is ignored,
      and its run goes on. */
  lemma ResumedCancelIgnored(cap: nat) returns (states: seq<System>, steps: seq<Step>)
    ensures Behaviour(cap, states, steps) && |steps| == 5 && steps[4] == Cancel(0)
    ensures states[5] == states[4]
    ensures 0 in states[4].tasks && states[4].tasks[0].state.Working?
    ensures 1 in states[4].runs && states[4].runs[1] == AgentRun(0, Resumed, false)
  {
    hide Enabled, Apply;
    SentStarts(cap);
    StartedAsks(cap);
    AskingResumes(cap);
    states := [NOTHING, SENT, STARTED, ASKING, RESUMED, RESUMED];
    steps := [NewTask(0, 0, true), StartRun(0), Settle(0, Suspended(0)), Resume(0, 1), Cancel(0)];
    forall i | 0 <= i < 5 ensures Enabled(states[i], steps[i]) && states[i + 1] == Apply(cap, states[i], steps[i]) {
      if i == 0 {} else if i == 1 {} else if i == 2 {} else if i == 3 {} else {}
    }
  }

  /** Why a task may move from state a to state b. */
  ghost predicate Allowed(s: System, step: Step, id: Id, a: TaskState, b: TaskState) {
    match b
    case Working => (a.Submitted? && step.StartRun?) || (a.InputRequired? && step.Resume? && step.id == id)
    case Completed => a.Working? && SettlesFor(s, step, id) && step.outcome.Finished?
    case InputRequired => a.Working? && SettlesFor(s, step, id) && step.outcome.Suspended?
    case Failed =>
      a.Working? && SettlesFor(s, step, id) && step.outcome == Errored(false) && !s.runs[step.run].ctxDone
    case Canceled =>
      || (a.InputRequired? && step == Cancel(id))
      || (a.Working? && SettlesFor(s, step, id) && step.outcome.Errored? && (step.outcome.isCanceled || s.runs[step.run].ctxDone))
    case _ => false
  }

  predicate SettlesFor(s: System, step: Step, id: Id) {
    step.Settle? && step.run in s.runs && s.runs[step.run].task == id
  }

  lemma MoveStep(cap: nat, s: System, step: Step, id: Id)
    requires Inv(s) && Enabled(s, step) && id in s.tasks
    ensures var s' := Apply(cap, s, step);
      id in s'.tasks && (s'.tasks[id].state != s.tasks[id].state ==> Allowed(s, step, id, s.tasks[id].state, s'.tasks[id].state))
  {
    hide StoreOk, CancelOwned, AtMostOneRun, HandlesOk;
    assert RecordOk(s, id);
    if step.Settle? || step.StartRun? {
      assert RunOk(s, step.run);
    }
  }

  /** The state diagram: over every run a task changes state only along these moves,
      each for its cause; a suspension leaves its own handle to resume with. */
  lemma MovesAllowed(cap: nat, states: seq<System>, steps: seq<Step>, n: nat, id: Id)
    requires Behaviour(cap, states, steps) && n < |steps| && id in states[n].tasks
    ensures id in states[n + 1].tasks
    ensures var a, b := states[n].tasks[id], states[n + 1].tasks[id];
      && (a.state != b.state ==> Allowed(states[n], steps[n], id, a.state, b.state))
      && (a.state != b.state && b.state.InputRequired? ==> b.resume == Some(steps[n].outcome.handle))
  {
    hide Inv, Apply;
    InvAlways(cap, states, steps, n);
    MoveStep(cap, states[n], steps[n], id);
    if SettlesFor(states[n], steps[n], id) && steps[n].outcome.Suspended? {
      SettleLeaves(cap, states[n], steps[n]);
    }
  }

  lemma SettleLeaves(cap: nat, s: System, step: Step)
    requires Enabled(s, step) && step.Settle? && step.outcome.Suspended?
    ensures Apply(cap, s, step).tasks[s.runs[step.run].task].resume == Some(step.outcome.handle)
  {}
}
