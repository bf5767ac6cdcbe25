/**
 What the steps of the A2A server achieve, over every run of it: TaskLifecycle says
 what may never happen, this says what does.
 */
module TaskOutcomes {
  import opened Basics
  import opened TaskLifecycle

  // ---------- Tasks ----------

  /** All tasks but this one are as they were. */
  ghost predicate OthersKept(s: System, s': System, id: Id) {
    forall k :: k in s.tasks && k != id ==> k in s'.tasks && s'.tasks[k] == s.tasks[k]
  }

  /** A new task waits to be started if the caller waits for it, and counts as working
      at once if not; either way exactly one run is about to start for it. */
  lemma NewTaskWaits(cap: nat, states: seq<System>, steps: seq<Step>, n: nat)
    requires Behaviour(cap, states, steps) && n < |steps| && steps[n].NewTask?
    ensures var s, s', id, run := states[n], states[n + 1], steps[n].id, steps[n].run;
      && id !in s.tasks && id in s'.tasks && OthersKept(s, s', id)
      && (s'.tasks[id].state.Submitted? <==> steps[n].blocking)
      && (s'.tasks[id].state.Working? <==> !steps[n].blocking)
      && s'.tasks[id].resume.None? && !s'.tasks[id].cancel && s'.tasks[id].history == 1
      && s'.runs == s.runs[run := AgentRun(id, Starting, false)]
  {}

  /** A streamed task is working with its cancel handle published from the beginning. */
  lemma StreamStarts(cap: nat, states: seq<System>, steps: seq<Step>, n: nat)
    requires Behaviour(cap, states, steps) && n < |steps| && steps[n].NewStream?
    ensures var s, s', id := states[n], states[n + 1], steps[n].id;
      && id !in s.tasks && id in s'.tasks && OthersKept(s, s', id)
      && s'.tasks[id].state.Working? && s'.tasks[id].cancel && s'.tasks[id].resume.None? && s'.tasks[id].history == 1
      && s'.runs == s.runs[steps[n].run := AgentRun(id, Executing, false)]
  {}

  /** Starting publishes the cancel handle and moves the task to working. */
  lemma StartPublishes(cap: nat, states: seq<System>, steps: seq<Step>, n: nat)
    requires Behaviour(cap, states, steps) && n < |steps| && steps[n].StartRun?
    ensures var s, s', run := states[n], states[n + 1], steps[n].run;
      && run in s.runs && run in s'.runs && s.runs[run].task in s'.tasks
      && var id := s.runs[run].task;
      && OthersKept(s, s', id) && s'.tasks[id].state.Working? && s'.tasks[id].cancel
      && s'.runs[run] == AgentRun(id, Executing, s.runs[run].ctxDone)
      && forall k :: k in s.runs && k != run ==> k in s'.runs && s'.runs[k] == s.runs[k]
  {
    InvAlways(cap, states, steps, n);
  }

  /** A settlement settles: the run is gone, and the outcome alone, with the context of
      that run, decides the state of its task, both ways. Only a suspended task can
      be resumed, with the handle of this suspension. */
  lemma SettlementSettles(cap: nat, states: seq<System>, steps: seq<Step>, n: nat)
    requires Behaviour(cap, states, steps) && n < |steps| && steps[n].Settle?
    ensures var s, s', run, o := states[n], states[n + 1], steps[n].run, steps[n].outcome;
      && run in s.runs && s.runs[run].task in s.tasks && s.runs[run].task in s'.tasks
      && s'.runs == s.runs - {run}
      && var a, id := s.runs[run], s.runs[run].task;
      && OthersKept(s, s', id)
      && (s'.tasks[id].state.Completed? <==> o.Finished?)
      && (s'.tasks[id].state.InputRequired? <==> o.Suspended?)
      && (s'.tasks[id].state.Canceled? <==> o.Errored? && (o.isCanceled || a.ctxDone))
      && (s'.tasks[id].state.Failed? <==> o.Errored? && !o.isCanceled && !a.ctxDone)
      && s'.tasks[id].resume == (if o.Suspended? then Some(o.handle) else None)
      && !s'.tasks[id].cancel && s'.tasks[id].history == s.tasks[id].history
  {
    InvAlways(cap, states, steps, n);
    assert RunOk(states[n], steps[n].run);
    assert RecordOk(states[n], states[n].runs[steps[n].run].task);
  }

  /** No task is left working without a run to settle it, unless its resumed run was
      lost. */
  ghost predicate Attended(s: System, lost: set<Id>) {
    forall id :: id in s.tasks && (s.tasks[id].state.Working? || s.tasks[id].state.Submitted?) && id !in lost ==>
      exists run :: WorksFor(s, run, id)
  }

  ghost predicate WorksFor(s: System, run: RunId, id: Id) {
    run in s.runs && s.runs[run].task == id
  }

  /** The tasks whose run was lost in the first n steps. */
  ghost function Lost(states: seq<System>, steps: seq<Step>, n: nat): set<Id>
    requires n <= |steps| && n <= |states|
  {
    if n == 0 then {}
    else
      var before := Lost(states, steps, n - 1);
      var s, step := states[n - 1], steps[n - 1];
      if step.LoseRun? && step.run in s.runs then before + {s.runs[step.run].task} else before
  }

  lemma {:induction false} WorkIsAttended(cap: nat, states: seq<System>, steps: seq<Step>, n: nat)
    requires Behaviour(cap, states, steps) && n <= |steps|
    ensures Attended(states[n], Lost(states, steps, n))
    decreases n
  {
    if n > 0 {
      WorkIsAttended(cap, states, steps, n - 1);
      InvAlways(cap, states, steps, n - 1);
      AttendedStep(cap, states[n - 1], steps[n - 1], Lost(states, steps, n - 1), Lost(states, steps, n));
    }
  }

  lemma AttendedStep(cap: nat, s: System, step: Step, lost: set<Id>, lost': set<Id>)
    requires Inv(s) && Enabled(s, step) && Attended(s, lost)
    requires lost' == if step.LoseRun? then lost + {s.runs[step.run].task} else lost
    ensures Attended(Apply(cap, s, step), lost')
  {
    hide StoreOk, HandlesOk, CancelOwned, Attended;
    var s' := Apply(cap, s, step);
    forall id | id in s'.tasks && (s'.tasks[id].state.Working? || s'.tasks[id].state.Submitted?) && id !in lost'
      ensures exists run :: WorksFor(s', run, id)
    {
      if id in s.tasks && (s.tasks[id].state.Working? || s.tasks[id].state.Submitted?) {
        var run := Attendant(s, lost, id);
        StillWorks(cap, s, step, run, id);
      } else {
        assert WorksFor(s', step.run, id);
      }
    }
    AttendedIs(s', lost');
  }

  lemma Attendant(s: System, lost: set<Id>, id: Id) returns (run: RunId)
    requires Attended(s, lost) && id in s.tasks && (s.tasks[id].state.Working? || s.tasks[id].state.Submitted?) && id !in lost
    ensures WorksFor(s, run, id)
  {
    run :| WorksFor(s, run, id);
  }

  lemma AttendedIs(s: System, lost: set<Id>)
    requires forall id :: id in s.tasks && (s.tasks[id].state.Working? || s.tasks[id].state.Submitted?) && id !in lost ==>
      exists run :: WorksFor(s, run, id)
    ensures Attended(s, lost)
  {}

  lemma StillWorks(cap: nat, s: System, step: Step, run: RunId, id: Id)
    requires Inv(s) && Enabled(s, step) && WorksFor(s, run, id) && id in s.tasks
    requires step.LoseRun? ==> s.runs[step.run].task != id
    requires var s' := Apply(cap, s, step); id in s'.tasks && (s'.tasks[id].state.Working? || s'.tasks[id].state.Submitted?)
    ensures WorksFor(Apply(cap, s, step), run, id)
  {
    hide StoreOk, HandlesOk, CancelOwned;
  }

  /** A follow-up message resumes a task that waits for input: its handle is used up, the
      message joins the history, and one run continues it. Any other task, and
      everything else, stays as it was. */
  lemma ResumeContinues(cap: nat, states: seq<System>, steps: seq<Step>, n: nat)
    requires Behaviour(cap, states, steps) && n < |steps| && steps[n].Resume?
    ensures var s, s', id := states[n], states[n + 1], steps[n].id;
      && id in s.tasks && id in s'.tasks
      && (s.tasks[id].state.InputRequired? ==>
            && OthersKept(s, s', id) && s.tasks[id].resume.Some?
            && s'.tasks[id] == Record(Working, None, s.tasks[id].cancel, s.tasks[id].history + 1)
            && s'.runs == s.runs[steps[n].run := AgentRun(id, Resumed, false)]
            && s'.consumed == s.consumed + [s.tasks[id].resume.value])
      && (!s.tasks[id].state.InputRequired? ==> s' == s)
  {
    InvAlways(cap, states, steps, n);
    assert RecordOk(states[n], steps[n].id);
  }

  /** A context that ends, or a run that is lost, concerns that run only. */
  lemma RunsEnd(cap: nat, states: seq<System>, steps: seq<Step>, n: nat)
    requires Behaviour(cap, states, steps) && n < |steps| && (steps[n].ContextDone? || steps[n].LoseRun?)
    ensures var s, s', run := states[n], states[n + 1], steps[n].run;
      && run in s.runs && s'.tasks == s.tasks
      && (steps[n].LoseRun? ==> s'.runs == s.runs - {run})
      && (steps[n].ContextDone? ==> s'.runs == s.runs[run := AgentRun(s.runs[run].task, s.runs[run].phase, true)])
  {}

  // ---------- The store ----------

  /** Saving a task that is not listed lists it last and scans; a listed one stays where
      it is. */
  lemma SaveLists(cap: nat, states: seq<System>, steps: seq<Step>, n: nat)
    requires Behaviour(cap, states, steps) && n < |steps| && steps[n].BeginSave?
    ensures var s, s', id := states[n], states[n + 1], steps[n].id;
      && s'.tasks == s.tasks && s'.runs == s.runs
      && (id in s.order ==> s' == s)
      && (id !in s.order ==> s'.order == s.order + [id] && s'.lock == Scanning(0))
  {}

  lemma RemoveStep(cap: nat, s: System)
    requires StoreOk(s) && Enabled(s, RemoveEntry)
    ensures var s', c := Apply(cap, s, RemoveEntry), s.lock.cursor;
      && s'.order == s.order[..c] + s.order[c + 1..] && s'.tasks == s.tasks
      && s.order[c] in s.tasks && Terminal(s.tasks[s.order[c]].state) && s.order[c] !in s'.order
  {
    var c := s.lock.cursor;
    var order := s.order[..c] + s.order[c + 1..];
    assert forall k :: 0 <= k < |order| ==> order[k] == s.order[if k < c then k else k + 1];
  }

  /** An entry is only about to be removed from a store that is over its capacity. */
  lemma {:induction false} RemovingIsOver(cap: nat, states: seq<System>, steps: seq<Step>, n: nat)
    requires Behaviour(cap, states, steps) && n < |states| && states[n].lock.Removing?
    ensures |states[n].order| > cap
    decreases n
  {
    if states[n - 1].lock.Removing? {
      RemovingIsOver(cap, states, steps, n - 1);
    }
    RemovingStep(cap, states[n - 1], steps[n - 1]);
  }

  lemma RemovingStep(cap: nat, s: System, step: Step)
    requires Enabled(s, step) && Apply(cap, s, step).lock.Removing?
    requires s.lock.Removing? ==> |s.order| > cap
    ensures |Apply(cap, s, step).order| > cap
  {}

  /** A removal takes out exactly one entry, of a task that has ended, from a store that is
      over its capacity. */
  lemma RemovalEvictsOne(cap: nat, states: seq<System>, steps: seq<Step>, n: nat)
    requires Behaviour(cap, states, steps) && n < |steps| && steps[n].RemoveEntry?
    ensures var s, s' := states[n], states[n + 1];
      && s.lock.Removing? && s.lock.cursor < |s.order| && s'.tasks == s.tasks && |s.order| > cap
      && var c := s.lock.cursor;
      && s'.order == s.order[..c] + s.order[c + 1..] && s.order[c] !in s'.order
      && s.order[c] in s.tasks && Terminal(s.tasks[s.order[c]].state)
  {
    hide Apply, StoreOk, RecordsOk, RunsOk, AtMostOneRun, CancelOwned, HandlesOk;
    InvAlways(cap, states, steps, n);
    assert Enabled(states[n], RemoveEntry);
    RemovingIsOver(cap, states, steps, n);
    RemoveStep(cap, states[n]);
  }

  ghost predicate LiveAt(s: System, id: Id) {
    id in s.tasks && !Terminal(s.tasks[id].state)
  }

  /** Every entry before the cursor was seen live since the save began at step b. */
  ghost predicate SeenLive(states: seq<System>, b: nat, n: nat, c: nat)
    requires n < |states|
  {
    forall i :: 0 <= i < c && i < |states[n].order| ==> exists m :: b < m <= n && LiveAt(states[m], states[n].order[i])
  }

  ghost predicate SaveSince(states: seq<System>, steps: seq<Step>, b: nat, n: nat)
    requires n < |states| && |states| == |steps| + 1
  {
    b < n && steps[b].BeginSave? && forall k :: b < k <= n ==> !states[k].lock.Free?
  }

  lemma {:induction false} ScanSees(cap: nat, states: seq<System>, steps: seq<Step>, n: nat) returns (b: nat)
    requires Behaviour(cap, states, steps) && n < |states| && !states[n].lock.Free?
    ensures SaveSince(states, steps, b, n) && SeenLive(states, b, n, states[n].lock.cursor)
    decreases n
  {
    hide Inv, Apply, Enabled, SeenLive;
    InvAlways(cap, states, steps, n - 1);
    assert Enabled(states[n - 1], steps[n - 1]);
    if states[n - 1].lock.Free? {
      b := n - 1;
      LockTaken(cap, states[n - 1], steps[n - 1]);
      NoneSeen(states, b, n);
    } else {
      b := ScanSees(cap, states, steps, n - 1);
      ScanMoves(cap, states, steps, b, n - 1);
    }
  }

  lemma LockTaken(cap: nat, s: System, step: Step)
    requires Enabled(s, step) && s.lock.Free? && !Apply(cap, s, step).lock.Free?
    ensures step.BeginSave? && Apply(cap, s, step).lock.cursor == 0
  {}

  lemma NoneSeen(states: seq<System>, b: nat, n: nat)
    requires n < |states|
    ensures SeenLive(states, b, n, 0)
  {}

  lemma ScanMoves(cap: nat, states: seq<System>, steps: seq<Step>, b: nat, n: nat)
    requires Behaviour(cap, states, steps) && n < |steps| && Inv(states[n]) && !states[n].lock.Free? && !states[n + 1].lock.Free?
    requires SaveSince(states, steps, b, n) && SeenLive(states, b, n, states[n].lock.cursor)
    ensures SaveSince(states, steps, b, n + 1) && SeenLive(states, b, n + 1, states[n + 1].lock.cursor)
  {
    hide Inv;
    var s, s', step := states[n], states[n + 1], steps[n];
    ScanStep(cap, s, step);
    forall i | 0 <= i < s'.lock.cursor && i < |s'.order|
      ensures exists m :: b < m <= n + 1 && LiveAt(states[m], s'.order[i])
    {
      if i < s.lock.cursor {
        var m :| b < m <= n && LiveAt(states[m], s.order[i]);
        assert LiveAt(states[m], s'.order[i]);
      } else {
        assert LiveAt(states[n], s'.order[i]);
      }
    }
  }

  /** While the lock is held the list changes by removals only, and the cursor passes
      live entries only. */
  lemma ScanStep(cap: nat, s: System, step: Step)
    requires Inv(s) && Enabled(s, step) && !s.lock.Free? && !Apply(cap, s, step).lock.Free?
    ensures var s' := Apply(cap, s, step);
      || s'.lock.cursor == 0
      || (s'.order == s.order && s'.lock.cursor == s.lock.cursor)
      || (s'.order == s.order && s'.lock.cursor == s.lock.cursor + 1 && s.lock.cursor < |s.order| && LiveAt(s, s.order[s.lock.cursor]))
  {
    hide RecordsOk, RunsOk, AtMostOneRun, CancelOwned, HandlesOk;
  }

  /** What a save still has before it, for a list of this length. */
  function ToScan(s: System): nat {
    match s.lock
    case Free => 0
    case Scanning(c) => if c < |s.order| then 2 * (|s.order| - c) + 1 else 1
    case Removing(c) => if c < |s.order| then 2 * (|s.order| - c) else 0
  }

  /** A save comes to its end: it can always go on while it holds the lock, and each of
      its steps shortens the list or what is left to scan. */
  lemma SavesEnd(cap: nat, states: seq<System>, steps: seq<Step>, n: nat) returns (step: Step)
    requires Behaviour(cap, states, steps) && n < |states| && !states[n].lock.Free?
    ensures (step.ScanEntry? || step.RemoveEntry?) && Enabled(states[n], step)
    ensures var s, s' := states[n], Apply(cap, states[n], step);
      |s'.order| < |s.order| || (|s'.order| == |s.order| && ToScan(s') < ToScan(s))
  {
    hide RecordsOk, RunsOk, AtMostOneRun, CancelOwned, HandlesOk;
    InvAlways(cap, states, steps, n);
    step := if states[n].lock.Scanning? then ScanEntry else RemoveEntry;
  }

  /** A save gives up on an overfull store only when it has seen every entry live since
      it began, whatever happened to the tasks meanwhile. */
  lemma OverfullIsLive(cap: nat, states: seq<System>, steps: seq<Step>, n: nat) returns (b: nat)
    requires Behaviour(cap, states, steps) && n < |steps| && !states[n].lock.Free? && states[n + 1].lock.Free?
    ensures SaveSince(states, steps, b, n) && states[n + 1].order == states[n].order
    ensures |states[n].order| <= cap || SeenLive(states, b, n, |states[n].order|)
  {
    b := ScanSees(cap, states, steps, n);
  }
}
