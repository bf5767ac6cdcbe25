/**
 The per-agent suspend budget of agent/suspend.go: two counters shared by all
 snapshots, and a TTL timer racing Resume, ResumeStream and Release. One step per
 critical section; stopping a timer can come too late, so it may fire at any time.
 */
module SuspendBudget {

  const DEFAULT_MAX_SNAPSHOTS: nat := 20
  const DEFAULT_MAX_BYTES: nat := 256 * 1024 * 1024

  /** One ErrSuspended: the two resume closures, the give-back closure, a give-back
      that Resume has taken out but not yet called, and how often the share has
      been given back. */
  datatype Suspension = Suspension(
    size: nat, resume: bool, resumeStream: bool, onRelease: bool, claimed: bool, givenBack: nat)

  datatype Budget = Budget(count: int, bytes: int, all: seq<Suspension>)

  datatype Limits = Limits(maxSnapshots: int, maxBytes: int)

  /** Limits that are not positive mean the defaults. */
  function Snapshots(l: Limits): (n: nat)
    ensures n > 0
  {
    if l.maxSnapshots <= 0 then DEFAULT_MAX_SNAPSHOTS else l.maxSnapshots
  }

  function Bytes(l: Limits): (n: nat)
    ensures n > 0
  {
    if l.maxBytes <= 0 then DEFAULT_MAX_BYTES else l.maxBytes
  }

  datatype Step =
    | Suspend(size: nat)
    | ClaimResume(k: nat)
    | ClaimStream(k: nat)
    | GiveBack(k: nat)
    | Release(k: nat)
    | Expire(k: nat)

  predicate Enabled(b: Budget, step: Step) {
    match step
    case Suspend(_) => true
    case ClaimResume(k) => k < |b.all|
    case ClaimStream(k) => k < |b.all|
    case GiveBack(k) => k < |b.all| && b.all[k].claimed
    case Release(k) => k < |b.all|
    case Expire(k) => k < |b.all|
  }

  /** checkSuspendLoop: the check and the booking are one critical section. */
  predicate Admits(l: Limits, b: Budget, size: nat) {
    b.count < Snapshots(l) && b.bytes + size <= Bytes(l)
  }

  /** Resume and ResumeStream: all closures are taken out under the lock; the
      give-back is called afterwards, and only by a caller that got its closure. */
  function Claim(s: Suspension, got: bool): Suspension {
    s.(resume := false, resumeStream := false, onRelease := false, claimed := s.claimed || (got && s.onRelease))
  }

  /** Release and the TTL callback. */
  predicate Frees(s: Suspension) {
    s.resume && s.onRelease
  }

  function Freed(s: Suspension): Suspension {
    s.(resume := false, resumeStream := false,
       onRelease := if Frees(s) then false else s.onRelease,
       givenBack := if Frees(s) then s.givenBack + 1 else s.givenBack)
  }

  function FreeAt(b: Budget, k: nat): Budget
    requires k < |b.all|
  {
    var s := b.all[k];
    Budget(if Frees(s) then b.count - 1 else b.count, if Frees(s) then b.bytes - s.size else b.bytes,
           b.all[k := Freed(s)])
  }

  function Apply(l: Limits, b: Budget, step: Step): Budget
    requires Enabled(b, step)
  {
    match step
    case Suspend(size) =>
      if !Admits(l, b, size) then b
      else Budget(b.count + 1, b.bytes + size, b.all + [Suspension(size, true, true, true, false, 0)])
    case ClaimResume(k) => b.(all := b.all[k := Claim(b.all[k], b.all[k].resume)])
    case ClaimStream(k) => b.(all := b.all[k := Claim(b.all[k], b.all[k].resumeStream)])
    case GiveBack(k) =>
      var s := b.all[k];
      Budget(b.count - 1, b.bytes - s.size, b.all[k := s.(claimed := false, givenBack := s.givenBack + 1)])
    case Release(k) => FreeAt(b, k)
    case Expire(k) => FreeAt(b, k)
  }

  // ---------- Conservation ----------

  /** A snapshot counts against the budget until its share has been given back. */
  predicate Held(s: Suspension) {
    s.onRelease || s.claimed
  }

  function HeldCount(all: seq<Suspension>): (n: nat) {
    if all == [] then 0 else (if Held(all[0]) then 1 else 0) + HeldCount(all[1..])
  }

  function HeldBytes(all: seq<Suspension>): (n: nat) {
    if all == [] then 0 else (if Held(all[0]) then all[0].size else 0) + HeldBytes(all[1..])
  }

  lemma {:induction false} HeldUpdate(all: seq<Suspension>, k: nat, s: Suspension)
    requires k < |all|
    ensures HeldCount(all[k := s]) == HeldCount(all) - (if Held(all[k]) then 1 else 0) + (if Held(s) then 1 else 0)
    ensures HeldBytes(all[k := s])
         == HeldBytes(all) - (if Held(all[k]) then all[k].size else 0) + (if Held(s) then s.size else 0)
    decreases |all|
  {
    if k == 0 {
      assert all[0 := s][1..] == all[1..];
    } else {
      HeldUpdate(all[1..], k - 1, s);
      assert all[k := s][1..] == all[1..][k - 1 := s];
    }
  }

  lemma {:induction false} HeldSnoc(all: seq<Suspension>, s: Suspension)
    ensures HeldCount(all + [s]) == HeldCount(all) + (if Held(s) then 1 else 0)
    ensures HeldBytes(all + [s]) == HeldBytes(all) + (if Held(s) then s.size else 0)
    decreases |all|
  {
    if all == [] {
      assert all + [s] == [s] && [s][1..] == [];
    } else {
      HeldSnoc(all[1..], s);
      assert (all + [s])[1..] == all[1..] + [s];
    }
  }

  /** The closures live and die together, and the share is given back once: it is
      held by the give-back closure, by one caller, or gone. */
  predicate Sound(s: Suspension) {
    && s.resume == s.resumeStream == s.onRelease
    && !(s.onRelease && s.claimed)
    && s.givenBack == if Held(s) then 0 else 1
  }

  ghost predicate Inv(l: Limits, b: Budget) {
    && (forall k :: 0 <= k < |b.all| ==> Sound(b.all[k]))
    && b.count == HeldCount(b.all) && b.bytes == HeldBytes(b.all)
    && b.count <= Snapshots(l) && b.bytes <= Bytes(l)
  }

  lemma InvStep(l: Limits, b: Budget, step: Step)
    requires Inv(l, b) && Enabled(b, step)
    ensures Inv(l, Apply(l, b, step))
  {
    match step
    case Suspend(size) => HeldSnoc(b.all, Suspension(size, true, true, true, false, 0));
    case _ => HeldUpdate(b.all, step.k, Apply(l, b, step).all[step.k]);
  }

  // ---------- Whole runs ----------

  ghost predicate Behaviour(l: Limits, bs: seq<Budget>, steps: seq<Step>) {
    && |bs| == |steps| + 1 && bs[0] == Budget(0, 0, [])
    && forall i :: 0 <= i < |steps| ==> Enabled(bs[i], steps[i]) && bs[i + 1] == Apply(l, bs[i], steps[i])
  }

  /** Whatever the order of resumes, releases and expiries: the counters are exactly
      the number and size of the snapshots still held, stay within the limits and
      never go negative, and no share is given back twice. */
  lemma {:induction false} BudgetAlways(l: Limits, bs: seq<Budget>, steps: seq<Step>, n: nat)
    requires Behaviour(l, bs, steps) && n < |bs|
    ensures Inv(l, bs[n]) && 0 <= bs[n].count <= Snapshots(l) && 0 <= bs[n].bytes <= Bytes(l)
    ensures forall k :: 0 <= k < |bs[n].all| ==> bs[n].all[k].givenBack <= 1
    decreases n
  {
    if n > 0 {
      BudgetAlways(l, bs, steps, n - 1);
      InvStep(l, bs[n - 1], steps[n - 1]);
    }
  }

  /** A snapshot that can no longer be resumed, with no give-back under way, has
      given its share back exactly once. */
  lemma GivenBackExactlyOnce(l: Limits, bs: seq<Budget>, steps: seq<Step>, n: nat, k: nat)
    requires Behaviour(l, bs, steps) && n < |bs| && k < |bs[n].all|
    ensures !bs[n].all[k].resume && !bs[n].all[k].claimed <==> bs[n].all[k].givenBack == 1
  {
    BudgetAlways(l, bs, steps, n);
    assert Sound(bs[n].all[k]);
  }

  /** When every snapshot has been let go, the whole budget is available again. */
  lemma {:induction false} AllReturned(all: seq<Suspension>)
    requires forall k :: 0 <= k < |all| ==> !Held(all[k])
    ensures HeldCount(all) == 0 && HeldBytes(all) == 0
    decreases |all|
  {
    if all != [] {
      AllReturned(all[1..]);
    }
  }

  lemma BudgetRestored(l: Limits, bs: seq<Budget>, steps: seq<Step>, n: nat)
    requires Behaviour(l, bs, steps) && n < |bs|
    requires forall k :: 0 <= k < |bs[n].all| ==> !bs[n].all[k].resume && !bs[n].all[k].claimed
    ensures bs[n].count == 0 && bs[n].bytes == 0
    ensures forall size :: 0 <= size <= Bytes(l) ==> Admits(l, bs[n], size)
  {
    BudgetAlways(l, bs, steps, n);
    forall k | 0 <= k < |bs[n].all| ensures !Held(bs[n].all[k]) {
      assert Sound(bs[n].all[k]);
    }
    AllReturned(bs[n].all);
  }

  // ---------- What the steps achieve ----------

  /** A suspension is admitted if and only if the snapshots still held leave room for one
      more and for its size; then it is held and can be resumed, and otherwise
      nothing changes. */
  lemma AdmittedIff(l: Limits, bs: seq<Budget>, steps: seq<Step>, n: nat)
    requires Behaviour(l, bs, steps) && n < |steps| && steps[n].Suspend?
    ensures var most := if l.maxSnapshots > 0 then l.maxSnapshots else 20;
      var most' := if l.maxBytes > 0 then l.maxBytes else 268435456;
      var room := HeldCount(bs[n].all) < most && HeldBytes(bs[n].all) + steps[n].size <= most';
      && (|bs[n + 1].all| == |bs[n].all| + 1 <==> room)
      && (!room ==> bs[n + 1] == bs[n])
      && (room ==> bs[n + 1].all == bs[n].all + [Suspension(steps[n].size, true, true, true, false, 0)])
  {
    BudgetAlways(l, bs, steps, n);
  }

  /** Only the snapshot a step names is touched, and its size never changes. */
  ghost predicate OnlyAt(b: Budget, b': Budget, k: nat) {
    && k < |b.all| == |b'.all| && b'.all[k].size == b.all[k].size
    && forall j :: 0 <= j < |b.all| && j != k ==> b'.all[j] == b.all[j]
  }

  /** Letting go ends all ways to resume. Resuming claims the share if the snapshot could
      still be resumed, releasing and expiring give it back at once in that case, and
      a claimed share is returned by its give-back. */
  lemma LettingGo(l: Limits, bs: seq<Budget>, steps: seq<Step>, n: nat)
    requires Behaviour(l, bs, steps) && n < |steps| && !steps[n].Suspend?
    ensures OnlyAt(bs[n], bs[n + 1], steps[n].k)
    ensures var s, s' := bs[n].all[steps[n].k], bs[n + 1].all[steps[n].k];
      if steps[n].GiveBack? then s.claimed && s' == s.(claimed := false, givenBack := 1)
      else
        && !s'.resume && !s'.resumeStream && !s'.onRelease
        && if steps[n].ClaimResume? || steps[n].ClaimStream?
           then (s'.claimed <==> s.resume || s.claimed) && s'.givenBack == s.givenBack
           else s'.claimed == s.claimed && s'.givenBack == s.givenBack + (if s.resume then 1 else 0)
  {
    BudgetAlways(l, bs, steps, n);
    assert Sound(bs[n].all[steps[n].k]);
  }

  function Sum(sizes: seq<nat>): nat {
    if sizes == [] then 0 else Sum(sizes[..|sizes| - 1]) + sizes[|sizes| - 1]
  }

  /** The snapshots held are exactly these, by size. */
  ghost predicate Holds(b: Budget, sizes: seq<nat>) {
    |b.all| == |sizes| && forall k :: 0 <= k < |sizes| ==> b.all[k] == Suspension(sizes[k], true, true, true, false, 0)
  }

  /** As many snapshots as the limits allow, of any sizes that fit together, can be held
      at once. */
  lemma {:induction false} BudgetFills(l: Limits, sizes: seq<nat>) returns (bs: seq<Budget>, steps: seq<Step>)
    requires |sizes| <= Snapshots(l) && Sum(sizes) <= Bytes(l)
    ensures Behaviour(l, bs, steps) && |steps| == |sizes|
    ensures Holds(bs[|steps|], sizes)
    ensures HeldCount(bs[|steps|].all) == |sizes| && HeldBytes(bs[|steps|].all) == Sum(sizes)
    decreases |sizes|
  {
    if sizes == [] {
      bs, steps := [Budget(0, 0, [])], [];
    } else {
      var m := |sizes| - 1;
      var bs0, steps0 := BudgetFills(l, sizes[..m]);
      BudgetAlways(l, bs0, steps0, m);
      var b := Apply(l, bs0[m], Suspend(sizes[m]));
      HeldSnoc(bs0[m].all, Suspension(sizes[m], true, true, true, false, 0));
      bs, steps := bs0 + [b], steps0 + [Suspend(sizes[m])];
      BehaviourSnoc(l, bs0, steps0, Suspend(sizes[m]));
    }
  }

  lemma BehaviourSnoc(l: Limits, bs: seq<Budget>, steps: seq<Step>, step: Step)
    requires Behaviour(l, bs, steps) && Enabled(bs[|steps|], step)
    ensures Behaviour(l, bs + [Apply(l, bs[|steps|], step)], steps + [step])
  {
    hide Apply;
  }

  /** Without limits of its own an agent holds twenty snapshots of 256 MiB together, and
      refuses the twenty-first. */
  lemma DefaultBudget(sizes: seq<nat>, size: nat) returns (bs: seq<Budget>, steps: seq<Step>)
    requires |sizes| == 20 && Sum(sizes) <= 268435456
    ensures Behaviour(Limits(0, 0), bs, steps) && |steps| == 21 && steps[20] == Suspend(size)
    ensures Holds(bs[20], sizes) && bs[21] == bs[20]
  {
    var l := Limits(0, 0);
    var bs0, steps0 := BudgetFills(l, sizes);
    bs, steps := bs0 + [Apply(l, bs0[20], Suspend(size))], steps0 + [Suspend(size)];
    BehaviourSnoc(l, bs0, steps0, Suspend(size));
    AdmittedIff(l, bs, steps, 20);
  }
}
