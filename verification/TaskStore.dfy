/**
 The bounded memory store of a2a/taskstore.go: a map and an insertion-ordered list
 of task records, evicting the oldest ended tasks once the capacity is exceeded.
 */
module TaskStore {
  import opened Basics
  import opened TaskLifecycle

  class TaskRecord {
    const id: Id
    const contextId: Id
    var state: TaskState

    constructor (id: Id, contextId: Id, state: TaskState)
      ensures this.id == id && this.contextId == contextId && this.state == state
    {
      this.id, this.contextId, this.state := id, contextId, state;
    }
  }

  // ---------- Eviction as a function ----------

  function Remove<T>(s: seq<T>, i: nat): seq<T>
    requires i < |s|
  {
    s[..i] + s[i + 1..]
  }

  /** Index of the oldest record in `ended` at or after i, or the length. */
  function FirstEnded<T(==)>(s: seq<T>, ended: set<T>, i: nat): (k: nat)
    requires i <= |s|
    ensures i <= k <= |s|
    ensures forall j :: i <= j < k ==> s[j] !in ended
    ensures k < |s| ==> s[k] in ended
    decreases |s| - i
  {
    if i == |s| || s[i] in ended then i else FirstEnded(s, ended, i + 1)
  }

  function Evict<T(==)>(s: seq<T>, ended: set<T>, cap: nat): (r: seq<T>)
    decreases |s|
  {
    var f := FirstEnded(s, ended, 0);
    if |s| <= cap || f == |s| then s else Evict(Remove(s, f), ended, cap)
  }

  function Ended<T(==)>(s: seq<T>, ended: set<T>): nat {
    if s == [] then 0 else (if s[0] in ended then 1 else 0) + Ended(s[1..], ended)
  }

  /** s without its k oldest ended records. */
  function DropEnded<T(==)>(s: seq<T>, ended: set<T>, k: nat): seq<T> {
    if k == 0 || s == [] then s
    else if s[0] in ended then DropEnded(s[1..], ended, k - 1)
    else [s[0]] + DropEnded(s[1..], ended, k)
  }

  lemma {:induction false} DropFirstEnded<T>(s: seq<T>, ended: set<T>, k: nat)
    requires FirstEnded(s, ended, 0) < |s|
    ensures var r := Remove(s, FirstEnded(s, ended, 0));
            DropEnded(s, ended, k + 1) == DropEnded(r, ended, k) && Ended(r, ended) == Ended(s, ended) - 1
    decreases |s|
  {
    var f := FirstEnded(s, ended, 0);
    if f == 0 {
      assert Remove(s, 0) == s[1..];
    } else {
      ShiftEnded(s, ended, 1);
      assert f == FirstEnded(s, ended, 1);
      DropFirstEnded(s[1..], ended, k);
      var r := Remove(s, f);
      assert r[1..] == Remove(s[1..], f - 1);
      assert r == [s[0]] + r[1..];
    }
  }

  lemma {:induction false} ShiftEnded<T>(s: seq<T>, ended: set<T>, i: nat)
    requires 1 <= i <= |s|
    ensures FirstEnded(s, ended, i) == FirstEnded(s[1..], ended, i - 1) + 1
    decreases |s| - i
  {
    if i < |s| && s[i] !in ended {
      ShiftEnded(s, ended, i + 1);
    }
  }

  lemma {:induction false} NoneEnded<T>(s: seq<T>, ended: set<T>)
    ensures Ended(s, ended) == 0 <==> FirstEnded(s, ended, 0) == |s|
    decreases |s|
  {
    if s != [] {
      NoneEnded(s[1..], ended);
      ShiftEnded(s, ended, 1);
    }
  }

  function Excess(n: nat, cap: nat): nat {
    if n <= cap then 0 else n - cap
  }

  /** What eviction amounts to: of the ended records exactly the oldest go, as many
      as the excess asks for or as there are. */
  lemma {:induction false} EvictDropsOldest<T>(s: seq<T>, ended: set<T>, cap: nat)
    ensures Evict(s, ended, cap) == DropEnded(s, ended, Min(Excess(|s|, cap), Ended(s, ended)))
    decreases |s|
  {
    NoneEnded(s, ended);
    if |s| > cap && FirstEnded(s, ended, 0) < |s| {
      var r := Remove(s, FirstEnded(s, ended, 0));
      EvictDropsOldest(r, ended, cap);
      DropFirstEnded(s, ended, Min(Excess(|r|, cap), Ended(r, ended)));
    }
  }

  /** After eviction the size is within capacity, or nothing in it has ended. */
  lemma {:induction false} EvictFits<T>(s: seq<T>, ended: set<T>, cap: nat)
    ensures var r := Evict(s, ended, cap); |r| <= cap || forall x :: x in r ==> x !in ended
    decreases |s|
  {
    if |s| > cap && FirstEnded(s, ended, 0) < |s| {
      EvictFits(Remove(s, FirstEnded(s, ended, 0)), ended, cap);
    }
  }

  /** Live records survive eviction, and nothing new appears. */
  lemma {:induction false} EvictKeepsLive<T>(s: seq<T>, ended: set<T>, cap: nat)
    ensures forall x :: x in s && x !in ended ==> x in Evict(s, ended, cap)
    ensures forall x :: x in Evict(s, ended, cap) ==> x in s
    decreases |s|
  {
    var f := FirstEnded(s, ended, 0);
    if |s| > cap && f < |s| {
      var r := Remove(s, f);
      EvictKeepsLive(r, ended, cap);
      forall x | x in s && x !in ended ensures x in r {
        var i :| 0 <= i < |s| && s[i] == x;
        assert r[if i < f then i else i - 1] == x;
      }
    }
  }

  // ---------- The store ----------

  ghost predicate Distinct(s: seq<TaskRecord>) {
    forall i, j :: 0 <= i < j < |s| ==> s[i].id != s[j].id
  }

  ghost function Ids(s: seq<TaskRecord>): set<Id> {
    set i | 0 <= i < |s| :: s[i].id
  }

  /** The records whose task has reached a terminal state. */
  ghost function EndedIn(s: seq<TaskRecord>): set<TaskRecord>
    reads s
  {
    set e | e in s && Terminal(e.state)
  }

  ghost predicate EndedOf(s: seq<TaskRecord>, ended: set<TaskRecord>)
    reads s
  {
    forall i :: 0 <= i < |s| ==> (s[i] in ended <==> Terminal(s[i].state))
  }

  lemma RemoveMembers<T>(s: seq<T>, i: nat)
    requires i < |s|
    ensures var r := Remove(s, i);
            |r| == |s| - 1 && forall k :: 0 <= k < |r| ==> r[k] == s[if k < i then k else k + 1]
  {
  }

  lemma EvictDone<T>(s: seq<T>, ended: set<T>, cap: nat)
    requires |s| <= cap || FirstEnded(s, ended, 0) == |s|
    ensures Evict(s, ended, cap) == s
  {
  }

  lemma EvictStep<T>(s: seq<T>, ended: set<T>, cap: nat)
    requires |s| > cap && FirstEnded(s, ended, 0) < |s|
    ensures Evict(s, ended, cap) == Evict(Remove(s, FirstEnded(s, ended, 0)), ended, cap)
  {
  }

  class MemoryStore {
    const cap: nat
    var items: map<Id, TaskRecord>
    var order: seq<TaskRecord>

    /** newMemoryStore: a capacity that is not positive means 1024. */
    constructor (capacity: int)
      ensures Valid() && order == [] && cap == (if capacity <= 0 then 1024 else capacity)
    {
      cap := if capacity <= 0 then 1024 else capacity;
      items, order := map[], [];
    }

    /** Map and list hold the same records under the same ids. */
    ghost predicate Valid()
      reads this
    {
      && Distinct(order)
      && items.Keys == Ids(order)
      && forall i :: 0 <= i < |order| ==> items[order[i].id] == order[i]
    }

    method Save(e: TaskRecord)
      requires Valid()
      modifies this
      ensures Valid()
      ensures e.id in old(items) ==>
                exists i :: 0 <= i < |old(order)| && old(order)[i].id == e.id && order == old(order)[i := e]
      ensures e.id !in old(items) ==>
                order == Evict(old(order) + [e], EndedIn(old(order) + [e]), cap)
    {
      if e.id in items {
        var i := 0;
        while order[i].id != e.id
          invariant 0 <= i < |order| && forall k :: 0 <= k < i ==> order[k].id != e.id
          decreases |order| - i
        {
          i := i + 1;
        }
        assert Ids(order[i := e]) == Ids(order) by {
          assert forall k :: 0 <= k < |order| ==> order[i := e][k].id == order[k].id;
        }
        order := order[i := e];
        items := items[e.id := e];
        return;
      }
      IdsSnoc(order, e);
      assert forall k :: 0 <= k < |order| ==> order[k].id in Ids(order);
      order := order + [e];
      items := items[e.id := e];
      EvictLocked();
    }

    method EvictLocked()
      requires Valid()
      modifies this
      ensures Valid() && order == Evict(old(order), EndedIn(old(order)), cap)
    {
      hide Evict, FirstEnded;
      ghost var ended := EndedIn(order);
      while |items| > cap
        invariant Valid() && EndedOf(order, ended)
        invariant Evict(order, ended, cap) == Evict(old(order), ended, cap)
        decreases |order|
      {
        SizesAgree(order);
        ghost var before := order;
        var evicted := EvictOldest(ended);
        if !evicted {
          EvictDone(order, ended, cap);
          return;
        }
        EvictStep(before, ended, cap);
      }
      SizesAgree(order);
      EvictDone(order, ended, cap);
    }

    /** One pass of the eviction loop: remove the oldest ended record, if any. */
    method EvictOldest(ghost ended: set<TaskRecord>) returns (evicted: bool)
      requires Valid() && EndedOf(order, ended)
      modifies this
      ensures Valid() && EndedOf(order, ended)
      ensures var f := FirstEnded(old(order), ended, 0);
              && (evicted <==> f < |old(order)|)
              && order == if evicted then Remove(old(order), f) else old(order)
    {
      var i := 0;
      while i < |order|
        invariant i <= |order| && FirstEnded(order, ended, i) == FirstEnded(order, ended, 0)
      {
        var e := order[i];
        if Terminal(e.state) {
          IdsRemove(order, i);
          RemoveMembers(order, i);
          order := Remove(order, i);
          items := items - {e.id};
          return true;
        }
        i := i + 1;
      }
      return false;
    }

    method Get(id: Id) returns (r: Option<TaskRecord>)
      requires Valid()
      ensures r.Some? <==> id in Ids(order)
      ensures r.Some? ==> r.value in order && r.value.id == id
    {
      if id !in items {
        return None;
      }
      assert exists i :: 0 <= i < |order| && order[i].id == id;
      return Some(items[id]);
    }

    /** List: the records of a conversation, newest first. */
    method List(contextId: Id) returns (out: seq<TaskRecord>)
      requires Valid()
      ensures out == NewestFirst(order, contextId) == Backwards(Of(order, contextId))
    {
      hide NewestFirst;
      NewestIsBackwards(order, contextId);
      out := [];
      NewestOfNone(contextId);
      var i := |order|;
      assert order[..i] == order;
      while i > 0
        invariant 0 <= i <= |order|
        invariant NewestFirst(order, contextId) == out + NewestFirst(order[..i], contextId)
      {
        i := i - 1;
        NewestStep(order, i, contextId);
        if order[i].contextId == contextId {
          out := out + [order[i]];
        }
      }
    }
  }

  /** The records of a conversation, in the order they are listed. */
  function Of(s: seq<TaskRecord>, contextId: Id): seq<TaskRecord> {
    if s == [] then [] else (if s[0].contextId == contextId then [s[0]] else []) + Of(s[1..], contextId)
  }

  function Backwards(s: seq<TaskRecord>): (r: seq<TaskRecord>)
    ensures |r| == |s| && forall i :: 0 <= i < |s| ==> r[i] == s[|s| - 1 - i]
  {
    seq(|s|, i requires 0 <= i < |s| => s[|s| - 1 - i])
  }

  lemma Assoc(a: seq<TaskRecord>, b: seq<TaskRecord>, c: seq<TaskRecord>)
    ensures a + (b + c) == a + b + c
  {}

  lemma {:induction false} OfSnoc(s: seq<TaskRecord>, e: TaskRecord, contextId: Id)
    ensures Of(s + [e], contextId) == Of(s, contextId) + if e.contextId == contextId then [e] else []
    decreases |s|
  {
    if s == [] {
      assert s + [e] == [e] && [e][1..] == [];
    } else {
      assert (s + [e])[1..] == s[1..] + [e] && (s + [e])[0] == s[0];
      OfSnoc(s[1..], e, contextId);
      var one := if s[0].contextId == contextId then [s[0]] else [];
      var last := if e.contextId == contextId then [e] else [];
      Assoc(one, Of(s[1..], contextId), last);
    }
  }

  lemma {:induction false} NewestIsBackwards(s: seq<TaskRecord>, contextId: Id)
    ensures NewestFirst(s, contextId) == Backwards(Of(s, contextId))
    decreases |s|
  {
    hide Of, NewestFirst, Backwards;
    if s == [] {
      NewestOfNone(contextId);
    } else {
      var front, last := s[..|s| - 1], s[|s| - 1];
      NewestIsBackwards(front, contextId);
      assert s == front + [last];
      OfSnoc(front, last, contextId);
      BackwardsSnoc(Of(front, contextId), last);
      NewestStep(s, |s| - 1, contextId);
      assert s[..|s|] == s && Of(front, contextId) + [] == Of(front, contextId);
    }
  }

  lemma BackwardsSnoc(s: seq<TaskRecord>, e: TaskRecord)
    ensures Backwards(s + [e]) == [e] + Backwards(s)
  {}

  function NewestFirst(s: seq<TaskRecord>, contextId: Id): seq<TaskRecord> {
    if s == [] then []
    else
      var e := s[|s| - 1];
      (if e.contextId == contextId then [e] else []) + NewestFirst(s[..|s| - 1], contextId)
  }

  lemma NewestOfNone(contextId: Id)
    ensures NewestFirst([], contextId) == [] == Backwards(Of([], contextId))
  {
  }

  lemma NewestStep(s: seq<TaskRecord>, i: nat, contextId: Id)
    requires i < |s|
    ensures NewestFirst(s[..i + 1], contextId)
         == (if s[i].contextId == contextId then [s[i]] else []) + NewestFirst(s[..i], contextId)
  {
    assert s[..i + 1][..i] == s[..i];
  }

  lemma IdsSnoc(s: seq<TaskRecord>, e: TaskRecord)
    ensures Ids(s + [e]) == Ids(s) + {e.id}
  {
    forall x | x in Ids(s) ensures x in Ids(s + [e]) {
      var i :| 0 <= i < |s| && s[i].id == x;
      assert (s + [e])[i].id == x;
    }
    assert (s + [e])[|s|].id == e.id;
  }

  lemma IdsRemove(s: seq<TaskRecord>, i: nat)
    requires Distinct(s) && i < |s|
    ensures Distinct(Remove(s, i)) && Ids(Remove(s, i)) == Ids(s) - {s[i].id}
  {
    var r := Remove(s, i);
    forall x | x in Ids(s) && x != s[i].id ensures x in Ids(r) {
      var k :| 0 <= k < |s| && s[k].id == x;
      assert r[if k < i then k else k - 1].id == x;
    }
  }

  lemma {:induction false} SizesAgree(s: seq<TaskRecord>)
    requires Distinct(s)
    ensures |Ids(s)| == |s|
    decreases |s|
  {
    if s != [] {
      var n := |s| - 1;
      SizesAgree(s[..n]);
      IdsSnoc(s[..n], s[n]);
      assert s == s[..n] + [s[n]];
    }
  }
}
