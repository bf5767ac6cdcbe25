/**
 Graph extraction in ingest/graph.go: the sliding windows in which chunks are shown
 to the model, and deduplication and pruning of the edges it found.

 Maps are walked in any order and the sort may place equal weights in any order;
 weights are reals.
 */
module GraphEdges {
  import opened Basics


  datatype Edge = Edge(id: string, source: string, target: string, relation: string,
                       weight: real, description: string)

  datatype Key = Key(source: string, target: string, relation: string)

  function KeyOf(e: Edge): Key {
    Key(e.source, e.target, e.relation)
  }

  // ---------- Sliding windows ----------

  /** The chunks [start, end) sent to the model as one batch. */
  datatype Window = Window(start: nat, end: nat)

  function Size(batchSize: int): nat {
    if batchSize <= 0 then 5 else batchSize
  }

  function Stride(size: nat, overlap: int): nat {
    if 0 < overlap < size then size - overlap else size
  }

  ghost predicate Share(ws: seq<Window>, i: nat, j: nat) {
    exists k :: 0 <= k < |ws| && ws[k].start <= i && j < ws[k].end
  }

  function WindowAt(m: nat, size: nat, n: nat): Window
  {
    Window(m, if m + size < n then m + size else n)
  }

  /** Where the last window that starts at or before chunk i starts. */
  function LastStart(i: nat, stride: nat): nat
    requires stride > 0
  {
    if i < stride then 0 else stride + LastStart(i - stride, stride)
  }

  predicate IsStart(m: nat, stride: nat)
    requires stride > 0
  {
    LastStart(m, stride) == m
  }

  lemma {:induction false} LastStartFits(i: nat, stride: nat)
    requires stride > 0
    ensures LastStart(i, stride) <= i < LastStart(i, stride) + stride && IsStart(LastStart(i, stride), stride)
    decreases i
  {
    if i >= stride {
      LastStartFits(i - stride, stride);
    }
  }

  lemma {:induction false} LastStartIsLast(m: nat, i: nat, stride: nat)
    requires stride > 0 && IsStart(m, stride) && m <= i
    ensures m <= LastStart(i, stride)
    decreases i
  {
    if m >= stride {
      LastStartIsLast(m - stride, i - stride, stride);
    }
  }

  lemma {:induction false} NextStart(m: nat, c: nat, stride: nat)
    requires stride > 0 && IsStart(c, stride) && IsStart(m, stride) && c <= m < c + stride
    ensures m == c
    decreases c
  {
    if c >= stride {
      NextStart(m - stride, c - stride, stride);
    }
  }

  /** One window for every stride, as long as the size and the n chunks allow. */
  predicate AreEvery(batches: seq<Window>, n: nat, size: nat, stride: nat) {
    forall k :: 0 <= k < |batches| ==>
      && batches[k].start == k * stride && batches[k].end == Min(k * stride + size, n)
      && batches[k].end - batches[k].start >= 2
  }

  /** And none is missing that would hold two chunks. */
  predicate AreWindows(batches: seq<Window>, n: nat, size: nat, stride: nat) {
    AreEvery(batches, n, size, stride) && (size >= 2 ==> |batches| * stride + 2 > n)
  }

  /** Two chunks are shown to the model together exactly when the window that starts
      last before the first one reaches the second. */
  method SlidingWindows(n: nat, batchSize: int, overlap: int) returns (batches: seq<Window>)
    ensures var size := Size(batchSize);
      forall i: nat, j: nat :: i < j < n ==>
        (Share(batches, i, j) <==> j < LastStart(i, Stride(size, overlap)) + size)
    ensures var size := if batchSize <= 0 then 5 else batchSize;
      AreWindows(batches, n, size, if 0 < overlap < size then size - overlap else size)
  {
    hide LastStart, IsStart, Share, AreEvery;
    var size := Size(batchSize);
    var stride := Stride(size, overlap);
    batches := [];
    NoneYet(n, size, stride);
    if n < 2 {
      return;
    }
    var at := 0;
    FirstStart(stride);
    while at < n
      invariant IsStart(at, stride) && |batches| * stride <= at
      invariant AreEvery(batches, n, size, stride)
      invariant |batches| * stride < at ==> size < 2 || |batches| * stride + 2 > n
      invariant forall k :: 0 <= k < |batches| ==> IsStart(batches[k].start, stride) && Fits(batches[k], size, n)
      invariant forall m: nat :: m < at && IsStart(m, stride) && Fits(WindowAt(m, size, n), size, n) ==>
        WindowAt(m, size, n) in batches
    {
      var b := WindowAt(at, size, n);
      if b.end - b.start >= 2 {
        OneMore(batches, n, size, stride, b);
        batches := batches + [b];
      }
      forall m: nat | at <= m < at + stride && IsStart(m, stride) ensures m == at {
        NextStart(m, at, stride);
      }
      StartAfter(at, stride);
      at := at + stride;
    }
    forall i: nat, j: nat | i < j < n ensures Share(batches, i, j) <==> j < LastStart(i, stride) + size {
      Together(batches, n, size, stride, i, j);
    }
  }

  lemma NoneYet(n: nat, size: nat, stride: nat)
    ensures AreEvery([], n, size, stride)
  {}

  lemma OneMore(batches: seq<Window>, n: nat, size: nat, stride: nat, b: Window)
    requires AreEvery(batches, n, size, stride) && b.end - b.start >= 2
    requires b.start == |batches| * stride && b.end == Min(b.start + size, n)
    ensures AreEvery(batches + [b], n, size, stride)
    ensures |batches + [b]| * stride == |batches| * stride + stride
  {}

  lemma FirstStart(stride: nat)
    requires stride > 0
    ensures IsStart(0, stride)
  {}

  lemma StartAfter(m: nat, stride: nat)
    requires stride > 0 && IsStart(m, stride)
    ensures IsStart(m + stride, stride)
  {}

  lemma Together(ws: seq<Window>, n: nat, size: nat, stride: nat, i: nat, j: nat)
    requires 0 < stride <= size && i < j < n
    requires forall k :: 0 <= k < |ws| ==> IsStart(ws[k].start, stride) && Fits(ws[k], size, n)
    requires forall m: nat :: m < n && IsStart(m, stride) && Fits(WindowAt(m, size, n), size, n) ==>
      WindowAt(m, size, n) in ws
    ensures Share(ws, i, j) <==> j < LastStart(i, stride) + size
  {
    hide LastStart, IsStart;
    var m := LastStart(i, stride);
    LastStartFits(i, stride);
    if j < m + size {
      assert WindowAt(m, size, n) in ws;
    }
    if k :| 0 <= k < |ws| && ws[k].start <= i && j < ws[k].end {
      LastStartIsLast(ws[k].start, i, stride);
    }
  }

  /** Chunks no further apart than the overlap are always shown together. */
  lemma OverlapCovers(size: nat, overlap: int, i: nat, j: nat)
    requires 0 < overlap < size && i < j <= i + overlap
    ensures j < LastStart(i, Stride(size, overlap)) + size
  {
    LastStartFits(i, Stride(size, overlap));
  }

  predicate Fits(w: Window, size: nat, n: nat) {
    w == WindowAt(w.start, size, n) && w.end - w.start >= 2
  }

  // ---------- Deduplication ----------

  /** Two edges that say the same: from, to and how. */
  predicate Same(a: Edge, b: Edge) {
    a.source == b.source && a.target == b.target && a.relation == b.relation
  }

  /** Some edge of the list says what e says, and not with less weight. */
  ghost predicate Represented(list: seq<Edge>, e: Edge) {
    exists i :: 0 <= i < |list| && Same(list[i], e) && list[i].weight >= e.weight
  }

  /** The earliest among the heaviest edges of its key. */
  ghost predicate Best(edges: seq<Edge>, e: Edge) {
    exists p :: 0 <= p < |edges| && edges[p] == e && Heaviest(edges, p)
  }

  predicate Heaviest(edges: seq<Edge>, p: nat)
    requires p < |edges|
  {
    forall q :: 0 <= q < |edges| && KeyOf(edges[q]) == KeyOf(edges[p]) ==>
      edges[q].weight <= edges[p].weight && (q < p ==> edges[q].weight < edges[p].weight)
  }

  predicate DistinctKeys(edges: seq<Edge>) {
    forall i, j :: 0 <= i < j < |edges| ==> KeyOf(edges[i]) != KeyOf(edges[j])
  }

  ghost predicate HasKey(edges: seq<Edge>, k: Key) {
    exists i :: 0 <= i < |edges| && KeyOf(edges[i]) == k
  }

  lemma BestSnoc(edges: seq<Edge>, x: Edge, e: Edge)
    requires Best(edges, e)
    ensures !(KeyOf(x) == KeyOf(e) && x.weight > e.weight) ==> Best(edges + [x], e)
    ensures KeyOf(x) == KeyOf(e) && x.weight > e.weight ==> Best(edges + [x], x)
  {
    var p :| 0 <= p < |edges| && edges[p] == e && Heaviest(edges, p);
    var all := edges + [x];
    assert all[p] == e && all[|edges|] == x;
    if KeyOf(x) == KeyOf(e) && x.weight > e.weight {
      assert Heaviest(all, |edges|);
    } else {
      assert Heaviest(all, p);
    }
  }

  lemma BestNew(edges: seq<Edge>, x: Edge)
    requires !HasKey(edges, KeyOf(x))
    ensures Best(edges + [x], x)
  {
    var all := edges + [x];
    assert all[|edges|] == x && Heaviest(all, |edges|);
  }

  method DeduplicateEdges(edges: seq<Edge>) returns (result: seq<Edge>)
    ensures DistinctKeys(result)
    ensures forall i :: 0 <= i < |result| ==> Best(edges, result[i])
    ensures forall k :: HasKey(result, k) <==> HasKey(edges, k)
    ensures forall i, j :: 0 <= i < j < |result| ==> !Same(result[i], result[j])
    ensures forall i :: 0 <= i < |edges| ==> Represented(result, edges[i])
  {
    var best: map<Key, Edge> := map[];
    for i := 0 to |edges|
      invariant forall k :: k in best <==> HasKey(edges[..i], k)
      invariant forall k :: k in best ==> KeyOf(best[k]) == k && Best(edges[..i], best[k])
    {
      var e := edges[i];
      var k := KeyOf(e);
      assert edges[..i + 1] == edges[..i] + [e];
      HasKeySnoc(edges[..i], e);
      BestAll(edges[..i], e, best);
      if k !in best || e.weight > best[k].weight {
        best := best[k := e];
      }
    }
    assert edges[..|edges|] == edges;
    result := [];
    var left := best.Keys;
    while left != {}
      invariant left <= best.Keys
      invariant DistinctKeys(result)
      invariant forall i :: 0 <= i < |result| ==> Best(edges, result[i])
      invariant forall k :: HasKey(result, k) <==> k in best && k !in left
      decreases left
    {
      var k :| k in left;
      HasKeySnoc(result, best[k]);
      DistinctSnoc(result, best[k]);
      result := result + [best[k]];
      left := left - {k};
    }
    AllRepresented(edges, result);
  }

  lemma KeyIsSame(a: Edge, b: Edge)
    ensures KeyOf(a) == KeyOf(b) <==> Same(a, b)
  {}

  lemma AllRepresented(edges: seq<Edge>, result: seq<Edge>)
    requires DistinctKeys(result) && forall i :: 0 <= i < |result| ==> Best(edges, result[i])
    requires forall k :: HasKey(result, k) <==> HasKey(edges, k)
    ensures forall i, j :: 0 <= i < j < |result| ==> !Same(result[i], result[j])
    ensures forall i :: 0 <= i < |edges| ==> Represented(result, edges[i])
  {
    forall i, j | 0 <= i < j < |result| ensures !Same(result[i], result[j]) {
      KeyIsSame(result[i], result[j]);
    }
    forall i | 0 <= i < |edges| ensures Represented(result, edges[i]) {
      assert HasKey(edges, KeyOf(edges[i]));
      var j :| 0 <= j < |result| && KeyOf(result[j]) == KeyOf(edges[i]);
      var p :| 0 <= p < |edges| && edges[p] == result[j] && Heaviest(edges, p);
      KeyIsSame(result[j], edges[i]);
    }
  }

  lemma HasKeySnoc(edges: seq<Edge>, x: Edge)
    ensures forall k :: HasKey(edges + [x], k) <==> HasKey(edges, k) || k == KeyOf(x)
  {
    var all := edges + [x];
    assert all[|edges|] == x;
    forall k | HasKey(edges, k) ensures HasKey(all, k) {
      var i :| 0 <= i < |edges| && KeyOf(edges[i]) == k;
      assert all[i] == edges[i];
    }
  }

  lemma DistinctSnoc(edges: seq<Edge>, x: Edge)
    requires DistinctKeys(edges) && !HasKey(edges, KeyOf(x))
    ensures DistinctKeys(edges + [x])
  {}

  lemma BestAll(edges: seq<Edge>, x: Edge, best: map<Key, Edge>)
    requires forall k :: k in best <==> HasKey(edges, k)
    requires forall k :: k in best ==> KeyOf(best[k]) == k && Best(edges, best[k])
    ensures forall k :: k in best && !(k == KeyOf(x) && x.weight > best[k].weight) ==> Best(edges + [x], best[k])
    ensures KeyOf(x) !in best || x.weight > best[KeyOf(x)].weight ==> Best(edges + [x], x)
  {
    forall k | k in best ensures !(k == KeyOf(x) && x.weight > best[k].weight) ==> Best(edges + [x], best[k]) {
      BestSnoc(edges, x, best[k]);
    }
    if KeyOf(x) !in best {
      BestNew(edges, x);
    } else {
      BestSnoc(edges, x, best[KeyOf(x)]);
    }
  }

  // ---------- Pruning ----------

  function From(edges: seq<Edge>, source: string): seq<Edge> {
    if edges == [] then []
    else (if edges[0].source == source then [edges[0]] else []) + From(edges[1..], source)
  }

  function AtLeast(edges: seq<Edge>, minWeight: real): seq<Edge> {
    if edges == [] then []
    else (if edges[0].weight >= minWeight then [edges[0]] else []) + AtLeast(edges[1..], minWeight)
  }

  predicate Descending(edges: seq<Edge>) {
    forall i, j :: 0 <= i < j < |edges| ==> edges[i].weight >= edges[j].weight
  }

  /** As many of the edges as allowed, and none left behind is heavier than one taken. */
  predicate Top(kept: seq<Edge>, all: seq<Edge>, n: nat) {
    && multiset(kept) <= multiset(all)
    && |kept| == (if |all| < n then |all| else n)
    && forall a, b :: a in kept && b in multiset(all) - multiset(kept) ==> a.weight >= b.weight
  }

  lemma {:induction false} FromConcat(a: seq<Edge>, b: seq<Edge>, s: string)
    ensures From(a + b, s) == From(a, s) + From(b, s)
    decreases |a|
  {
    if a == [] {
      assert a + b == b;
    } else {
      assert (a + b)[0] == a[0] && (a + b)[1..] == a[1..] + b;
      FromConcat(a[1..], b, s);
      Assoc(if a[0].source == s then [a[0]] else [], From(a[1..], s), From(b, s));
    }
  }

  lemma Assoc(a: seq<Edge>, b: seq<Edge>, c: seq<Edge>)
    ensures a + (b + c) == a + b + c
  {}

  lemma {:induction false} FromOne(edges: seq<Edge>, s: string, t: string)
    requires forall i :: 0 <= i < |edges| ==> edges[i].source == s
    ensures From(edges, t) == if s == t then edges else []
    decreases |edges|
  {
    if edges != [] {
      FromOne(edges[1..], s, t);
    }
  }

  lemma {:induction false} FromMember(edges: seq<Edge>, s: string, e: Edge)
    ensures multiset(From(edges, s))[e] == if e.source == s then multiset(edges)[e] else 0
    decreases |edges|
  {
    if edges != [] {
      assert edges == [edges[0]] + edges[1..];
      FromMember(edges[1..], s, e);
    }
  }

  lemma {:induction false} AtLeastMember(edges: seq<Edge>, minWeight: real, e: Edge)
    ensures multiset(AtLeast(edges, minWeight))[e] == if e.weight >= minWeight then multiset(edges)[e] else 0
    decreases |edges|
  {
    if edges != [] {
      assert edges == [edges[0]] + edges[1..];
      AtLeastMember(edges[1..], minWeight, e);
    }
  }

  lemma {:induction false} AtLeastSnoc(edges: seq<Edge>, x: Edge, minWeight: real)
    ensures AtLeast(edges + [x], minWeight) == AtLeast(edges, minWeight) + if x.weight >= minWeight then [x] else []
    decreases |edges|
  {
    var last := if x.weight >= minWeight then [x] else [];
    if edges == [] {
      assert edges + [x] == [x] && [x][1..] == [] && [] + last == last == last + [];
    } else {
      assert (edges + [x])[0] == edges[0] && (edges + [x])[1..] == edges[1..] + [x];
      AtLeastSnoc(edges[1..], x, minWeight);
      Assoc(if edges[0].weight >= minWeight then [edges[0]] else [], AtLeast(edges[1..], minWeight), last);
    }
  }

  /** Some descending rearrangement; nothing is promised about equal weights. */
  method SortByWeight(group: seq<Edge>) returns (sorted: seq<Edge>)
    ensures multiset(sorted) == multiset(group) && |sorted| == |group| && Descending(sorted)
  {
    hide Descending;
    sorted := [];
    NoneDescending();
    for i := 0 to |group|
      invariant multiset(sorted) == multiset(group[..i]) && |sorted| == i && Descending(sorted)
    {
      assert group[..i + 1] == group[..i] + [group[i]];
      sorted := Insert(sorted, group[i]);
    }
    assert group[..|group|] == group;
  }

  lemma NoneDescending()
    ensures Descending([])
  {}

  method Insert(sorted: seq<Edge>, x: Edge) returns (r: seq<Edge>)
    requires Descending(sorted)
    ensures Descending(r) && multiset(r) == multiset(sorted) + multiset{x} && |r| == |sorted| + 1
  {
    var j := 0;
    while j < |sorted| && sorted[j].weight >= x.weight
      invariant 0 <= j <= |sorted|
      invariant forall k :: 0 <= k < j ==> sorted[k].weight >= x.weight
    {
      j := j + 1;
    }
    Inserted(sorted, j, x);
    r := sorted[..j] + [x] + sorted[j..];
  }

  lemma Inserted(s: seq<Edge>, j: nat, x: Edge)
    requires j <= |s| && Descending(s)
    requires forall k :: 0 <= k < j ==> s[k].weight >= x.weight
    requires j < |s| ==> s[j].weight <= x.weight
    ensures Descending(s[..j] + [x] + s[j..])
    ensures multiset(s[..j] + [x] + s[j..]) == multiset(s) + multiset{x}
  {
    var r := s[..j] + [x] + s[j..];
    InsertedAt(s, j, x);
    forall i, k | 0 <= i < k < |r| ensures r[i].weight >= r[k].weight {
      assert r[i].weight >= x.weight || r[k].weight <= x.weight;
    }
    InsertedBag(s, j, x);
  }

  lemma InsertedAt(s: seq<Edge>, j: nat, x: Edge)
    requires j <= |s|
    ensures var r := s[..j] + [x] + s[j..];
      forall k :: 0 <= k < |r| ==> r[k] == if k < j then s[k] else if k == j then x else s[k - 1]
  {}

  lemma InsertedBag(s: seq<Edge>, j: nat, x: Edge)
    requires j <= |s|
    ensures multiset(s[..j] + [x] + s[j..]) == multiset(s) + multiset{x}
  {
    assert s == s[..j] + s[j..];
  }

  lemma SortedTop(sorted: seq<Edge>, group: seq<Edge>, n: nat)
    requires multiset(sorted) == multiset(group) && |sorted| == |group| && Descending(sorted)
    ensures Top(if |sorted| > n then sorted[..n] else sorted, group, n)
  {
    if |sorted| > n {
      SplitBag(sorted, n);
      var kept := sorted[..n];
      forall a, b | a in kept && b in multiset(group) - multiset(kept) ensures a.weight >= b.weight {
        SplitOrder(sorted, n, a, b);
      }
    }
  }

  lemma SplitBag(s: seq<Edge>, n: nat)
    requires n <= |s|
    ensures multiset(s) - multiset(s[..n]) == multiset(s[n..]) && multiset(s[..n]) <= multiset(s)
  {
    assert s == s[..n] + s[n..];
  }

  lemma SplitOrder(s: seq<Edge>, n: nat, a: Edge, b: Edge)
    requires n <= |s| && Descending(s) && a in s[..n] && b in multiset(s[n..])
    ensures a.weight >= b.weight
  {
    assert b in s[n..];
    var i :| 0 <= i < n && s[..n][i] == a;
    var j :| 0 <= j < |s[n..]| && s[n..][j] == b;
    assert s[i] == a && s[n + j] == b;
  }

  method PruneEdges(edges: seq<Edge>, minWeight: real, maxPerChunk: int) returns (result: seq<Edge>)
    ensures maxPerChunk <= 0 ==> result == AtLeast(edges, minWeight)
    ensures maxPerChunk > 0 ==>
      forall s :: Top(From(result, s), From(AtLeast(edges, minWeight), s), maxPerChunk)
  {
    var filtered := [];
    for i := 0 to |edges|
      invariant filtered == AtLeast(edges[..i], minWeight)
    {
      assert edges[..i + 1] == edges[..i] + [edges[i]];
      AtLeastSnoc(edges[..i], edges[i], minWeight);
      if edges[i].weight >= minWeight {
        filtered := filtered + [edges[i]];
      }
    }
    assert edges[..|edges|] == edges;
    if maxPerChunk <= 0 {
      return filtered;
    }
    var bySource := GroupBySource(filtered);
    result := KeepTop(filtered, bySource, maxPerChunk);
  }

  ghost predicate Grouped(groups: map<string, seq<Edge>>, edges: seq<Edge>) {
    forall s :: if s in groups then groups[s] == From(edges, s) else From(edges, s) == []
  }

  method GroupBySource(edges: seq<Edge>) returns (groups: map<string, seq<Edge>>)
    ensures Grouped(groups, edges)
  {
    groups := map[];
    for i := 0 to |edges|
      invariant Grouped(groups, edges[..i])
    {
      var e := edges[i];
      assert edges[..i + 1] == edges[..i] + [e];
      GroupSnoc(groups, edges[..i], e);
      groups := groups[e.source := (if e.source in groups then groups[e.source] else []) + [e]];
    }
    assert edges[..|edges|] == edges;
  }

  lemma GroupSnoc(groups: map<string, seq<Edge>>, edges: seq<Edge>, e: Edge)
    requires Grouped(groups, edges)
    ensures Grouped(groups[e.source := (if e.source in groups then groups[e.source] else []) + [e]], edges + [e])
  {
    forall s ensures From(edges + [e], s) == From(edges, s) + if e.source == s then [e] else [] {
      FromConcat(edges, [e], s);
      FromOne([e], e.source, s);
    }
  }

  /** The walk over the groups: those visited are cut to the top, the rest untouched. */
  ghost predicate Visited(result: seq<Edge>, edges: seq<Edge>, left: set<string>, groups: map<string, seq<Edge>>, n: nat) {
    forall s :: if s in groups && s !in left then Top(From(result, s), From(edges, s), n) else From(result, s) == []
  }

  method KeepTop(ghost edges: seq<Edge>, groups: map<string, seq<Edge>>, n: nat) returns (result: seq<Edge>)
    requires Grouped(groups, edges) && n > 0
    ensures forall s :: Top(From(result, s), From(edges, s), n)
  {
    hide Top, Visited, From;
    result := [];
    var left := groups.Keys;
    VisitNone(edges, groups, n);
    while left != {}
      invariant left <= groups.Keys && Visited(result, edges, left, groups, n)
      decreases left
    {
      var s :| s in left;
      var group := SortByWeight(groups[s]);
      SortedTop(group, groups[s], n);
      if |group| > n {
        group := group[..n];
      }
      Visit(result, group, edges, left, groups, n, s);
      result := result + group;
      left := left - {s};
    }
    VisitedAll(result, edges, groups, n);
  }

  lemma VisitNone(edges: seq<Edge>, groups: map<string, seq<Edge>>, n: nat)
    ensures Visited([], edges, groups.Keys, groups, n)
  {}

  lemma Visit(result: seq<Edge>, group: seq<Edge>, edges: seq<Edge>, left: set<string>,
              groups: map<string, seq<Edge>>, n: nat, s: string)
    requires Visited(result, edges, left, groups, n) && s in left && s in groups
    requires Top(group, From(edges, s), n)
    ensures Visited(result + group, edges, left - {s}, groups, n)
  {
    hide Top, From;
    TopSource(group, edges, s, n);
    forall t ensures if t in groups && t !in left - {s} then Top(From(result + group, t), From(edges, t), n)
                     else From(result + group, t) == []
    {
      AddGroup(result, group, s, t);
      assert From(result, s) == [];
      assert [] + group == group;
    }
  }

  lemma VisitedAll(result: seq<Edge>, edges: seq<Edge>, groups: map<string, seq<Edge>>, n: nat)
    requires Grouped(groups, edges) && Visited(result, edges, {}, groups, n)
    ensures forall s :: Top(From(result, s), From(edges, s), n)
  {
    hide Top, From;
    TopNothing(n);
    forall s ensures Top(From(result, s), From(edges, s), n) {
      assert s in groups ==> Top(From(result, s), From(edges, s), n);
    }
  }

  lemma TopNothing(n: nat)
    ensures Top([], [], n)
  {}

  lemma TopSource(group: seq<Edge>, edges: seq<Edge>, s: string, n: nat)
    requires Top(group, From(edges, s), n)
    ensures forall i :: 0 <= i < |group| ==> group[i].source == s
  {
    forall i | 0 <= i < |group| ensures group[i].source == s {
      FromMember(edges, s, group[i]);
      assert group[i] in multiset(group);
    }
  }

  lemma AddGroup(result: seq<Edge>, group: seq<Edge>, s: string, t: string)
    requires forall i :: 0 <= i < |group| ==> group[i].source == s
    ensures From(result + group, t) == if t == s then From(result, t) + group else From(result, t)
  {
    hide From;
    FromConcat(result, group, t);
    FromOne(group, s, t);
    assert From(result, t) + [] == From(result, t);
  }

  // ---------- Both together ----------

  ghost predicate Pruned(result: seq<Edge>, edges: seq<Edge>, minWeight: real, n: nat) {
    forall s :: Top(From(result, s), From(AtLeast(edges, minWeight), s), n)
  }

  /** Pruning keeps at most the copies there were, and none below the minimum. */
  lemma PrunedCount(result: seq<Edge>, edges: seq<Edge>, minWeight: real, n: nat, e: Edge)
    requires Pruned(result, edges, minWeight, n)
    ensures multiset(result)[e] <= if e.weight >= minWeight then multiset(edges)[e] else 0
  {
    hide From, AtLeast;
    FromMember(result, e.source, e);
    FromMember(AtLeast(edges, minWeight), e.source, e);
    AtLeastMember(edges, minWeight, e);
    assert Top(From(result, e.source), From(AtLeast(edges, minWeight), e.source), n);
  }

  lemma {:induction false} DistinctCount(edges: seq<Edge>, e: Edge)
    requires DistinctKeys(edges)
    ensures multiset(edges)[e] <= 1
    decreases |edges|
  {
    if edges != [] {
      assert edges == [edges[0]] + edges[1..];
      assert forall i :: 0 <= i < |edges[1..]| ==> edges[1..][i] == edges[i + 1];
      DistinctCount(edges[1..], e);
    }
  }

  lemma TwoCount(edges: seq<Edge>, i: nat, j: nat)
    requires i < j < |edges| && edges[i] == edges[j]
    ensures multiset(edges)[edges[i]] >= 2
  {
    assert edges == edges[..j] + edges[j..];
    assert edges[..j][i] == edges[i] && edges[j..][0] == edges[i];
    assert edges[i] in multiset(edges[..j]) && edges[i] in multiset(edges[j..]);
  }

  lemma PrunedDistinct(result: seq<Edge>, edges: seq<Edge>, minWeight: real, n: nat)
    requires Pruned(result, edges, minWeight, n) && DistinctKeys(edges)
    ensures DistinctKeys(result)
    ensures forall e :: e in result ==> e in edges && e.weight >= minWeight
  {
    hide Pruned;
    forall e | e in result ensures e in edges && e.weight >= minWeight {
      PrunedCount(result, edges, minWeight, n, e);
      assert e in multiset(result);
    }
    forall i, j | 0 <= i < j < |result| ensures KeyOf(result[i]) != KeyOf(result[j]) {
      assert result[i] in edges && result[j] in edges;
      PrunedCount(result, edges, minWeight, n, result[i]);
      DistinctCount(edges, result[i]);
      if result[i] == result[j] {
        TwoCount(result, i, j);
        assert false;
      }
    }
  }

  lemma BestUnique(edges: seq<Edge>, d: Edge, e: Edge)
    requires Best(edges, d) && Best(edges, e) && KeyOf(d) == KeyOf(e)
    ensures d == e
  {
    var p :| 0 <= p < |edges| && edges[p] == d && Heaviest(edges, p);
    var q :| 0 <= q < |edges| && edges[q] == e && Heaviest(edges, q);
    assert edges[q].weight <= edges[p].weight && edges[p].weight <= edges[q].weight;
  }

  lemma DedupHasBest(edges: seq<Edge>, distinct: seq<Edge>, d: Edge)
    requires forall i :: 0 <= i < |distinct| ==> Best(edges, distinct[i])
    requires forall k :: HasKey(distinct, k) <==> HasKey(edges, k)
    requires Best(edges, d)
    ensures d in distinct
  {
    assert HasKey(edges, KeyOf(d));
    var i :| 0 <= i < |distinct| && KeyOf(distinct[i]) == KeyOf(d);
    BestUnique(edges, d, distinct[i]);
  }

  lemma FullUnlessAll(kept: seq<Edge>, all: seq<Edge>, n: nat, d: Edge)
    requires Top(kept, all, n) && d in all && d !in kept
    ensures |kept| == n && forall e :: e in kept ==> e.weight >= d.weight
  {
    assert d in multiset(all) && d !in multiset(kept);
    assert d in multiset(all) - multiset(kept);
    assert multiset(all) == multiset(kept) + (multiset(all) - multiset(kept));
    assert |multiset(all) - multiset(kept)| > 0;
  }

  lemma DroppedIsLight(result: seq<Edge>, edges: seq<Edge>, minWeight: real, n: nat, d: Edge)
    requires Pruned(result, edges, minWeight, n) && d in edges && d.weight >= minWeight && d !in result
    ensures |From(result, d.source)| == n && forall e :: e in From(result, d.source) ==> e.weight >= d.weight
  {
    hide From, AtLeast, Top;
    FromMember(result, d.source, d);
    FromMember(AtLeast(edges, minWeight), d.source, d);
    AtLeastMember(edges, minWeight, d);
    assert d in multiset(edges) && d !in multiset(result);
    assert d in multiset(From(AtLeast(edges, minWeight), d.source)) && d !in multiset(From(result, d.source));
    FullUnlessAll(From(result, d.source), From(AtLeast(edges, minWeight), d.source), n, d);
  }

  /** What the caller is left with: at most one edge per key, the heaviest of its key
      and at least the minimum. Without a cap all of those. With a cap no more than
      that many per source, and an edge that was dropped though heavy enough left its
      source with exactly as many, none of them lighter. */
  method DedupThenPrune(edges: seq<Edge>, minWeight: real, maxPerChunk: int) returns (result: seq<Edge>)
    ensures DistinctKeys(result)
    ensures forall e :: e in result ==> Best(edges, e) && e.weight >= minWeight
    ensures maxPerChunk <= 0 ==> forall d :: Best(edges, d) && d.weight >= minWeight ==> d in result
    ensures maxPerChunk > 0 ==> forall s :: |From(result, s)| <= maxPerChunk
    ensures maxPerChunk > 0 ==> forall d :: Best(edges, d) && d.weight >= minWeight && d !in result ==>
      |From(result, d.source)| == maxPerChunk && forall e :: e in From(result, d.source) ==> e.weight >= d.weight
  {
    hide Best, HasKey, DistinctKeys, From, Top, AtLeast;
    var distinct := DeduplicateEdges(edges);
    result := PruneEdges(distinct, minWeight, maxPerChunk);
    if maxPerChunk > 0 {
      DedupPruned(edges, distinct, result, minWeight, maxPerChunk);
    } else {
      DedupFiltered(edges, distinct, minWeight);
    }
  }

  lemma DedupFiltered(edges: seq<Edge>, distinct: seq<Edge>, minWeight: real)
    requires DistinctKeys(distinct)
    requires forall i :: 0 <= i < |distinct| ==> Best(edges, distinct[i])
    requires forall k :: HasKey(distinct, k) <==> HasKey(edges, k)
    ensures DistinctKeys(AtLeast(distinct, minWeight))
    ensures forall e :: e in AtLeast(distinct, minWeight) ==> Best(edges, e) && e.weight >= minWeight
    ensures forall d :: Best(edges, d) && d.weight >= minWeight ==> d in AtLeast(distinct, minWeight)
  {
    hide Best, HasKey, AtLeast;
    var result := AtLeast(distinct, minWeight);
    forall e | e in result ensures e in distinct && e.weight >= minWeight {
      AtLeastMember(distinct, minWeight, e);
      assert e in multiset(result);
    }
    forall d | Best(edges, d) && d.weight >= minWeight ensures d in result {
      DedupHasBest(edges, distinct, d);
      AtLeastMember(distinct, minWeight, d);
      assert d in multiset(distinct);
    }
    AtLeastDistinct(distinct, minWeight);
  }

  lemma AtLeastDistinct(edges: seq<Edge>, minWeight: real)
    requires DistinctKeys(edges)
    ensures DistinctKeys(AtLeast(edges, minWeight))
  {
    hide AtLeast;
    var result := AtLeast(edges, minWeight);
    forall i, j | 0 <= i < j < |result| ensures KeyOf(result[i]) != KeyOf(result[j]) {
      AtLeastMember(edges, minWeight, result[i]);
      AtLeastMember(edges, minWeight, result[j]);
      assert result[i] in multiset(result) && result[j] in multiset(result);
      assert result[i] in edges && result[j] in edges;
      DistinctCount(edges, result[i]);
      if result[i] == result[j] {
        TwoCount(result, i, j);
        assert false;
      }
    }
  }

  lemma DedupPruned(edges: seq<Edge>, distinct: seq<Edge>, result: seq<Edge>, minWeight: real, n: nat)
    requires DistinctKeys(distinct) && Pruned(result, distinct, minWeight, n)
    requires forall i :: 0 <= i < |distinct| ==> Best(edges, distinct[i])
    requires forall k :: HasKey(distinct, k) <==> HasKey(edges, k)
    ensures DistinctKeys(result)
    ensures forall e :: e in result ==> Best(edges, e) && e.weight >= minWeight
    ensures forall s :: |From(result, s)| <= n
    ensures forall d :: Best(edges, d) && d.weight >= minWeight && d !in result ==>
      |From(result, d.source)| == n && forall e :: e in From(result, d.source) ==> e.weight >= d.weight
  {
    hide From, AtLeast, Best, HasKey, DistinctKeys;
    PrunedDistinct(result, distinct, minWeight, n);
    forall d | Best(edges, d) && d.weight >= minWeight && d !in result
      ensures |From(result, d.source)| == n && forall e :: e in From(result, d.source) ==> e.weight >= d.weight
    {
      DedupHasBest(edges, distinct, d);
      DroppedIsLight(result, distinct, minWeight, n, d);
    }
    forall s ensures |From(result, s)| <= n {
      assert Top(From(result, s), From(AtLeast(distinct, minWeight), s), n);
    }
  }
}
