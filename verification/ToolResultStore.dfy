/**
 The bounded in-memory tool result store of core/tool_result_store.go: a map of
 entries, their ids in insertion order, a running byte total, and the earliest
 expiry, which lets most accesses skip the sweep. Clock readings and fresh ids
 are parameters; time 0 is Go's zero time.
 */
module ToolResultStore {
  import opened Basics
  import opened Octets

  type Id = nat
  type Time = int

  datatype Entry = Entry(content: Bytes, expiresAt: Time)

  datatype Item = Item(id: Id, entry: Entry)

  // ---------- A store as the list of its items ----------

  predicate Expired(i: Item, now: Time) {
    now > i.entry.expiresAt
  }

  /** What a store that sweeps on every access would still hold. */
  function Live(items: seq<Item>, now: Time): seq<Item> {
    if items == [] then []
    else (if Expired(items[0], now) then [] else [items[0]]) + Live(items[1..], now)
  }

  function Total(items: seq<Item>): nat {
    if items == [] then 0 else |items[0].entry.content| + Total(items[1..])
  }

  predicate Fits(items: seq<Item>, maxBytes: int, maxEntries: int) {
    Total(items) <= maxBytes && (maxEntries > 0 ==> |items| <= maxEntries)
  }

  /** The longest suffix that fits both caps. */
  function Fitting(items: seq<Item>, maxBytes: int, maxEntries: int): seq<Item> {
    if items == [] || Fits(items, maxBytes, maxEntries) then items
    else Fitting(items[1..], maxBytes, maxEntries)
  }

  /** Fitting is that suffix: it fits (or nothing is left), and nothing longer does. */
  lemma {:induction false} FittingIsLongest(items: seq<Item>, maxBytes: int, maxEntries: int)
    ensures var r := Fitting(items, maxBytes, maxEntries);
      && |r| <= |items| && r == items[|items| - |r|..]
      && (r == [] || (Total(r) <= maxBytes && (maxEntries <= 0 || |r| <= maxEntries)))
      && forall k :: 0 <= k < |items| - |r| ==> Total(items[k..]) > maxBytes || 0 < maxEntries < |items[k..]|
    decreases |items|
  {
    if items == [] || Fits(items, maxBytes, maxEntries) {
      assert items[0..] == items;
    } else {
      FittingIsLongest(items[1..], maxBytes, maxEntries);
      var r := Fitting(items[1..], maxBytes, maxEntries);
      forall k | 0 <= k < |items| - |r| ensures Total(items[k..]) > maxBytes || 0 < maxEntries < |items[k..]| {
        if k > 0 {
          assert items[k..] == items[1..][k - 1..];
        } else {
          assert items[0..] == items;
        }
      }
    }
  }

  lemma {:induction false} LiveSnoc(items: seq<Item>, x: Item, now: Time)
    ensures Live(items + [x], now) == Live(items, now) + if Expired(x, now) then [] else [x]
    decreases |items|
  {
    if items == [] {
      assert items + [x] == [x] && [x][1..] == [];
    } else {
      assert (items + [x])[1..] == items[1..] + [x];
      LiveSnoc(items[1..], x, now);
    }
  }

  lemma {:induction false} LiveAll(items: seq<Item>, now: Time)
    requires forall i :: 0 <= i < |items| ==> !Expired(items[i], now)
    ensures Live(items, now) == items
    decreases |items|
  {
    if items != [] {
      LiveAll(items[1..], now);
    }
  }

  lemma {:induction false} TotalSnoc(items: seq<Item>, x: Item)
    ensures Total(items + [x]) == Total(items) + |x.entry.content|
    decreases |items|
  {
    if items == [] {
      assert items + [x] == [x] && [x][1..] == [];
    } else {
      assert (items + [x])[1..] == items[1..] + [x];
      TotalSnoc(items[1..], x);
    }
  }

  // ---------- Map and order ----------

  /** The order lists exactly the keys of the map, each once. */
  ghost predicate Consistent(m: map<Id, Entry>, order: seq<Id>) {
    && (forall i :: 0 <= i < |order| ==> order[i] in m)
    && (forall i, j :: 0 <= i < j < |order| ==> order[i] != order[j])
    && (forall id :: id in m ==> id in order)
  }

  function ItemsOf(m: map<Id, Entry>, order: seq<Id>): (r: seq<Item>)
    requires forall i :: 0 <= i < |order| ==> order[i] in m
    ensures |r| == |order|
  {
    seq(|order|, i requires 0 <= i < |order| => Item(order[i], m[order[i]]))
  }

  /** The tracked expiry is never later than any entry's. */
  ghost predicate Tracks(items: seq<Item>, nextExpiry: Time) {
    && (nextExpiry == 0 ==> items == [])
    && forall i :: 0 <= i < |items| ==> 0 < items[i].entry.expiresAt && nextExpiry <= items[i].entry.expiresAt
  }

  lemma AppendNew(m: map<Id, Entry>, order: seq<Id>, id: Id, e: Entry)
    requires Consistent(m, order) && id !in m
    ensures Consistent(m[id := e], order + [id])
    ensures ItemsOf(m[id := e], order + [id]) == ItemsOf(m, order) + [Item(id, e)]
  {
    assert (order + [id])[|order|] == id;
    forall x | x in m ensures x in order + [id] {
      assert x in order;
    }
  }

  lemma DropOldest(m: map<Id, Entry>, order: seq<Id>)
    requires Consistent(m, order) && order != []
    ensures Consistent(m - {order[0]}, order[1..])
    ensures ItemsOf(m - {order[0]}, order[1..]) == ItemsOf(m, order)[1..]
  {
    forall id | id in m && id != order[0] ensures id in order[1..] {
      var i :| 0 <= i < |order| && order[i] == id;
      assert order[1..][i - 1] == id;
    }
  }

  datatype Answer = NotFound | Content(text: Bytes, total: nat) | Panics

  /** The slice Get answers with; negative bounds panic in Go. */
  function Slice(content: Bytes, offset: int, length: int): Answer {
    var total := |content|;
    if offset >= total then Content([], total)
    else
      var end := if offset + length > total then total else offset + length;
      if offset < 0 || end < offset then Panics else Content(content[offset..end], total)
  }

  /** What a caller is promised about one page: the bytes from offset on, as many as asked
      for and as there are, with the total; nothing behind the end; and a panic for
      a negative offset or length before it. */
  ghost predicate IsPage(c: Bytes, offset: int, length: int, a: Answer) {
    if offset >= |c| then a == Content([], |c|)
    else if offset < 0 || length < 0 then a == Panics
    else
      && a.Content? && a.total == |c| && |a.text| == Min(length, |c| - offset)
      && forall k :: 0 <= k < |a.text| ==> a.text[k] == c[offset + k]
  }

  lemma SliceIsPage(c: Bytes, offset: int, length: int)
    ensures IsPage(c, offset, length, Slice(c, offset, length))
  {}

  /** Consecutive pages of n bytes each, the first one at `from`. */
  ghost predicate ArePages(c: Bytes, n: nat, pages: seq<Answer>, from: nat) {
    forall i :: 0 <= i < |pages| ==> IsPage(c, from + i * n, n, pages[i])
  }

  lemma NextPages(c: Bytes, n: nat, pages: seq<Answer>, from: nat)
    requires pages != [] && ArePages(c, n, pages, from)
    ensures IsPage(c, from, n, pages[0]) && ArePages(c, n, pages[1..], from + n)
    ensures |pages| * n == n + |pages[1..]| * n
  {
    hide IsPage;
    assert IsPage(c, from + 0 * n, n, pages[0]);
    forall i | 0 <= i < |pages| - 1 ensures IsPage(c, from + n + i * n, n, pages[1..][i]) {
      assert (i + 1) * n == n + i * n;
      assert IsPage(c, from + (i + 1) * n, n, pages[i + 1]);
    }
  }

  lemma PageText(c: Bytes, n: nat, from: nat, p: Answer)
    requires from <= |c| && IsPage(c, from, n, p)
    ensures p.Content? && p.text == c[from..from + Min(n, |c| - from)]
  {}

  /** Pages of n bytes each, up to the end, make up the content. */
  lemma {:induction false} PagesJoin(c: Bytes, n: nat, pages: seq<Answer>, from: nat)
    requires n > 0 && from <= |c| && ArePages(c, n, pages, from) && |pages| * n >= |c| - from
    ensures Joined(pages) == c[from..]
    decreases |pages|
  {
    hide IsPage, ArePages;
    if pages != [] {
      NextPages(c, n, pages, from);
      PageText(c, n, from, pages[0]);
      if from + n <= |c| {
        PagesJoin(c, n, pages[1..], from + n);
        assert c[from..] == c[from..from + n] + c[from + n..];
      } else {
        PagesBehind(c, n, pages[1..], from + n);
      }
    }
  }

  lemma {:induction false} PagesBehind(c: Bytes, n: nat, pages: seq<Answer>, from: nat)
    requires from >= |c| && ArePages(c, n, pages, from)
    ensures Joined(pages) == []
    decreases |pages|
  {
    hide ArePages;
    if pages != [] {
      NextPages(c, n, pages, from);
      PagesBehind(c, n, pages[1..], from + n);
    }
  }

  /** The texts of the pages, one after another. */
  function Joined(pages: seq<Answer>): Bytes {
    if pages == [] then []
    else (if pages[0].Content? then pages[0].text else []) + Joined(pages[1..])
  }

  /** The item with this id, as an access finds it. */
  function Lookup(items: seq<Item>, id: Id, offset: int, length: int): Answer {
    if items == [] then NotFound
    else if items[0].id == id then Slice(items[0].entry.content, offset, length)
    else Lookup(items[1..], id, offset, length)
  }

  lemma {:induction false} LookupInMap(m: map<Id, Entry>, order: seq<Id>, id: Id, offset: int, length: int)
    requires forall i :: 0 <= i < |order| ==> order[i] in m
    ensures id in order ==> Lookup(ItemsOf(m, order), id, offset, length) == Slice(m[id].content, offset, length)
    ensures id !in order ==> Lookup(ItemsOf(m, order), id, offset, length) == NotFound
    decreases |order|
  {
    if order != [] {
      assert ItemsOf(m, order)[1..] == ItemsOf(m, order[1..]);
      LookupInMap(m, order[1..], id, offset, length);
    }
  }

  // ---------- The sweep, element by element ----------

  /** Halfway through the sweep: `kept` holds the survivors among the first i. */
  ghost predicate Swept(items: seq<Item>, order: seq<Id>, i: nat, now: Time,
                        m: map<Id, Entry>, kept: seq<Id>, bytes: int, minExpiry: Time)
  {
    && i <= |order| && |items| == |order|
    && Consistent(m, kept + order[i..])
    && (forall k :: 0 <= k < |kept| ==> kept[k] in m)
    && (forall k :: i <= k < |order| ==> order[k] in m && items[k] == Item(order[k], m[order[k]]))
    && (forall k :: 0 <= k < |items| ==> items[k].entry.expiresAt > 0)
    && ItemsOf(m, kept) == Live(items[..i], now)
    && bytes == Total(Live(items[..i], now)) + Total(items[i..])
    && Tracks(Live(items[..i], now), minExpiry)
  }

  lemma SweepStart(m: map<Id, Entry>, order: seq<Id>, now: Time, bytes: int, nextExpiry: Time)
    requires Consistent(m, order) && bytes == Total(ItemsOf(m, order)) && Tracks(ItemsOf(m, order), nextExpiry)
    ensures Swept(ItemsOf(m, order), order, 0, now, m, [], bytes, 0)
  {
    hide Total;
    var items := ItemsOf(m, order);
    assert [] + order[0..] == order && items[..0] == [] && items[0..] == items;
    assert ItemsOf(m, []) == [];
    assert Total([]) == 0 by {
      TotalNil();
    }
  }

  lemma TotalNil()
    ensures Total([]) == 0
  {}

  lemma SweptAt(items: seq<Item>, order: seq<Id>, i: nat, now: Time,
                m: map<Id, Entry>, kept: seq<Id>, bytes: int, minExpiry: Time)
    requires Swept(items, order, i, now, m, kept, bytes, minExpiry) && i < |order|
    ensures order[i] in m && i < |items| && items[i] == Item(order[i], m[order[i]])
  {}

  lemma SweepNext(items: seq<Item>, order: seq<Id>, i: nat, now: Time,
                  m: map<Id, Entry>, kept: seq<Id>, bytes: int, minExpiry: Time)
    requires Swept(items, order, i, now, m, kept, bytes, minExpiry) && i < |order| && order[i] in m
    ensures var id := order[i];
      var e := m[id];
      if now > e.expiresAt then Swept(items, order, i + 1, now, m - {id}, kept, bytes - |e.content|, minExpiry)
      else Swept(items, order, i + 1, now, m, kept + [id], bytes,
                 if minExpiry == 0 || e.expiresAt < minExpiry then e.expiresAt else minExpiry)
  {
    hide Consistent, ItemsOf, Live, Total, Tracks;
    var id, e := order[i], m[order[i]];
    ListsNext(m, kept, order, i);
    ContentsNext(items, i, now);
    if now <= e.expiresAt {
      TracksMore(Live(items[..i], now), items[i], minExpiry);
      KeptMore(m, kept, id);
    }
  }

  lemma TracksMore(items: seq<Item>, x: Item, minExpiry: Time)
    requires Tracks(items, minExpiry) && x.entry.expiresAt > 0
    ensures Tracks(items + [x], if minExpiry == 0 || x.entry.expiresAt < minExpiry then x.entry.expiresAt else minExpiry)
  {}

  lemma KeptMore(m: map<Id, Entry>, kept: seq<Id>, id: Id)
    requires id in m && forall k :: 0 <= k < |kept| ==> kept[k] in m
    ensures forall k :: 0 <= k < |kept + [id]| ==> (kept + [id])[k] in m
    ensures ItemsOf(m, kept + [id]) == ItemsOf(m, kept) + [Item(id, m[id])]
  {}

  lemma ContentsNext(items: seq<Item>, i: nat, now: Time)
    requires i < |items|
    ensures Live(items[..i + 1], now) == Live(items[..i], now) + if Expired(items[i], now) then [] else [items[i]]
    ensures Total(items[i..]) == |items[i].entry.content| + Total(items[i + 1..])
    ensures Total(Live(items[..i], now) + [items[i]]) == Total(Live(items[..i], now)) + |items[i].entry.content|
    ensures Live(items[..i], now) + [] == Live(items[..i], now)
  {
    assert items[..i + 1] == items[..i] + [items[i]];
    LiveSnoc(items[..i], items[i], now);
    assert items[i..][1..] == items[i + 1..];
    TotalSnoc(Live(items[..i], now), items[i]);
  }

  lemma ListsNext(m: map<Id, Entry>, kept: seq<Id>, order: seq<Id>, i: nat)
    requires i < |order| && Consistent(m, kept + order[i..])
    requires forall k :: 0 <= k < |kept| ==> kept[k] in m
    ensures kept + [order[i]] + order[i + 1..] == kept + order[i..]
    ensures Consistent(m - {order[i]}, kept + order[i + 1..])
    ensures forall k :: 0 <= k < |kept| ==> kept[k] != order[i]
    ensures forall k :: i < k < |order| ==> order[k] != order[i]
    ensures ItemsOf(m - {order[i]}, kept) == ItemsOf(m, kept)
  {
    hide Consistent, ItemsOf;
    var all, n := kept + order[i..], |kept|;
    Cuts(kept, order, i);
    RemoveAt(m, all, n);
    forall k | 0 <= k < n ensures kept[k] != order[i] {
      Distinct(m, all, k, n);
    }
    forall k | i < k < |order| ensures order[k] != order[i] {
      Distinct(m, all, n, n + (k - i));
    }
    Elsewhere(m, kept, order[i]);
  }

  lemma Cuts(kept: seq<Id>, order: seq<Id>, i: nat)
    requires i < |order|
    ensures var all, n := kept + order[i..], |kept|;
      && kept + [order[i]] + order[i + 1..] == all
      && all[..n] + all[n + 1..] == kept + order[i + 1..]
      && (forall k :: 0 <= k < n ==> all[k] == kept[k])
      && forall k :: i <= k < |order| ==> all[n + (k - i)] == order[k]
  {}

  lemma Distinct(m: map<Id, Entry>, all: seq<Id>, j: nat, k: nat)
    requires Consistent(m, all) && j < k < |all|
    ensures all[j] != all[k]
  {}

  lemma Elsewhere(m: map<Id, Entry>, kept: seq<Id>, id: Id)
    requires forall k :: 0 <= k < |kept| ==> kept[k] in m && kept[k] != id
    ensures ItemsOf(m - {id}, kept) == ItemsOf(m, kept)
  {}

  lemma RemoveAt(m: map<Id, Entry>, all: seq<Id>, n: nat)
    requires n < |all| && Consistent(m, all)
    ensures Consistent(m - {all[n]}, all[..n] + all[n + 1..])
  {
    var rest := all[..n] + all[n + 1..];
    assert forall k :: 0 <= k < |rest| ==> rest[k] == all[if k < n then k else k + 1];
    forall id | id in m && id != all[n] ensures id in rest {
      var k :| 0 <= k < |all| && all[k] == id;
      assert rest[if k < n then k else k - 1] == id;
    }
  }

  lemma SweepEnd(items: seq<Item>, order: seq<Id>, now: Time,
                 m: map<Id, Entry>, kept: seq<Id>, bytes: int, minExpiry: Time)
    requires Swept(items, order, |order|, now, m, kept, bytes, minExpiry)
    ensures Consistent(m, kept) && ItemsOf(m, kept) == Live(items, now)
    ensures bytes == Total(ItemsOf(m, kept)) && Tracks(ItemsOf(m, kept), minExpiry)
  {
    hide Live, Tracks, Total, ItemsOf, Consistent;
    assert kept + order[|order|..] == kept && items[..|order|] == items && items[|order|..] == [];
    TotalNil();
  }

  class InMemoryStore {
    var entries: map<Id, Entry>
    var order: seq<Id>
    var totalBytes: int
    var nextExpiry: Time
    const maxBytes: int
    const maxEntries: int
    const ttl: int

    constructor (maxBytes: int, maxEntries: int, ttl: int)
      ensures Valid() && Items() == []
      ensures this.maxBytes == maxBytes && this.maxEntries == maxEntries && this.ttl == ttl
    {
      entries, order, totalBytes, nextExpiry := map[], [], 0, 0;
      this.maxBytes, this.maxEntries, this.ttl := maxBytes, maxEntries, ttl;
    }

    ghost predicate Valid()
      reads this
    {
      && Consistent(entries, order)
      && totalBytes == Total(ItemsOf(entries, order))
      && Tracks(ItemsOf(entries, order), nextExpiry)
    }

    ghost function Items(): seq<Item>
      requires Valid()
      reads this
    {
      ItemsOf(entries, order)
    }

    /** The sweep, or the fast path that skips it: the outcome is the same. */
    method ExpireExpiredLocked(now: Time)
      requires Valid()
      modifies this
      ensures Valid() && Items() == Live(old(Items()), now)
    {
      if nextExpiry == 0 || now < nextExpiry {
        LiveAll(Items(), now);
        return;
      }
      Sweep(now);
    }

    method Sweep(now: Time)
      requires Valid()
      modifies this
      ensures Valid() && Items() == Live(old(Items()), now)
    {
      hide Consistent, Tracks, ItemsOf, Live, Total, Swept;
      ghost var items := Items();
      var kept: seq<Id> := [];
      var minExpiry: Time := 0;
      var i := 0;
      SweepStart(entries, order, now, totalBytes, nextExpiry);
      while i < |order|
        invariant 0 <= i <= |order| && order == old(order)
        invariant Swept(items, order, i, now, entries, kept, totalBytes, minExpiry)
      {
        SweptAt(items, order, i, now, entries, kept, totalBytes, minExpiry);
        var id := order[i];
        var e := entries[id];
        SweepNext(items, order, i, now, entries, kept, totalBytes, minExpiry);
        if now > e.expiresAt {
          totalBytes := totalBytes - |e.content|;
          entries := entries - {id};
        } else {
          kept := kept + [id];
          if minExpiry == 0 || e.expiresAt < minExpiry {
            minExpiry := e.expiresAt;
          }
        }
        i := i + 1;
      }
      SweepEnd(items, order, now, entries, kept, totalBytes, minExpiry);
      order := kept;
      nextExpiry := minExpiry;
    }

    /** Neither cap is exceeded, by the store's own count. */
    predicate WithinCaps()
      reads this
    {
      totalBytes <= maxBytes && (maxEntries > 0 ==> |order| <= maxEntries)
    }

    /** The books after a collision: the id listed last is listed before or not stored,
        and `lost` bytes are counted that nothing holds. */
    ghost predicate Broken(id: Id, lost: nat)
      reads this
    {
      Clashes(entries, order, totalBytes, id, lost)
    }

    method EvictLocked(ghost id: Id, ghost lost: nat)
      modifies this`entries, this`order, this`totalBytes
      ensures old(Valid()) ==> Valid() && Items() == Fitting(old(Items()), maxBytes, maxEntries)
      ensures old(Broken(id, lost)) ==> Broken(id, lost) || (order == [] && entries == map[] && totalBytes == lost > maxBytes)
      ensures old(Broken(id, lost)) && maxBytes < 0 ==> order == []
      ensures old(WithinCaps()) ==> unchanged(this)
    {
      hide Clashes;
      while |order| > 0
        invariant old(WithinCaps()) ==> unchanged(this)
        invariant old(Valid()) ==> Valid()
        invariant old(Valid()) ==> Fitting(Items(), maxBytes, maxEntries) == Fitting(old(Items()), maxBytes, maxEntries)
        invariant old(Broken(id, lost)) ==> Broken(id, lost) || (order == [] && entries == map[] && totalBytes == lost > maxBytes)
        decreases |order|
      {
        var overBytes := totalBytes > maxBytes;
        var overEntries := maxEntries > 0 && |order| > maxEntries;
        if old(Broken(id, lost)) {
          DropFirstListed(entries, order, totalBytes, id, lost);
        }
        if !overBytes && !overEntries {
          return;
        }
        if old(Valid()) {
          DropOldest(entries, order);
          LaterTracked(Items(), nextExpiry);
        }
        var front := order[0];
        order := order[1..];
        if front in entries {
          totalBytes := totalBytes - |entries[front].content|;
          entries := entries - {front};
        }
      }
    }

    /** The store gains the new entry, and keeps the survivors as far back as both
        caps allow, if and only if the random id is not that of a survivor. Otherwise
        one entry replaces another and the bytes of the old one stay counted, whatever
        is evicted. (Only a store that admits nothing at all forgets an empty one.) */
    method Put(content: Bytes, id: Id, now: Time, now': Time)
      requires Valid() && now' + ttl > 0
      modifies this
      ensures !Has(Live(old(Items()), now), id) ==>
        && Valid()
        && Items() == Fitting(Live(old(Items()), now) + [Item(id, Entry(content, now' + ttl))], maxBytes, maxEntries)
      ensures Has(Live(old(Items()), now), id) ==>
        var lost := |ContentOf(Live(old(Items()), now), id)|;
        Broken(id, lost) || (order == [] && entries == map[] && totalBytes == lost > maxBytes)
      ensures var live := Live(old(Items()), now);
        Has(live, id) && Total(live) + |content| <= maxBytes && (maxEntries > 0 ==> |live| < maxEntries) ==>
        && |entries| == |live| && |order| == |live| + 1 && id in entries
        && entries[id].content == content && totalBytes == Total(live) + |content|
      ensures Valid() <==>
        !Has(Live(old(Items()), now), id) || (maxBytes < 0 && ContentOf(Live(old(Items()), now), id) == [])
    {
      hide Live, Fitting, Total, Fits, Consistent, Tracks, ItemsOf, Clashes, ContentOf;
      ExpireExpiredLocked(now);
      var entry := Entry(content, now' + ttl);
      ghost var live := Items();
      ghost var lost := if Has(live, id) then |ContentOf(live, id)| else 0;
      KeysAreIds(entries, order, id);
      if id !in entries {
        AppendNew(entries, order, id, entry);
        TotalSnoc(live, Item(id, entry));
        TracksMore(live, Item(id, entry), nextExpiry);
      } else {
        Collides(entries, order, id, entry);
      }
      entries := entries[id := entry];
      order := order + [id];
      totalBytes := totalBytes + |content|;
      if nextExpiry == 0 || entry.expiresAt < nextExpiry {
        nextExpiry := entry.expiresAt;
      }
      EvictLocked(id, lost);
      if Has(live, id) {
        ClashIsInvalid(entries, order, totalBytes, nextExpiry, id, lost);
      }
    }

    method Get(id: Id, offset: int, length: int, now: Time) returns (a: Answer)
      requires Valid()
      modifies this
      ensures Valid() && Items() == Live(old(Items()), now)
      ensures a == Lookup(Live(old(Items()), now), id, offset, length)
      ensures a == NotFound <==> !Has(Live(old(Items()), now), id)
      ensures forall i :: 0 <= i < |Live(old(Items()), now)| && Live(old(Items()), now)[i].id == id ==>
        IsPage(Live(old(Items()), now)[i].entry.content, offset, length, a)
    {
      hide Live, Consistent, Lookup, IsPage;
      ExpireExpiredLocked(now);
      KeysAreIds(entries, order, id);
      InOrder(entries, order, id);
      LookupInMap(entries, order, id, offset, length);
      if id !in entries {
        return NotFound;
      }
      SliceIsPage(entries[id].content, offset, length);
      return Slice(entries[id].content, offset, length);
    }
  }

  /** Whether some item has this id. */
  predicate Has(items: seq<Item>, id: Id) {
    exists k :: 0 <= k < |items| && items[k].id == id
  }

  lemma InOrder(m: map<Id, Entry>, order: seq<Id>, id: Id)
    requires Consistent(m, order)
    ensures (forall i :: 0 <= i < |order| ==> order[i] in m) && (id in m <==> id in order)
  {}

  lemma KeysAreIds(m: map<Id, Entry>, order: seq<Id>, id: Id)
    requires Consistent(m, order)
    ensures id in m <==> Has(ItemsOf(m, order), id)
  {
    if id in m {
      var k :| 0 <= k < |order| && order[k] == id;
      assert ItemsOf(m, order)[k].id == id;
    }
  }

  /** What the item with this id holds. */
  function ContentOf(items: seq<Item>, id: Id): Bytes
    requires Has(items, id)
  {
    if items[0].id == id then items[0].entry.content else ContentOf(items[1..], id)
  }

  /** Without the id listed last the map and the order agree, and the total is `lost` more
      than what they hold. */
  ghost predicate Clashes(m: map<Id, Entry>, order: seq<Id>, bytes: int, id: Id, lost: nat) {
    order != [] && order[|order| - 1] == id &&
    var listed := order[..|order| - 1];
    Consistent(m, listed) && bytes == Total(ItemsOf(m, listed)) + lost
  }

  lemma Collides(m: map<Id, Entry>, order: seq<Id>, id: Id, e: Entry)
    requires Consistent(m, order) && Has(ItemsOf(m, order), id) && id in m
    ensures |m[id := e]| == |order|
    ensures Clashes(m[id := e], order + [id], Total(ItemsOf(m, order)) + |e.content|, id, |ContentOf(ItemsOf(m, order), id)|)
  {
    hide Total, ContentOf, ItemsOf;
    CountKeys(m, order);
    assert m[id := e].Keys == m.Keys;
    assert |m[id := e]| == |m[id := e].Keys| && |m| == |m.Keys|;
    TotalReplaced(m, order, id, e);
    ContentInMap(m, order, id);
    assert (order + [id])[..|order|] == order;
  }

  lemma {:induction false} ContentInMap(m: map<Id, Entry>, order: seq<Id>, id: Id)
    requires (forall i :: 0 <= i < |order| ==> order[i] in m) && Has(ItemsOf(m, order), id)
    ensures id in m && ContentOf(ItemsOf(m, order), id) == m[id].content
    decreases |order|
  {
    if order[0] != id {
      assert ItemsOf(m, order)[1..] == ItemsOf(m, order[1..]);
      ContentInMap(m, order[1..], id);
    }
  }

  lemma {:induction false} TotalReplaced(m: map<Id, Entry>, order: seq<Id>, id: Id, e: Entry)
    requires forall i :: 0 <= i < |order| ==> order[i] in m
    requires forall i, j :: 0 <= i < j < |order| ==> order[i] != order[j]
    requires id in m
    ensures Total(ItemsOf(m[id := e], order)) + (if id in order then |m[id].content| else 0)
         == Total(ItemsOf(m, order)) + (if id in order then |e.content| else 0)
    decreases |order|
  {
    if order != [] {
      assert ItemsOf(m, order)[1..] == ItemsOf(m, order[1..]);
      assert ItemsOf(m[id := e], order)[1..] == ItemsOf(m[id := e], order[1..]);
      TotalReplaced(m, order[1..], id, e);
    }
  }

  /** Evicting the id listed first keeps the clash, until nothing is left. */
  lemma DropFirstListed(m: map<Id, Entry>, order: seq<Id>, bytes: int, id: Id, lost: nat)
    requires order != [] && Clashes(m, order, bytes, id, lost)
    ensures bytes >= 0
    ensures |order| > 1 ==> order[0] in m && Clashes(m - {order[0]}, order[1..], bytes - |m[order[0]].content|, id, lost)
    ensures |order| == 1 ==> order[0] !in m && m == map[] && bytes == lost
  {
    var listed := order[..|order| - 1];
    if |order| > 1 {
      DropOldest(m, listed);
      assert order[1..][..|order| - 2] == listed[1..];
      assert ItemsOf(m, listed)[0] == Item(order[0], m[order[0]]);
    } else {
      assert listed == [] && m == map[];
      assert ItemsOf(m, listed) == [];
    }
  }

  lemma ClashIsInvalid(m: map<Id, Entry>, order: seq<Id>, bytes: int, nextExpiry: Time, id: Id, lost: nat)
    ensures Clashes(m, order, bytes, id, lost) ==> order != [] && !Consistent(m, order)
    ensures m == map[] && order == [] ==>
      Consistent(m, order) && ItemsOf(m, order) == [] && Total([]) == 0 && Tracks([], nextExpiry)
  {
    if Clashes(m, order, bytes, id, lost) && id in m {
      var listed := order[..|order| - 1];
      var k :| 0 <= k < |listed| && listed[k] == id;
      assert order[k] == order[|order| - 1];
    }
  }

  lemma {:induction false} CountKeys(m: map<Id, Entry>, order: seq<Id>)
    requires Consistent(m, order)
    ensures |m| == |order|
    decreases |order|
  {
    if order != [] {
      DropOldest(m, order);
      CountKeys(m - {order[0]}, order[1..]);
      assert (m - {order[0]}).Keys == m.Keys - {order[0]};
      assert |m - {order[0]}| == |(m - {order[0]}).Keys| && |m| == |m.Keys|;
    } else {
      assert m == map[];
    }
  }

  lemma LaterTracked(items: seq<Item>, nextExpiry: Time)
    requires Tracks(items, nextExpiry) && items != []
    ensures Tracks(items[1..], nextExpiry)
  {}

  // ---------- Put, then Get ----------

  lemma {:induction false} LiveFrom(items: seq<Item>, now: Time)
    ensures forall k :: 0 <= k < |Live(items, now)| ==> Live(items, now)[k] in items && !Expired(Live(items, now)[k], now)
    decreases |items|
  {
    if items != [] {
      LiveFrom(items[1..], now);
    }
  }

  /** The newest item outlives every eviction that admits it at all. */
  lemma NewestStays(items: seq<Item>, x: Item, maxBytes: int, maxEntries: int)
    ensures var r := Fitting(items + [x], maxBytes, maxEntries);
      if |x.entry.content| <= maxBytes then r != [] && r[|r| - 1] == x && (forall k :: 0 <= k < |r| ==> r[k] in items + [x])
      else r == []
  {
    hide Fitting;
    var all := items + [x];
    var r := Fitting(all, maxBytes, maxEntries);
    FittingIsLongest(all, maxBytes, maxEntries);
    assert all[|items|..] == [x];
    TotalOne(x);
    if r != [] {
      assert r == all[|all| - |r|..|items|] + [x];
      TotalSnoc(all[|all| - |r|..|items|], x);
    }
  }

  lemma TotalOne(x: Item)
    ensures Total([x]) == |x.entry.content|
  {
    assert [x][1..] == [];
  }

  /** Whether the newest item can be read later. */
  lemma NewestRead(items: seq<Item>, x: Item, maxBytes: int, maxEntries: int, later: Time)
    requires !Has(items, x.id)
    ensures var live := Live(Fitting(items + [x], maxBytes, maxEntries), later);
      && (Has(live, x.id) <==> |x.entry.content| <= maxBytes && !Expired(x, later))
      && forall k :: 0 <= k < |live| && live[k].id == x.id ==> live[k] == x
  {
    hide Fitting, Live;
    var r := Fitting(items + [x], maxBytes, maxEntries);
    NewestStays(items, x, maxBytes, maxEntries);
    LiveFrom(r, later);
    if r != [] {
      LiveSnoc(r[..|r| - 1], x, later);
      assert r == r[..|r| - 1] + [x];
      if !Expired(x, later) {
        var live := Live(r, later);
        assert live[|live| - 1] == x;
      }
    } else {
      LiveAll([], later);
    }
  }

  /** A result that the byte cap admits can be read back, page by page, until its time to
      live is over, and not afterwards. */
  method PutThenGet(store: InMemoryStore, content: Bytes, id: Id, now: Time, now': Time, later: Time, offset: int, length: int)
    returns (a: Answer)
    requires store.Valid() && now' + store.ttl > 0 && !Has(Live(store.Items(), now), id)
    modifies store
    ensures if |content| <= store.maxBytes && later <= now' + store.ttl then IsPage(content, offset, length, a) else a == NotFound
  {
    hide Live, Fitting, IsPage;
    ghost var live, x := Live(store.Items(), now), Item(id, Entry(content, now' + store.ttl));
    store.Put(content, id, now, now');
    NewestRead(live, x, store.maxBytes, store.maxEntries, later);
    a := store.Get(id, offset, length, later);
  }

  lemma OneItem(x: Item, now: Time, maxBytes: int)
    requires now <= x.entry.expiresAt && |x.entry.content| <= maxBytes
    ensures Live([], now) + [x] == Live([x], now) == Fitting([x], maxBytes, 0) == [x]
    ensures Total([x]) == |x.entry.content| && Has([x], x.id) && ContentOf([x], x.id) == x.entry.content
  {
    assert [x][1..] == [] && [x][0] == x;
    assert Total([x]) == |x.entry.content|;
    assert Fits([x], maxBytes, 0);
  }

  /** The concrete case: the same id twice. One entry is stored, listed twice and counted
      with the bytes of both. */
  method SameIdTwice() returns (store: InMemoryStore)
    ensures fresh(store) && !store.Valid()
    ensures store.order == [7, 7] && |store.entries| == 1 && store.totalBytes == 2
  {
    store := new InMemoryStore(10, 0, 60);
    ghost var x := Item(7, Entry([1], 60));
    OneItem(x, 0, 10);
    OneItem(x, 1, 10);
    store.Put([1], 7, 0, 0);
    assert store.Items() == [x];
    store.Put([2], 7, 1, 1);
  }
}
