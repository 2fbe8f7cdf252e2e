/**
 The LRU + TTL deduper of src/md/deduper.rs: a set of live keys, their queue in insertion order, and
 counters. A ghost history of every accepted key says what the queue means: it is a window onto the
 end of that history.
 */
module Dedupers {

  datatype Entry<K> = Entry(key: K, at: int)

  /** `now.duration_since(then)`, which is zero when the clock has not advanced. */
  function Age(now: int, since: int): int { if now >= since then now - since else 0 }

  function Keys<K(==)>(q: seq<Entry<K>>): set<K> {
    set e | e in q :: e.key
  }

  ghost predicate NoKeyTwice<K>(q: seq<Entry<K>>) {
    forall i, j :: 0 <= i < j < |q| ==> q[i].key != q[j].key
  }

  ghost predicate Ordered<K>(q: seq<Entry<K>>, now: int) {
    && (forall i, j :: 0 <= i <= j < |q| ==> q[i].at <= q[j].at)
    && (forall i :: 0 <= i < |q| ==> q[i].at <= now)
  }

  /** The last `n` accepted keys fit the capacity, and none of them has expired. */
  ghost predicate Fits<K>(h: seq<Entry<K>>, n: nat, capacity: nat, ttl: nat, now: int) {
    && n <= |h| && n <= capacity
    && forall i :: |h| - n <= i < |h| ==> Age(now, h[i].at) <= ttl
  }

  /** The length of the longest suffix that fits. */
  ghost function WindowLength<K>(h: seq<Entry<K>>, capacity: nat, ttl: nat, now: int): (n: nat)
    ensures n <= |h| && n <= capacity
  {
    if h == [] || capacity == 0 || Age(now, h[|h| - 1].at) > ttl then 0
    else WindowLength(h[..|h| - 1], capacity - 1, ttl, now) + 1
  }

  lemma {:induction false} WindowFits<K>(h: seq<Entry<K>>, capacity: nat, ttl: nat, now: int)
    ensures Fits(h, WindowLength(h, capacity, ttl, now), capacity, ttl, now)
  {
    if WindowLength(h, capacity, ttl, now) > 0 {
      WindowFits(h[..|h| - 1], capacity - 1, ttl, now);
    }
  }

  lemma {:induction false} WindowIsLongest<K>(h: seq<Entry<K>>, m: nat, capacity: nat, ttl: nat, now: int)
    ensures Fits(h, m, capacity, ttl, now) ==> m <= WindowLength(h, capacity, ttl, now)
  {
    if m > 0 && Fits(h, m, capacity, ttl, now) {
      assert Age(now, h[|h| - 1].at) <= ttl;
      WindowIsLongest(h[..|h| - 1], m - 1, capacity - 1, ttl, now);
    }
  }

  /** The window: the longest suffix of the accepted keys within capacity and age. */
  ghost function Window<K>(h: seq<Entry<K>>, capacity: nat, ttl: nat, now: int): seq<Entry<K>> {
    h[|h| - WindowLength(h, capacity, ttl, now)..]
  }

  /** A suffix that fits and cannot be extended by one is the longest: ages only grow towards the past. */
  lemma BoundaryIsWindow<K>(h: seq<Entry<K>>, n: nat, capacity: nat, ttl: nat, now: int)
    requires Fits(h, n, capacity, ttl, now)
    requires n == |h| || n == capacity || Age(now, h[|h| - n - 1].at) > ttl
    ensures WindowLength(h, capacity, ttl, now) == n
  {
    var w := WindowLength(h, capacity, ttl, now);
    WindowIsLongest(h, n, capacity, ttl, now);
    WindowFits(h, capacity, ttl, now);
    assert w > n ==> n < |h| && n < capacity;
  }

  /** Conversely, one more key would not have fitted. */
  lemma WindowHasBoundary<K>(h: seq<Entry<K>>, capacity: nat, ttl: nat, now: int)
    ensures var n := WindowLength(h, capacity, ttl, now);
            n == |h| || n == capacity || Age(now, h[|h| - n - 1].at) > ttl
  {
    WindowFits(h, capacity, ttl, now);
    WindowIsLongest(h, WindowLength(h, capacity, ttl, now) + 1, capacity, ttl, now);
  }

  /** Dropping the oldest live key removes exactly that key from the set of keys. */
  lemma DropFront<K>(q: seq<Entry<K>>)
    requires q != [] && NoKeyTwice(q)
    ensures Keys(q[1..]) == Keys(q) - {q[0].key} && NoKeyTwice(q[1..])
    ensures |Keys(q)| == |Keys(q[1..])| + 1
  {
    forall k | k in Keys(q) && k != q[0].key ensures k in Keys(q[1..]) {
      var i :| 0 <= i < |q| && q[i].key == k;
      assert q[i] == q[1..][i - 1];
    }
    assert Keys(q) == Keys(q[1..]) + {q[0].key};
  }

  lemma PushBack<K>(q: seq<Entry<K>>, e: Entry<K>)
    ensures Keys(q + [e]) == Keys(q) + {e.key}
    ensures NoKeyTwice(q) && e.key !in Keys(q) ==> NoKeyTwice(q + [e])
  {
    assert forall k :: k in Keys(q) ==> k in Keys(q + [e]) by {
      forall k | k in Keys(q) ensures k in Keys(q + [e]) {
        var x :| x in q && x.key == k;
        assert x in q + [e];
      }
    }
    assert e in q + [e];
    assert forall i :: 0 <= i < |q| ==> q[i].key in Keys(q);
  }

  lemma {:induction false} KeysCount<K>(q: seq<Entry<K>>)
    requires NoKeyTwice(q)
    ensures |Keys(q)| == |q|
  {
    if q != [] {
      DropFront(q);
      KeysCount(q[1..]);
    }
  }

  /** The key is in the window, so the deduper still remembers it. */
  ghost predicate Live<K>(h: seq<Entry<K>>, key: K, capacity: nat, ttl: nat, now: int) {
    key in Keys(Window(h, capacity, ttl, now))
  }

  /** Set and queue hold the same keys, once each, and the queue is an end of the history. */
  ghost predicate Backed<K>(keys: set<K>, order: seq<Entry<K>>, h: seq<Entry<K>>) {
    && keys == Keys(order) && |keys| == |order| && NoKeyTwice(order)
    && |order| <= |h| && order == h[|h| - |order|..]
  }

  /** The queue stops where the history would no longer fit. */
  ghost predicate Maximal<K>(n: nat, h: seq<Entry<K>>, capacity: nat, ttl: nat, now: int) {
    n < |h| ==> n == capacity || Age(now, h[|h| - n - 1].at) > ttl
  }

  lemma BackedPop<K>(keys: set<K>, order: seq<Entry<K>>, h: seq<Entry<K>>)
    requires Backed(keys, order, h) && order != []
    ensures order[0].key in keys && Backed(keys - {order[0].key}, order[1..], h)
    ensures h[|h| - |order|] == order[0]
  {
    DropFront(order);
    assert order[0] in order;
    KeysCount(order[1..]);
  }

  lemma BackedCount<K>(keys: set<K>, order: seq<Entry<K>>, h: seq<Entry<K>>)
    requires Backed(keys, order, h)
    ensures |keys| == |order|
  {
  }

  lemma BackedPush<K>(keys: set<K>, order: seq<Entry<K>>, h: seq<Entry<K>>, e: Entry<K>)
    requires Backed(keys, order, h) && e.key !in keys
    ensures Backed(keys + {e.key}, order + [e], h + [e])
  {
    PushBack(order, e);
    hide Keys, NoKeyTwice;
    KeysCount(order + [e]);
    SuffixPush(h, |order|, e);
  }

  lemma SuffixPush<K>(h: seq<Entry<K>>, n: nat, e: Entry<K>)
    requires n <= |h|
    ensures (h + [e])[|h| - n..] == h[|h| - n..] + [e]
  {
  }

  lemma NothingYet<K>(capacity: nat, ttl: nat, now: int)
    ensures Backed<K>({}, [], []) && Ordered<K>([], now) && Window<K>([], capacity, ttl, now) == []
  {
    assert Keys<K>([]) == {};
  }

  /** What pruning stops at is the window. */
  lemma PrunedIsWindow<K>(keys: set<K>, order: seq<Entry<K>>, h: seq<Entry<K>>, capacity: nat, ttl: nat, now: int)
    requires Backed(keys, order, h) && |order| <= capacity && Ordered(h, now)
    requires order == [] || Age(now, order[0].at) <= ttl
    requires Maximal(|order|, h, capacity, ttl, now)
    ensures order == Window(h, capacity, ttl, now)
  {
    hide Keys, NoKeyTwice;
    assert order != [] ==> order[0] == h[|h| - |order|];
    BoundaryIsWindow(h, |order|, capacity, ttl, now);
  }

  /** What pruning starts from, seen from a later moment. */
  lemma WindowIsMaximal<K>(h: seq<Entry<K>>, capacity: nat, ttl: nat, before: int, now: int)
    requires before <= now && Ordered(h, before)
    ensures |Window(h, capacity, ttl, before)| <= capacity && Ordered(h, now)
    ensures Maximal(|Window(h, capacity, ttl, before)|, h, capacity, ttl, now)
  {
    WindowHasBoundary(h, capacity, ttl, before);
  }

  /** The window with one more key: it grew by one, or was full and gave up its oldest. */
  lemma PushedIsWindow<K>(keys: set<K>, order: seq<Entry<K>>, h: seq<Entry<K>>, e: Entry<K>, capacity: nat, ttl: nat)
    requires Ordered(h, e.at) && Backed(keys, order, h + [e])
    requires var n := |Window(h, capacity, ttl, e.at)|; |order| == if n < capacity then n + 1 else capacity
    ensures order == Window(h + [e], capacity, ttl, e.at) && Ordered(h + [e], e.at)
  {
    hide Backed, Ordered, Window, WindowLength;
    var n := WindowLength(h, capacity, ttl, e.at);
    WindowSize(h, capacity, ttl, e.at);
    PushedLength(h, e, n, |order|, capacity, ttl);
    BackedSuffix(keys, order, h + [e]);
    WindowIs(h + [e], order, capacity, ttl, e.at);
    OrderedPush(h, e);
  }

  lemma BackedSuffix<K>(keys: set<K>, order: seq<Entry<K>>, h: seq<Entry<K>>)
    requires Backed(keys, order, h)
    ensures |order| <= |h| && order == h[|h| - |order|..]
  {
  }

  lemma OrderedPush<K>(h: seq<Entry<K>>, e: Entry<K>)
    requires Ordered(h, e.at)
    ensures Ordered(h + [e], e.at)
  {
  }

  lemma WindowSize<K>(h: seq<Entry<K>>, capacity: nat, ttl: nat, now: int)
    ensures |Window(h, capacity, ttl, now)| == WindowLength(h, capacity, ttl, now)
  {
  }

  lemma WindowIs<K>(h: seq<Entry<K>>, order: seq<Entry<K>>, capacity: nat, ttl: nat, now: int)
    requires |order| == WindowLength(h, capacity, ttl, now) && |order| <= |h| && order == h[|h| - |order|..]
    ensures order == Window(h, capacity, ttl, now)
  {
  }

  lemma PushedLength<K>(h: seq<Entry<K>>, e: Entry<K>, n: nat, m: nat, capacity: nat, ttl: nat)
    requires n == WindowLength(h, capacity, ttl, e.at) && m == if n < capacity then n + 1 else capacity
    ensures WindowLength(h + [e], capacity, ttl, e.at) == m
  {
    WindowHasBoundary(h, capacity, ttl, e.at);
    WindowFits(h, capacity, ttl, e.at);
    BoundaryIsWindow(h + [e], m, capacity, ttl, e.at);
  }

  lemma KeysAreLive<K>(keys: set<K>, order: seq<Entry<K>>, h: seq<Entry<K>>, key: K,
                       capacity: nat, ttl: nat, now: int)
    requires Backed(keys, order, h) && order == Window(h, capacity, ttl, now)
    ensures key in keys <==> Live(h, key, capacity, ttl, now)
  {
  }

  /** With ordered times, being live is being recent enough, in keys and in time. */
  lemma LiveIsRecent<K>(h: seq<Entry<K>>, j: nat, capacity: nat, ttl: nat, now: int)
    requires j < |h| && Ordered(h, now) && NoKeyTwice(h)
    ensures Live(h, h[j].key, capacity, ttl, now) <==> |h| - j <= capacity && now - h[j].at <= ttl
  {
    var n := WindowLength(h, capacity, ttl, now);
    WindowFits(h, capacity, ttl, now);
    if |h| - j <= capacity && now - h[j].at <= ttl {
      WindowIsLongest(h, |h| - j, capacity, ttl, now);
      assert h[j] == Window(h, capacity, ttl, now)[j - (|h| - n)];
    }
    if Live(h, h[j].key, capacity, ttl, now) {
      LiveIsPresent(h, h[j].key, capacity, ttl, now);
    }
  }

  lemma LiveIsPresent<K>(h: seq<Entry<K>>, key: K, capacity: nat, ttl: nat, now: int)
    requires Live(h, key, capacity, ttl, now)
    ensures exists i :: |h| - WindowLength(h, capacity, ttl, now) <= i < |h| && h[i].key == key
  {
    var w := Window(h, capacity, ttl, now);
    var e :| e in w && e.key == key;
    var k :| 0 <= k < |w| && w[k] == e;
    assert h[|h| - WindowLength(h, capacity, ttl, now) + k].key == key;
  }

  class Deduper<K(==)> {
    const capacity: nat
    const ttl: nat
    var keys: set<K>
    var order: seq<Entry<K>>
    var inserts: nat
    var hits: nat
    var evictions: nat
    var expired: nat
    /** Every key ever accepted, with its time; and the latest time the deduper has seen. */
    ghost var history: seq<Entry<K>>
    ghost var clock: int

    /** The queue is the window, the set its keys, and every accepted key is accounted for. */
    ghost predicate Valid()
      reads this
    {
      && Backed(keys, order, history) && Ordered(history, clock)
      && order == Window(history, capacity, ttl, clock)
      && inserts == |order| + evictions + expired && inserts == |history|
    }

    constructor (capacity: nat, ttl: nat)
      ensures Valid() && this.capacity == capacity && this.ttl == ttl
      ensures history == [] && hits == 0 && clock == 0
    {
      hide Backed, Window, Ordered;
      this.capacity, this.ttl := capacity, ttl;
      keys, order := {}, [];
      inserts, hits, evictions, expired := 0, 0, 0, 0;
      history, clock := [], 0;
      new;
      NothingYet<K>(capacity, ttl, 0);
    }

    method Prune(now: int)
      requires Valid() && now >= clock
      modifies this`keys, this`order, this`expired, this`clock
      ensures Valid() && clock == now
      ensures |order| <= old(|order|) && expired == old(expired + |order|) - |order|
    {
      hide Backed, Window, Ordered;
      WindowIsMaximal(history, capacity, ttl, clock, now);
      while order != [] && Age(now, order[0].at) > ttl
        invariant Backed(keys, order, history) && Maximal(|order|, history, capacity, ttl, now)
        invariant |order| <= capacity && |order| <= old(|order|)
        invariant expired + |order| == old(expired + |order|)
      {
        var front := order[0];
        BackedPop(keys, order, history);
        order := order[1..];
        if front.key in keys {
          keys := keys - {front.key};
          expired := expired + 1;
        }
      }
      clock := now;
      PrunedIsWindow(keys, order, history, capacity, ttl, now);
    }

    method EnforceCapacity()
      requires Backed(keys, order, history)
      modifies this`keys, this`order, this`evictions
      ensures Backed(keys, order, history)
      ensures |order| == if old(|order|) <= capacity then old(|order|) else capacity
      ensures evictions + |order| == old(evictions + |order|)
    {
      hide Backed, Keys, NoKeyTwice;
      BackedCount(keys, order, history);
      while |keys| > capacity
        invariant Backed(keys, order, history) && |keys| == |order| <= old(|order|)
        invariant |order| == old(|order|) || |order| >= capacity
        invariant evictions + |order| == old(evictions + |order|)
      {
        BackedPop(keys, order, history);
        var oldest := order[0];
        order := order[1..];
        if oldest.key in keys {
          keys := keys - {oldest.key};
          evictions := evictions + 1;
        }
        BackedCount(keys, order, history);
      }
    }

    /** A key outside the window joins the queue, the set and the history. */
    method Push(key: K, now: int)
      requires Valid() && clock == now && key !in keys
      modifies this`keys, this`order, this`inserts, this`evictions, this`history
      ensures Valid() && history == old(history) + [Entry(key, now)]
    {
      hide Backed, Window, Ordered;
      ghost var e := Entry(key, now);
      BackedPush(keys, order, history, e);
      WindowIsMaximal(history, capacity, ttl, now, now);
      keys := keys + {key};
      order := order + [Entry(key, now)];
      inserts := inserts + 1;
      history := history + [e];
      EnforceCapacity();
      PushedIsWindow(keys, order, old(history), e, capacity, ttl);
    }

    /** The key is new exactly when the window does not hold it, and then it joins the history. */
    method Insert(key: K, now: int) returns (isNew: bool)
      requires Valid() && now >= clock
      modifies this
      ensures Valid() && clock == now
      ensures isNew <==> !Live(old(history), key, capacity, ttl, now)
      ensures history == if isNew then old(history) + [Entry(key, now)] else old(history)
      ensures hits == old(hits) + (if isNew then 0 else 1)
    {
      hide Backed, Window, Ordered, Live;
      Prune(now);
      KeysAreLive(keys, order, history, key, capacity, ttl, now);
      if key !in keys {
        Push(key, now);
        isNew := true;
      } else {
        hits := hits + 1;
        isNew := false;
      }
    }
  }
}
