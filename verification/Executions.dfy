/**
 Executions (src/xcommons/oms.rs) and the order in which they are stored and replayed:
 by exchange timestamp, then by native execution id compared as text.
 */
module Executions {

  datatype Side = Buy | Sell | UnknownSide

  datatype ExecutionType =
    | XUnknown | XTrade | XOrderNew | XOrderCanceled | XOrderReplaced
    | XOrderPendingNew | XOrderPendingCancel | XOrderPendingReplace
    | XOrderRejected | XOrderTriggered | XFunding | XLiquidation

  datatype OrderStatus =
    | OStatusUnknown | OStatusNew | OStatusPartiallyFilled | OStatusReplaced
    | OStatusPendingNew | OStatusPendingCancel | OStatusPendingReplace
    | OStatusFilled | OStatusCanceled | OStatusRejected

  predicate IsAlive(s: OrderStatus) {
    s.OStatusNew? || s.OStatusPartiallyFilled? || s.OStatusReplaced?
  }

  /** The fields of an execution report that the account and the strategies look at. */
  datatype Execution = Execution(
    timestamp: int, rcvTimestamp: int, marketId: int, accountId: int,
    execType: ExecutionType, side: Side, clOrdId: int, ordStatus: OrderStatus,
    lastQty: real, lastPx: real, fee: real, nativeExecutionId: string)

  // ---------- text order ----------

  predicate TextLess(a: string, b: string) {
    b != [] && (a == [] || a[0] < b[0] || (a[0] == b[0] && TextLess(a[1..], b[1..])))
  }

  lemma {:induction false} TextOrder(a: string, b: string)
    ensures TextLess(a, b) ==> a != b && !TextLess(b, a)
    ensures a != b ==> TextLess(a, b) || TextLess(b, a)
  {
    if a != [] && b != [] && a[0] == b[0] {
      TextOrder(a[1..], b[1..]);
      assert a == [a[0]] + a[1..] && b == [b[0]] + b[1..];
    }
  }

  lemma {:induction false} TextTransitive(a: string, b: string, c: string)
    requires TextLess(a, b) && TextLess(b, c)
    ensures TextLess(a, c)
  {
    if a != [] && a[0] == b[0] && b[0] == c[0] { TextTransitive(a[1..], b[1..], c[1..]); }
  }

  /** Two texts are ordered at the first place where they differ, a text before what continues it. */
  lemma {:induction false} TextLessMeans(a: string, b: string)
    ensures TextLess(a, b) <==>
      exists k :: 0 <= k <= |a| && k < |b| && a[..k] == b[..k] && (k == |a| || a[k] < b[k])
  {
    if a != [] && b != [] && a[0] == b[0] {
      TextLessMeans(a[1..], b[1..]);
      if TextLess(a, b) {
        var k :| 0 <= k <= |a| - 1 && k < |b| - 1 && a[1..][..k] == b[1..][..k]
                 && (k == |a| - 1 || a[1..][k] < b[1..][k]);
        assert a[..k + 1] == [a[0]] + a[1..][..k] && b[..k + 1] == [b[0]] + b[1..][..k];
      }
      if exists k :: 0 <= k <= |a| && k < |b| && a[..k] == b[..k] && (k == |a| || a[k] < b[k]) {
        var k :| 0 <= k <= |a| && k < |b| && a[..k] == b[..k] && (k == |a| || a[k] < b[k]);
        assert a[1..][..k - 1] == a[..k][1..] && b[1..][..k - 1] == b[..k][1..];
      }
    } else if a != [] && b != [] {
      forall k | 0 < k <= |a| && k < |b| ensures a[..k] != b[..k] {
        assert a[..k][0] != b[..k][0];
      }
      if a[0] < b[0] { assert a[..0] == b[..0]; }
    } else if b != [] {
      assert a[..0] == b[..0];
    }
  }

  // ---------- key order ----------

  predicate SameKey(e: Execution, f: Execution) {
    e.timestamp == f.timestamp && e.nativeExecutionId == f.nativeExecutionId
  }

  /** The order of `stable_sort_executions`. */
  predicate KeyLess(e: Execution, f: Execution) {
    e.timestamp < f.timestamp || (e.timestamp == f.timestamp && TextLess(e.nativeExecutionId, f.nativeExecutionId))
  }

  /** The order of the store's own sort, which breaks ties by the local receive time. */
  predicate StoreLess(e: Execution, f: Execution) {
    KeyLess(e, f) || (SameKey(e, f) && e.rcvTimestamp < f.rcvTimestamp)
  }

  lemma KeyOrder(e: Execution, f: Execution)
    ensures KeyLess(e, f) ==> !SameKey(e, f) && !KeyLess(f, e) && !SameKey(f, e)
    ensures SameKey(e, f) || KeyLess(e, f) || KeyLess(f, e)
  {
    TextOrder(e.nativeExecutionId, f.nativeExecutionId);
  }

  lemma KeyTransitive(e: Execution, f: Execution, g: Execution)
    requires KeyLess(e, f) && KeyLess(f, g)
    ensures KeyLess(e, g)
  {
    if e.timestamp == f.timestamp == g.timestamp {
      TextTransitive(e.nativeExecutionId, f.nativeExecutionId, g.nativeExecutionId);
    }
  }

  predicate KeySorted(s: seq<Execution>) {
    forall i, j :: 0 <= i < j < |s| ==> KeyLess(s[i], s[j])
  }

  predicate DistinctKeys(s: seq<Execution>) {
    forall i, j :: 0 <= i < j < |s| ==> !SameKey(s[i], s[j])
  }

  predicate HasKey(s: seq<Execution>, e: Execution) {
    exists i :: 0 <= i < |s| && SameKey(s[i], e)
  }

  // ---------- stable sorting ----------

  /** Which of the two comparators a sort uses. */
  datatype SortOrder = ByKey | ByKeyThenReceipt

  predicate Before(o: SortOrder, e: Execution, f: Execution) {
    if o.ByKey? then KeyLess(e, f) else StoreLess(e, f)
  }

  /** Puts x behind every element that is not after it. */
  function StableInsert(o: SortOrder, s: seq<Execution>, x: Execution): (r: seq<Execution>)
    ensures |r| == |s| + 1 && multiset(r) == multiset(s) + multiset{x}
  {
    if s == [] || !Before(o, x, s[|s| - 1]) then s + [x]
    else
      assert s == s[..|s| - 1] + [s[|s| - 1]];
      StableInsert(o, s[..|s| - 1], x) + [s[|s| - 1]]
  }

  /** A stable sort: the library routine behind `sort_by`. */
  function StableSort(o: SortOrder, s: seq<Execution>): (r: seq<Execution>)
    ensures multiset(r) == multiset(s) && |r| == |s|
  {
    if s == [] then []
    else
      assert s == s[..|s| - 1] + [s[|s| - 1]];
      StableInsert(o, StableSort(o, s[..|s| - 1]), s[|s| - 1])
  }

  lemma InsertedMember(o: SortOrder, s: seq<Execution>, x: Execution, i: nat)
    requires i <= |s|
    ensures StableInsert(o, s, x)[i] == x || StableInsert(o, s, x)[i] in s
  {
    hide StableInsert;
    var r := StableInsert(o, s, x);
    assert r[i] in multiset(r);
  }

  lemma SortedSnoc(s: seq<Execution>, x: Execution)
    requires KeySorted(s) && forall i :: 0 <= i < |s| ==> KeyLess(s[i], x)
    ensures KeySorted(s + [x])
  {
  }

  lemma {:induction false} InsertKeepsSorted(o: SortOrder, s: seq<Execution>, x: Execution)
    requires KeySorted(s) && !HasKey(s, x)
    ensures KeySorted(StableInsert(o, s, x))
  {
    if s != [] {
      var n := |s| - 1;
      KeyOrder(s[n], x);
      if Before(o, x, s[n]) {
        var t := s[..n];
        InsertKeepsSorted(o, t, x);
        var u := StableInsert(o, t, x);
        hide StableInsert, TextLess;
        forall i | 0 <= i < |u| ensures KeyLess(u[i], s[n]) { InsertedMember(o, t, x, i); }
        SortedSnoc(u, s[n]);
      } else {
        forall i | 0 <= i < |s| ensures KeyLess(s[i], x) {
          if i < n { KeyTransitive(s[i], s[n], x); }
        }
        SortedSnoc(s, x);
      }
    }
  }

  /** With distinct keys, either comparator sorts strictly by key. */
  lemma {:induction false} SortIsSorted(o: SortOrder, s: seq<Execution>)
    requires DistinctKeys(s)
    ensures KeySorted(StableSort(o, s))
  {
    if s != [] {
      var t := s[..|s| - 1];
      SortIsSorted(o, t);
      var r := StableSort(o, t);
      forall i | 0 <= i < |r| ensures !SameKey(r[i], s[|s| - 1]) {
        assert r[i] in multiset(r);
        var k :| 0 <= k < |t| && t[k] == r[i];
      }
      InsertKeepsSorted(o, r, s[|s| - 1]);
    }
  }

  /** A strictly sorted sequence is determined by its elements. */
  lemma {:induction false} SortedIsUnique(s: seq<Execution>, t: seq<Execution>)
    requires KeySorted(s) && KeySorted(t)
    requires forall e :: e in s <==> e in t
    ensures s == t
  {
    assert t == [] || t[0] in s;
    if s != [] {
      assert s[0] in t && t != [];
      var n, m := |s| - 1, |t| - 1;
      LastIsSame(s, t);
      forall e ensures e in s[..n] <==> e in t[..m] {
        NotLast(s, e); NotLast(t, e);
      }
      SortedIsUnique(s[..n], t[..m]);
      assert s == s[..n] + [s[n]] && t == t[..m] + [t[m]];
    }
  }

  lemma LastIsSame(s: seq<Execution>, t: seq<Execution>)
    requires KeySorted(s) && KeySorted(t) && s != [] && t != []
    requires forall e :: e in s <==> e in t
    ensures s[|s| - 1] == t[|t| - 1]
  {
    var x, y := s[|s| - 1], t[|t| - 1];
    assert x in t && y in s;
    var i :| 0 <= i < |t| && t[i] == x;
    var j :| 0 <= j < |s| && s[j] == y;
    KeyOrder(x, y);
  }

  lemma NotLast(s: seq<Execution>, e: Execution)
    requires KeySorted(s) && s != []
    ensures e in s[..|s| - 1] <==> e in s && e != s[|s| - 1]
  {
    var n := |s| - 1;
    if e in s[..n] {
      var i :| 0 <= i < n && s[i] == e;
      KeyOrder(e, s[n]);
    }
  }

  /** Sorting a sorted sequence changes nothing. */
  lemma SortOfSorted(o: SortOrder, s: seq<Execution>)
    requires KeySorted(s)
    ensures StableSort(o, s) == s
  {
    SortedHasDistinctKeys(s);
    SortIsSorted(o, s);
    SameElements(StableSort(o, s), s);
    SortedIsUnique(StableSort(o, s), s);
  }

  lemma SortedHasDistinctKeys(s: seq<Execution>)
    requires KeySorted(s)
    ensures DistinctKeys(s)
  {
    forall i, j | 0 <= i < j < |s| ensures !SameKey(s[i], s[j]) { KeyOrder(s[i], s[j]); }
  }

  lemma SameElements(s: seq<Execution>, t: seq<Execution>)
    requires multiset(s) == multiset(t)
    ensures forall e :: e in s <==> e in t
  {
    forall e ensures e in s <==> e in t {
      assert e in s <==> e in multiset(s);
      assert e in t <==> e in multiset(t);
    }
  }
}
