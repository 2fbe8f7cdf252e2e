/**
 The in-memory executions datastore of src/trading/account_state/mod.rs: one bucket per account and
 market, kept sorted, with a set of the keys already stored that makes `upsert` idempotent.
 */
module ExecutionStores {
  import opened Common
  import opened Executions

  type Key = (int, int, string, int)

  function KeyOf(e: Execution): Key {
    (e.accountId, e.marketId, e.nativeExecutionId, e.timestamp)
  }

  // ---------- what the operations do to one bucket ----------

  /** A new key joins its bucket; a known key changes nothing, whatever the payload. */
  function Upserted(bucket: seq<Execution>, e: Execution): seq<Execution> {
    if HasKey(bucket, e) then bucket else StableSort(ByKeyThenReceipt, bucket + [e])
  }

  function UpsertedAll(bucket: seq<Execution>, es: seq<Execution>): seq<Execution> {
    if es == [] then bucket else Upserted(UpsertedAll(bucket, es[..|es| - 1]), es[|es| - 1])
  }

  /** The executions strictly after a timestamp, in bucket order. */
  function After(bucket: seq<Execution>, gtTs: int): seq<Execution> {
    if bucket == [] then []
    else After(bucket[..|bucket| - 1], gtTs)
         + if bucket[|bucket| - 1].timestamp > gtTs then [bucket[|bucket| - 1]] else []
  }

  function LastTimestamp(bucket: seq<Execution>): Option<int> {
    if bucket == [] then None else Some(bucket[|bucket| - 1].timestamp)
  }

  // ---------- the store ----------

  /** Each bucket holds its own executions, strictly sorted, and `seen` is exactly the stored keys. */
  ghost predicate ValidStore(data: map<(int, int), seq<Execution>>, seen: set<Key>) {
    && (forall k :: k in data ==> KeySorted(data[k]))
    && (forall k, e :: k in data && e in data[k] ==> (e.accountId, e.marketId) == k && KeyOf(e) in seen)
    && (forall k :: k in seen ==> exists e :: Stores(data, e) && KeyOf(e) == k)
  }

  predicate Stores(data: map<(int, int), seq<Execution>>, e: Execution) {
    (e.accountId, e.marketId) in data && e in data[(e.accountId, e.marketId)]
  }

  function BucketIn(data: map<(int, int), seq<Execution>>, accountId: int, marketId: int): seq<Execution> {
    if (accountId, marketId) in data then data[(accountId, marketId)] else []
  }

  lemma SeenIsHasKey(data: map<(int, int), seq<Execution>>, seen: set<Key>, e: Execution)
    requires ValidStore(data, seen)
    ensures KeyOf(e) in seen <==> HasKey(BucketIn(data, e.accountId, e.marketId), e)
  {
    var bucket := BucketIn(data, e.accountId, e.marketId);
    if KeyOf(e) in seen {
      var f :| Stores(data, f) && KeyOf(f) == KeyOf(e);
      var i :| 0 <= i < |bucket| && bucket[i] == f;
      assert SameKey(bucket[i], e);
    }
    if HasKey(bucket, e) {
      var i :| 0 <= i < |bucket| && SameKey(bucket[i], e);
      assert bucket[i] in bucket;
    }
  }

  lemma PutKeepsSeen(data: map<(int, int), seq<Execution>>, seen: set<Key>, e: Execution, r: seq<Execution>, k: Key)
    requires ValidStore(data, seen) && k in seen + {KeyOf(e)}
    requires forall x :: x in r <==> x in BucketIn(data, e.accountId, e.marketId) || x == e
    ensures exists f :: Stores(data[(e.accountId, e.marketId) := r], f) && KeyOf(f) == k
  {
    var data' := data[(e.accountId, e.marketId) := r];
    if k == KeyOf(e) {
      assert Stores(data', e);
    } else {
      var f :| Stores(data, f) && KeyOf(f) == k;
      assert Stores(data', f);
    }
  }

  lemma PutKeepsValid(data: map<(int, int), seq<Execution>>, seen: set<Key>, e: Execution, r: seq<Execution>)
    requires ValidStore(data, seen) && KeySorted(r)
    requires forall x :: x in r <==> x in BucketIn(data, e.accountId, e.marketId) || x == e
    ensures ValidStore(data[(e.accountId, e.marketId) := r], seen + {KeyOf(e)})
  {
    hide KeySorted, Stores;
    var slot := (e.accountId, e.marketId);
    var data' := data[slot := r];
    forall k: (int, int), f: Execution | k in data' && f in data'[k]
      ensures (f.accountId, f.marketId) == k && KeyOf(f) in seen + {KeyOf(e)}
    {
      if k == slot && f != e { assert f in data[slot]; }
    }
    forall k | k in seen + {KeyOf(e)} ensures exists f :: Stores(data', f) && KeyOf(f) == k {
      PutKeepsSeen(data, seen, e, r, k);
    }
  }

  lemma UpsertedIsSorted(bucket: seq<Execution>, e: Execution)
    requires KeySorted(bucket)
    ensures KeySorted(Upserted(bucket, e))
    ensures forall x :: x in Upserted(bucket, e) <==> x in bucket || (x == e && !HasKey(bucket, e))
    ensures HasKey(Upserted(bucket, e), e)
  {
    if !HasKey(bucket, e) {
      SortedHasDistinctKeys(bucket);
      SortIsSorted(ByKeyThenReceipt, bucket + [e]);
      var r := Upserted(bucket, e);
      SameElements(r, bucket + [e]);
      assert e in r;
      var i :| 0 <= i < |r| && r[i] == e;
      assert SameKey(r[i], e);
    }
  }

  lemma UpsertKeepsValid(data: map<(int, int), seq<Execution>>, seen: set<Key>, e: Execution)
    requires ValidStore(data, seen) && !HasKey(BucketIn(data, e.accountId, e.marketId), e)
    ensures var next := Upserted(BucketIn(data, e.accountId, e.marketId), e);
      ValidStore(data[(e.accountId, e.marketId) := next], seen + {KeyOf(e)})
  {
    hide Upserted, HasKey;
    var was := BucketIn(data, e.accountId, e.marketId);
    UpsertedIsSorted(was, e);
    PutKeepsValid(data, seen, e, Upserted(was, e));
  }

  class ExecutionStore {
    var data: map<(int, int), seq<Execution>>
    var seen: set<Key>

    ghost predicate Valid()
      reads this
    {
      ValidStore(data, seen)
    }

    function Bucket(accountId: int, marketId: int): seq<Execution>
      reads this
    {
      BucketIn(data, accountId, marketId)
    }

    constructor ()
      ensures Valid() && forall a, m :: Bucket(a, m) == []
    {
      data, seen := map[], {};
    }

    method Upsert(e: Execution)
      requires Valid()
      modifies this
      ensures Valid()
      ensures Bucket(e.accountId, e.marketId) == Upserted(old(Bucket(e.accountId, e.marketId)), e)
      ensures forall a, m :: (a, m) != (e.accountId, e.marketId) ==> Bucket(a, m) == old(Bucket(a, m))
    {
      hide StableSort, ValidStore, KeySorted, HasKey;
      ghost var was := Bucket(e.accountId, e.marketId);
      ghost var next := Upserted(was, e);
      SeenIsHasKey(data, seen, e);
      if KeyOf(e) in seen {
        return;
      }
      var bucket := StableSort(ByKeyThenReceipt, Bucket(e.accountId, e.marketId) + [e]);
      assert bucket == next;
      UpsertKeepsValid(data, seen, e);
      seen := seen + {KeyOf(e)};
      data := data[(e.accountId, e.marketId) := bucket];
    }

    method LoadRange(accountId: int, marketId: int, gtTs: int) returns (out: seq<Execution>)
      ensures out == After(Bucket(accountId, marketId), gtTs)
    {
      out := [];
      var bucket := Bucket(accountId, marketId);
      for i := 0 to |bucket|
        invariant out == After(bucket[..i], gtTs)
      {
        assert bucket[..i + 1][..i] == bucket[..i];
        if bucket[i].timestamp > gtTs {
          out := out + [bucket[i]];
        }
      }
      assert bucket[..|bucket|] == bucket;
    }

    /** The latest timestamp stored, since the bucket is sorted. */
    method LastPoint(accountId: int, marketId: int) returns (r: Option<int>)
      requires Valid()
      ensures r == LastTimestamp(Bucket(accountId, marketId))
      ensures forall e :: e in Bucket(accountId, marketId) ==> r.Some? && e.timestamp <= r.value
      ensures r.Some? ==> exists e :: e in Bucket(accountId, marketId) && e.timestamp == r.value
    {
      var bucket := Bucket(accountId, marketId);
      r := if bucket == [] then None else Some(bucket[|bucket| - 1].timestamp);
      assert bucket != [] ==> bucket[|bucket| - 1] in bucket;
    }
  }

  // ---------- the bucket is canonical ----------

  /** The first copy of every key in a history of upserts: all the store ever keeps. */
  predicate IsFirstCopy(es: seq<Execution>, x: Execution) {
    exists i :: 0 <= i < |es| && es[i] == x && !HasKey(es[..i], x)
  }

  /** From an empty bucket, any history of upserts leaves exactly the first copies, strictly sorted. */
  lemma {:induction false} BucketIsFirstCopies(es: seq<Execution>)
    ensures KeySorted(UpsertedAll([], es))
    ensures forall x :: x in UpsertedAll([], es) <==> IsFirstCopy(es, x)
    ensures forall x :: HasKey(UpsertedAll([], es), x) <==> HasKey(es, x)
  {
    if es != [] {
      var n := |es| - 1;
      var prev, e := es[..n], es[n];
      var b := UpsertedAll([], prev);
      BucketIsFirstCopies(prev);
      UpsertedIsSorted(b, e);
      forall x ensures x in Upserted(b, e) <==> IsFirstCopy(es, x) { FirstCopyOfLonger(es, x); }
      forall x ensures HasKey(Upserted(b, e), x) <==> HasKey(es, x) {
        KeysOfUpserted(b, e, x);
        HasKeyOfLonger(es, x);
      }
    }
  }

  lemma FirstCopyOfLonger(es: seq<Execution>, x: Execution)
    requires es != []
    ensures IsFirstCopy(es, x) <==>
            IsFirstCopy(es[..|es| - 1], x) || (x == es[|es| - 1] && !HasKey(es[..|es| - 1], x))
  {
    var n := |es| - 1;
    var prev := es[..n];
    if IsFirstCopy(prev, x) {
      var i :| 0 <= i < n && prev[i] == x && !HasKey(prev[..i], x);
      assert es[..i] == prev[..i];
      assert es[i] == x && !HasKey(es[..i], x);
    }
    if IsFirstCopy(es, x) {
      var i :| 0 <= i < |es| && es[i] == x && !HasKey(es[..i], x);
      if i < n { assert es[..i] == prev[..i] && prev[i] == x; }
    }
    if x == es[n] && !HasKey(prev, x) { assert es[n] == x && !HasKey(es[..n], x); }
  }

  lemma HasKeyOfLonger(es: seq<Execution>, x: Execution)
    requires es != []
    ensures HasKey(es, x) <==> HasKey(es[..|es| - 1], x) || SameKey(es[|es| - 1], x)
  {
    var n := |es| - 1;
    if HasKey(es, x) {
      var i :| 0 <= i < |es| && SameKey(es[i], x);
      if i < n { assert SameKey(es[..n][i], x); }
    }
    if HasKey(es[..n], x) {
      var i :| 0 <= i < n && SameKey(es[..n][i], x);
      assert SameKey(es[i], x);
    }
  }

  lemma KeysOfUpserted(b: seq<Execution>, e: Execution, x: Execution)
    requires KeySorted(b)
    ensures HasKey(Upserted(b, e), x) <==> HasKey(b, x) || SameKey(e, x)
  {
    var r := Upserted(b, e);
    UpsertedIsSorted(b, e);
    if HasKey(r, x) {
      var i :| 0 <= i < |r| && SameKey(r[i], x);
      assert r[i] in r;
      if r[i] in b { var k :| 0 <= k < |b| && b[k] == r[i]; }
    }
    if HasKey(b, x) {
      var i :| 0 <= i < |b| && SameKey(b[i], x);
      assert b[i] in r;
      var k :| 0 <= k < |r| && r[k] == b[i];
    }
    if SameKey(e, x) {
      var k :| 0 <= k < |r| && SameKey(r[k], e);
      assert SameKey(r[k], x);
    }
  }

  predicate SamePayloads(es: seq<Execution>) {
    forall i, j :: 0 <= i < |es| && 0 <= j < |es| && SameKey(es[i], es[j]) ==> es[i] == es[j]
  }

  lemma FirstCopiesOfSamePayloads(es: seq<Execution>, x: Execution)
    requires SamePayloads(es)
    ensures IsFirstCopy(es, x) <==> x in es
    decreases |es|
  {
    if es != [] {
      var n := |es| - 1;
      FirstCopiesOfSamePayloads(es[..n], x);
      FirstCopyOfLonger(es, x);
      assert es == es[..n] + [es[n]];
      if x == es[n] && HasKey(es[..n], x) {
        var i :| 0 <= i < n && SameKey(es[..n][i], x);
        assert es[i] == es[n];
        assert es[..n][i] == x;
      }
    }
  }

  /** The store is canonical: two histories of upserts leave the same bucket if and only if they have
      the same first copies; so when equal keys mean equal payloads, order and repetition of the
      upserts are irrelevant. */
  lemma StoreIsCanonical(es: seq<Execution>, fs: seq<Execution>)
    ensures UpsertedAll([], es) == UpsertedAll([], fs) <==> (forall x :: IsFirstCopy(es, x) <==> IsFirstCopy(fs, x))
    ensures SamePayloads(es) && SamePayloads(fs) && (forall x :: x in es <==> x in fs)
            ==> UpsertedAll([], es) == UpsertedAll([], fs)
  {
    BucketIsFirstCopies(es);
    BucketIsFirstCopies(fs);
    var b, c := UpsertedAll([], es), UpsertedAll([], fs);
    if forall x :: IsFirstCopy(es, x) <==> IsFirstCopy(fs, x) { SortedIsUnique(b, c); }
    if SamePayloads(es) && SamePayloads(fs) && (forall x :: x in es <==> x in fs) {
      forall x ensures IsFirstCopy(es, x) <==> IsFirstCopy(fs, x) {
        FirstCopiesOfSamePayloads(es, x);
        FirstCopiesOfSamePayloads(fs, x);
      }
      SortedIsUnique(b, c);
    }
  }
}
