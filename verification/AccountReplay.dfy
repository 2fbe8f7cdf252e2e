/**
 What the event-sourced account of src/trading/account_state/mod.rs computes: the fold of executions
 into a position, the replay of a bucket, the switch-over to the buffered live stream and the
 rebuild after a disconnect. The class that does it step by step is in AccountState.dfy.
 */
module AccountReplay {
  import opened Common
  import opened Positions
  import opened Executions
  import opened ExecutionStores
  import opened HistoryPaging

  const I64_MIN: int := -0x8000_0000_0000_0000

  // ---------- folding executions into a position ----------

  predicate IsPositionChange(t: ExecutionType) { t.XTrade? || t.XLiquidation? }

  function SignedQty(e: Execution): real {
    match e.side
    case Buy => Abs(e.lastQty)
    case Sell => -Abs(e.lastQty)
    case UnknownSide => 0.0
  }

  predicate Applies(e: Execution) { IsPositionChange(e.execType) && SignedQty(e) != 0.0 }

  function FillOf(e: Execution): Fill {
    Fill(SignedQty(e), e.lastPx, if e.fee != 0.0 then Some(e.fee) else None)
  }

  function Apply(p: PositionState, e: Execution): PositionState {
    if Applies(e) then Book(p, FillOf(e)) else p
  }

  function ApplyAll(p: PositionState, es: seq<Execution>): PositionState {
    if es == [] then p else Apply(ApplyAll(p, es[..|es| - 1]), es[|es| - 1])
  }

  /** The executions that reach subscribers: those that change the position. */
  function Effective(es: seq<Execution>): seq<Execution> {
    if es == [] then []
    else Effective(es[..|es| - 1]) + if Applies(es[|es| - 1]) then [es[|es| - 1]] else []
  }

  function FillsOf(es: seq<Execution>): (r: seq<Fill>)
  {
    if es == [] then []
    else FillsOf(es[..|es| - 1]) + if Applies(es[|es| - 1]) then [FillOf(es[|es| - 1])] else []
  }

  /** What the run-time assertions of the position demand of an execution applied to it. */
  predicate HasPrice(e: Execution) { Applies(e) ==> e.lastPx > 0.0 }

  predicate Priced(es: seq<Execution>) {
    es == [] || (Priced(es[..|es| - 1]) && HasPrice(es[|es| - 1]))
  }

  lemma {:induction false} PricedMembers(es: seq<Execution>)
    requires Priced(es)
    ensures forall i :: 0 <= i < |es| ==> HasPrice(es[i])
  {
    if es != [] { PricedMembers(es[..|es| - 1]); }
  }

  lemma {:induction false} MembersPriced(es: seq<Execution>)
    requires forall i :: 0 <= i < |es| ==> HasPrice(es[i])
    ensures Priced(es)
  {
    if es != [] { MembersPriced(es[..|es| - 1]); }
  }

  /** Executions drawn from priced ones are priced. */
  lemma PricedSubset(es: seq<Execution>, fs: seq<Execution>)
    requires Priced(es) && forall e :: e in fs ==> e in es
    ensures Priced(fs)
  {
    PricedMembers(es);
    forall i | 0 <= i < |fs| ensures HasPrice(fs[i]) {
      assert fs[i] in es;
    }
    MembersPriced(fs);
  }

  lemma BookLast(p: PositionState, fills: seq<Fill>, f: Fill)
    ensures BookAll(p, fills + [f]) == Book(BookAll(p, fills), f)
  {
    assert (fills + [f])[..|fills|] == fills;
  }

  lemma {:induction false} ApplyIsBook(p: PositionState, es: seq<Execution>)
    ensures ApplyAll(p, es) == BookAll(p, FillsOf(es))
  {
    if es != [] {
      var prev, e := es[..|es| - 1], es[|es| - 1];
      ApplyIsBook(p, prev);
      if Applies(e) {
        BookLast(p, FillsOf(prev), FillOf(e));
      } else {
        assert FillsOf(es) == FillsOf(prev);
      }
    }
  }

  lemma {:induction false} PricedIsTradable(es: seq<Execution>)
    requires Priced(es)
    ensures Tradable(FillsOf(es))
  {
    if es != [] { PricedIsTradable(es[..|es| - 1]); }
  }

  /** The PnL of an account, at any mark, is the value of the cash account fed with the same fills. */
  lemma AccountPnlIsCashFlow(es: seq<Execution>, feePercent: real, contractSize: real, mark: real)
    requires Priced(es)
    ensures CurrentPnl(ApplyAll(NewPosition(feePercent, contractSize), es), mark)
            == MarkedValue(SettleAll(feePercent, contractSize, FillsOf(es)), contractSize, mark)
  {
    ApplyIsBook(NewPosition(feePercent, contractSize), es);
    PricedIsTradable(es);
    PnlIsCashFlow(FillsOf(es), feePercent, contractSize, mark);
  }

  lemma {:induction false} ApplyConcat(p: PositionState, es: seq<Execution>, fs: seq<Execution>)
    ensures ApplyAll(p, es + fs) == ApplyAll(ApplyAll(p, es), fs)
    ensures Effective(es + fs) == Effective(es) + Effective(fs)
  {
    if fs == [] {
      assert es + fs == es;
    } else {
      var n := |fs| - 1;
      ApplyConcat(p, es, fs[..n]);
      assert (es + fs)[..|es| + n] == es + fs[..n];
      var tail := if Applies(fs[n]) then [fs[n]] else [];
      assert Effective(es) + (Effective(fs[..n]) + tail) == (Effective(es) + Effective(fs[..n])) + tail;
    }
  }

  // ---------- replay and switch-over ----------

  /** `start_epoch_ts.saturating_sub(1)` */
  function Base(epoch: int): int { if epoch == I64_MIN then epoch else epoch - 1 }

  /** The restart point: the last stored timestamp, but never before the epoch. */
  function RestartPoint(bucket: seq<Execution>, epoch: int): int {
    match LastTimestamp(bucket)
    case Some(ts) => if ts < epoch then epoch else ts
    case None => epoch
  }

  function Replayed(bucket: seq<Execution>, epoch: int): seq<Execution> {
    StableSort(ByKey, After(bucket, Base(epoch)))
  }

  function LastApplied(replayed: seq<Execution>, epoch: int): int {
    LastTimestamp(replayed).GetOr(epoch)
  }

  /** Drops executions from the front while they are not newer than t. */
  function DropStale(buffer: seq<Execution>, t: int): seq<Execution> {
    if buffer != [] && buffer[0].timestamp <= t then DropStale(buffer[1..], t) else buffer
  }

  /** Everything applied by the time the account is online, in order. */
  function StartApplied(bucket: seq<Execution>, epoch: int, buffer: seq<Execution>): seq<Execution> {
    var replayed := Replayed(bucket, epoch);
    replayed + StableSort(ByKey, DropStale(buffer, LastApplied(replayed, epoch)))
  }

  lemma {:induction false} AfterIsSorted(bucket: seq<Execution>, t: int)
    requires KeySorted(bucket)
    ensures KeySorted(After(bucket, t))
    ensures forall e :: e in After(bucket, t) <==> e in bucket && e.timestamp > t
  {
    if bucket != [] {
      var n := |bucket| - 1;
      var prev := bucket[..n];
      AfterIsSorted(prev, t);
      assert bucket == prev + [bucket[n]];
      var r := After(prev, t);
      forall i | 0 <= i < |r| ensures KeyLess(r[i], bucket[n]) {
        assert r[i] in prev;
        var k :| 0 <= k < n && prev[k] == r[i];
      }
    }
  }

  lemma ReplayedIsAfter(bucket: seq<Execution>, epoch: int)
    requires KeySorted(bucket)
    ensures Replayed(bucket, epoch) == After(bucket, Base(epoch))
  {
    AfterIsSorted(bucket, Base(epoch));
    SortOfSorted(ByKey, After(bucket, Base(epoch)));
  }

  /** The replay is what is stored from the epoch on; only at the very first instant the epoch is left out. */
  lemma ReplayStartsAtTheEpoch(bucket: seq<Execution>, epoch: int, e: Execution)
    requires KeySorted(bucket)
    ensures e in Replayed(bucket, epoch)
      <==> e in bucket && if epoch == -0x8000_0000_0000_0000 then e.timestamp > epoch else e.timestamp >= epoch
  {
    ReplayedIsAfter(bucket, epoch);
    AfterIsSorted(bucket, Base(epoch));
  }

  /** The restart point is the latest of what is stored, or the epoch when that is later. */
  lemma RestartIsLatest(bucket: seq<Execution>, epoch: int)
    requires KeySorted(bucket)
    ensures var r := RestartPoint(bucket, epoch);
      && epoch <= r && (forall e :: e in bucket ==> e.timestamp <= r)
      && (r == epoch || exists e :: e in bucket && e.timestamp == r)
  {
    if bucket != [] {
      var last := bucket[|bucket| - 1];
      assert last in bucket;
      forall e | e in bucket ensures e.timestamp <= last.timestamp {
        var i :| 0 <= i < |bucket| && bucket[i] == e;
        assert i == |bucket| - 1 || KeyLess(bucket[i], last);
      }
    }
  }

  lemma {:induction false} DropAllStale(stale: seq<Execution>, newer: seq<Execution>, t: int)
    requires forall e :: e in stale ==> e.timestamp <= t
    ensures DropStale(stale + newer, t) == DropStale(newer, t)
  {
    if stale == [] {
      assert stale + newer == newer;
    } else {
      assert stale[0] in stale;
      assert (stale + newer)[1..] == stale[1..] + newer;
      DropAllStale(stale[1..], newer, t);
    }
  }

  lemma {:induction false} DropIsShorter(buffer: seq<Execution>, t: int)
    ensures |DropStale(buffer, t)| <= |buffer|
    ensures DropStale(buffer, t) == buffer <==> |DropStale(buffer, t)| == |buffer|
    ensures |DropStale(buffer, t)| == |buffer| <==> (buffer == [] || buffer[0].timestamp > t)
  {
    if buffer != [] && buffer[0].timestamp <= t { DropIsShorter(buffer[1..], t); }
  }

  /** The switch-over with any buffer: what has been applied when the account goes online is exactly
      the ledger if and only if what is left of the buffer, its stale front dropped, is the rest of
      the ledger in some order. */
  lemma SwitchOverOfAnyBuffer(ledger: seq<Execution>, k: nat, buffer: seq<Execution>, epoch: int)
    requires KeySorted(ledger) && k <= |ledger|
    ensures var left := DropStale(buffer, LastApplied(ledger[..k], epoch));
      ledger[..k] + StableSort(ByKey, left) == ledger <==> multiset(left) == multiset(ledger[k..])
  {
    var left := DropStale(buffer, LastApplied(ledger[..k], epoch));
    assert ledger == ledger[..k] + ledger[k..];
    if multiset(left) == multiset(ledger[k..]) {
      SortedPermutation(ledger[k..], left);
    }
    if ledger[..k] + StableSort(ByKey, left) == ledger {
      assert StableSort(ByKey, left) == (ledger[..k] + StableSort(ByKey, left))[k..] == ledger[k..];
    }
  }

  /** A repeat behind a new execution is not stale at the front: it is applied a second time. */
  lemma RepeatBehindNew(ledger: seq<Execution>, epoch: int)
    requires KeySorted(ledger) && |ledger| == 2 && ledger[0].timestamp < ledger[1].timestamp
    ensures ledger[..1] + StableSort(ByKey, DropStale([ledger[1], ledger[0]], LastApplied(ledger[..1], epoch)))
         == [ledger[0], ledger[0], ledger[1]]
  {
    var a, b := ledger[0], ledger[1];
    assert ledger[..1] == [a];
    assert DropStale([b, a], a.timestamp) == [b, a];
    SortPair(a, b);
  }

  lemma SortPair(a: Execution, b: Execution)
    requires KeyLess(a, b)
    ensures StableSort(ByKey, [b, a]) == [a, b]
  {
    assert [b, a][..1] == [b] && [b][..0] == [];
    assert StableSort(ByKey, [b]) == [b];
    assert StableInsert(ByKey, [b], a) == [a] + [b];
  }

  /** The switch-over is exactly-once. The ledger is split at k: ledger[..k] has been replayed, the
      buffer holds repeats of some of it in any order, then everything else in any order. What has
      been applied when the account goes online is exactly the ledger if and only if the first new
      execution is strictly newer than the last replayed timestamp (or the epoch, when nothing was). */
  lemma SwitchOver(ledger: seq<Execution>, k: nat, stale: seq<Execution>, newer: seq<Execution>, epoch: int)
    requires KeySorted(ledger) && k <= |ledger|
    requires forall e :: e in stale ==> HasKey(ledger[..k], e)
    requires multiset(newer) == multiset(ledger[k..])
    ensures var t := LastApplied(ledger[..k], epoch);
      ledger[..k] + StableSort(ByKey, DropStale(stale + newer, t)) == ledger
      <==> newer == [] || newer[0].timestamp > t
  {
    var t := LastApplied(ledger[..k], epoch);
    var online := StableSort(ByKey, DropStale(stale + newer, t));
    forall e | e in stale ensures e.timestamp <= t {
      var i :| 0 <= i < k && SameKey(ledger[..k][i], e);
      assert i == k - 1 || KeyLess(ledger[i], ledger[k - 1]);
    }
    DropAllStale(stale, newer, t);
    DropIsShorter(newer, t);
    assert ledger == ledger[..k] + ledger[k..];
    SameLength(newer, ledger[k..]);
    if newer == [] || newer[0].timestamp > t {
      SortedPermutation(ledger[k..], newer);
      assert online == ledger[k..];
    } else {
      assert |online| < |ledger| - k;
    }
  }

  lemma SameLength(s: seq<Execution>, t: seq<Execution>)
    requires multiset(s) == multiset(t)
    ensures |s| == |t|
  {
    assert |multiset(s)| == |s| && |multiset(t)| == |t|;
  }

  /** Sorting any permutation of a sorted sequence gives the sequence back. */
  lemma SortedPermutation(sorted: seq<Execution>, s: seq<Execution>)
    requires KeySorted(sorted) && multiset(s) == multiset(sorted)
    ensures StableSort(ByKey, s) == sorted
  {
    DistinctPermutation(sorted, s);
    SortIsSorted(ByKey, s);
    SameElements(StableSort(ByKey, s), sorted);
    SortedIsUnique(StableSort(ByKey, s), sorted);
  }

  lemma DistinctPermutation(sorted: seq<Execution>, s: seq<Execution>)
    requires KeySorted(sorted) && multiset(s) == multiset(sorted)
    ensures DistinctKeys(s)
  {
    SameElements(s, sorted);
    forall i, j | 0 <= i < j < |s| ensures !SameKey(s[i], s[j]) {
      assert s[i] in sorted && s[j] in sorted;
      var a :| 0 <= a < |sorted| && sorted[a] == s[i];
      var b :| 0 <= b < |sorted| && sorted[b] == s[j];
      if a == b {
        OccursTwice(s, i, j);
        OccursOnce(sorted, a);
        assert false;
      }
      SortedHasDistinctKeys(sorted);
      assert SameKey(s[i], s[j]) <==> SameKey(s[j], s[i]);
    }
  }

  lemma OccursTwice(s: seq<Execution>, i: nat, j: nat)
    requires i < j < |s| && s[i] == s[j]
    ensures multiset(s)[s[i]] >= 2
  {
    assert s == s[..i] + [s[i]] + s[i + 1..j] + [s[j]] + s[j + 1..];
  }

  lemma OccursOnce(sorted: seq<Execution>, a: nat)
    requires KeySorted(sorted) && a < |sorted|
    ensures multiset(sorted)[sorted[a]] == 1
  {
    SortedHasDistinctKeys(sorted);
    assert sorted == sorted[..a] + [sorted[a]] + sorted[a + 1..];
    assert sorted[a] !in sorted[..a] && sorted[a] !in sorted[a + 1..];
  }

  // ---------- live state and rebuilt state ----------

  lemma UpsertAbove(bucket: seq<Execution>, e: Execution)
    requires KeySorted(bucket + [e])
    ensures Upserted(bucket, e) == bucket + [e]
  {
    var longer := bucket + [e];
    SortedHasDistinctKeys(longer);
    forall i | 0 <= i < |bucket| ensures !SameKey(bucket[i], e) {
      assert bucket[i] == longer[i] && e == longer[|bucket|];
    }
    SortOfSorted(ByKeyThenReceipt, longer);
  }

  /** Executions that arrive in key order above everything stored are simply appended. */
  lemma {:induction false} UpsertsAbove(bucket: seq<Execution>, es: seq<Execution>)
    requires KeySorted(bucket + es)
    ensures UpsertedAll(bucket, es) == bucket + es
  {
    if es == [] {
      assert bucket + es == bucket;
    } else {
      var prev, e := es[..|es| - 1], es[|es| - 1];
      var longer := bucket + prev;
      assert longer + [e] == bucket + es;
      assert forall i :: 0 <= i < |longer| ==> longer[i] == (bucket + es)[i];
      UpsertsAbove(bucket, prev);
      UpsertAbove(longer, e);
    }
  }

  lemma AfterSnoc(b: seq<Execution>, e: Execution, t: int)
    ensures After(b + [e], t) == After(b, t) + if e.timestamp > t then [e] else []
  {
    assert (b + [e])[..|b|] == b;
  }

  lemma {:induction false} AfterConcat(b: seq<Execution>, es: seq<Execution>, t: int)
    ensures After(b + es, t) == After(b, t) + After(es, t)
  {
    if es == [] {
      assert b + es == b;
    } else {
      hide After;
      var prev, e := es[..|es| - 1], es[|es| - 1];
      AfterConcat(b, prev, t);
      AfterSnoc(b + prev, e, t);
      AfterSnoc(prev, e, t);
      assert es == prev + [e];
      AppendThree(b, prev, [e]);
      AppendThree(After(b, t), After(prev, t), if e.timestamp > t then [e] else []);
    }
  }

  lemma AppendThree(a: seq<Execution>, b: seq<Execution>, c: seq<Execution>)
    ensures a + (b + c) == (a + b) + c
  {
  }

  lemma {:induction false} AfterKeepsAll(es: seq<Execution>, t: int)
    requires forall i :: 0 <= i < |es| ==> es[i].timestamp > t
    ensures After(es, t) == es
  {
    if es != [] {
      var n := |es| - 1;
      AfterKeepsAll(es[..n], t);
      assert es == es[..n] + [es[n]];
    }
  }

  lemma {:induction false} UpsertsKeepSorted(bucket: seq<Execution>, es: seq<Execution>)
    requires KeySorted(bucket)
    ensures KeySorted(UpsertedAll(bucket, es))
  {
    if es != [] {
      UpsertsKeepSorted(bucket, es[..|es| - 1]);
      UpsertedIsSorted(UpsertedAll(bucket, es[..|es| - 1]), es[|es| - 1]);
    }
  }

  /** The live state equals the rebuilt state. What the account has applied - the replay, then each
      live execution as it came - is what a rebuild from the store replays, if and only if the live
      executions came in strictly increasing key order above the replay, none of them before the
      epoch. */
  lemma LiveIsRebuilt(bucket: seq<Execution>, live: seq<Execution>, epoch: int)
    requires KeySorted(bucket)
    ensures Replayed(UpsertedAll(bucket, live), epoch) == Replayed(bucket, epoch) + live
            <==> KeySorted(Replayed(bucket, epoch) + live) && forall e :: e in live ==> e.timestamp > Base(epoch)
  {
    var base := Base(epoch);
    var replayed := Replayed(bucket, epoch);
    ReplayedIsAfter(bucket, epoch);
    UpsertsKeepSorted(bucket, live);
    ReplayedIsAfter(UpsertedAll(bucket, live), epoch);
    AfterIsSorted(UpsertedAll(bucket, live), base);
    if Replayed(UpsertedAll(bucket, live), epoch) == replayed + live {
      forall e | e in live ensures e.timestamp > base { assert e in replayed + live; }
    }
    if KeySorted(replayed + live) && forall e :: e in live ==> e.timestamp > base {
      AppendAboveBase(bucket, live, base);
      UpsertsAbove(bucket, live);
      AfterConcat(bucket, live, base);
      AfterKeepsAll(live, base);
    }
  }

  lemma AppendAboveBase(bucket: seq<Execution>, live: seq<Execution>, base: int)
    requires KeySorted(bucket) && KeySorted(After(bucket, base) + live)
    requires forall e :: e in live ==> e.timestamp > base
    ensures KeySorted(bucket + live)
  {
    var r := After(bucket, base);
    AfterIsSorted(bucket, base);
    var all := bucket + live;
    forall i, j | 0 <= i < j < |all| ensures KeyLess(all[i], all[j]) {
      if j >= |bucket| {
        assert all[j] == live[j - |bucket|] == (r + live)[|r| + j - |bucket|];
        if i >= |bucket| {
          assert all[i] == live[i - |bucket|] == (r + live)[|r| + i - |bucket|];
        } else if bucket[i].timestamp > base {
          assert bucket[i] in r;
          var k :| 0 <= k < |r| && r[k] == bucket[i];
          assert (r + live)[k] == all[i];
        }
      }
    }
  }

  /** So after any such run the live position is the one a rebuild computes. */
  lemma LivePositionIsRebuilt(bucket: seq<Execution>, live: seq<Execution>, epoch: int, zero: PositionState)
    requires KeySorted(bucket) && KeySorted(Replayed(bucket, epoch) + live)
    requires forall e :: e in live ==> e.timestamp > Base(epoch)
    ensures ApplyAll(ApplyAll(zero, Replayed(bucket, epoch)), live)
            == ApplyAll(zero, Replayed(UpsertedAll(bucket, live), epoch))
  {
    LiveIsRebuilt(bucket, live, epoch);
    ApplyConcat(zero, Replayed(bucket, epoch), live);
  }

  // ---------- backfill, start and restore against an exchange ledger ----------

  ghost predicate IsTraded(accountId: int, marketId: int, trades: seq<UserTrade>, e: Execution) {
    exists t :: t in trades && e == ToExecution(accountId, marketId, t)
  }

  /** The exchange's trades, as it serves them, and their executions in key order. Any number of trades
      may share a millisecond, in which the exchange's order need not be that of the keys. */
  ghost predicate Ledger(accountId: int, marketId: int, trades: seq<UserTrade>, execs: seq<Execution>) {
    && TimeOrdered(trades) && (forall t :: t in trades ==> t.timeMs > 0)
    && KeySorted(execs) && (forall t :: t in trades ==> ToExecution(accountId, marketId, t) in execs)
    && (forall e :: e in execs ==> IsTraded(accountId, marketId, trades, e))
  }

  /** Trades with distinct keys have such executions: their own, sorted. */
  lemma SortedTradesAreLedger(accountId: int, marketId: int, trades: seq<UserTrade>, es: seq<Execution>)
    requires TimeOrdered(trades) && forall t :: t in trades ==> t.timeMs > 0
    requires Converted(accountId, marketId, trades, es) && DistinctKeys(es)
    ensures Ledger(accountId, marketId, trades, StableSort(ByKey, es))
  {
    SortIsSorted(ByKey, es);
    SameElements(StableSort(ByKey, es), es);
    forall t | t in trades ensures ToExecution(accountId, marketId, t) in es {
      var i :| 0 <= i < |trades| && trades[i] == t;
      assert es[i] == ToExecution(accountId, marketId, t);
    }
    forall e | e in es ensures IsTraded(accountId, marketId, trades, e) {
      var i :| 0 <= i < |es| && es[i] == e;
      assert trades[i] in trades;
    }
  }

  /** k executions had happened by nowMs. */
  predicate Happened(execs: seq<Execution>, nowMs: int, k: nat) {
    k <= |execs| && forall x :: 0 <= x < |execs| ==> (execs[x].timestamp <= nowMs * 1000 <==> x < k)
  }

  /** Asked for what follows any time, the history brings only executions after it that have happened,
      and all of them when no page is cut. */
  lemma HistoryBrings(accountId: int, marketId: int, trades: seq<UserTrade>, execs: seq<Execution>,
                      k: nat, nowMs: int, gtTs: int, hist: seq<Execution>)
    requires Ledger(accountId, marketId, trades, execs) && Happened(execs, nowMs, k)
    requires Converted(accountId, marketId, Windowed(trades, TruncThousand(gtTs) + 1, nowMs), hist)
    ensures forall e :: e in hist ==> e in execs[..k] && gtTs < e.timestamp
    ensures NothingCut(trades, gtTs, nowMs) ==> forall e :: e in execs[..k] && gtTs < e.timestamp ==> e in hist
  {
    hide Windowed, NothingCut, TimeOrdered;
    var fetched := Windowed(trades, TruncThousand(gtTs) + 1, nowMs);
    HistoryMembers(trades, gtTs, nowMs);
    forall e | e in hist ensures e in execs[..k] && gtTs < e.timestamp {
      var i :| 0 <= i < |hist| && hist[i] == e;
      assert fetched[i] in fetched;
      assert e in execs;
    }
    if NothingCut(trades, gtTs, nowMs) {
      forall e | e in execs[..k] && gtTs < e.timestamp ensures e in hist {
        assert e in execs && IsTraded(accountId, marketId, trades, e);
        var t :| t in trades && e == ToExecution(accountId, marketId, t);
        assert Wanted(t, gtTs, nowMs);
        var i :| 0 <= i < |fetched| && fetched[i] == t;
        assert hist[i] == e;
      }
    }
  }

  /** Restoring heals: the upserted history completes the store to the whole ledger so far if and only
      if the store had no gap below its last execution. */
  lemma RestoreHeals(bucket: seq<Execution>, execs: seq<Execution>, i: nat, k: nat)
    requires KeySorted(execs) && KeySorted(bucket) && i <= k <= |execs|
    requires bucket != [] ==> 0 < i && bucket[|bucket| - 1] == execs[i - 1]
    ensures UpsertedAll(bucket, execs[i..k]) == bucket + execs[i..k]
    ensures UpsertedAll(bucket, execs[i..k]) == execs[..k] <==> bucket == execs[..i]
  {
    var tail := execs[i..k];
    if bucket != [] && tail != [] { assert KeyLess(execs[i - 1], execs[i]); }
    SortedConcat(bucket, tail);
    UpsertsAbove(bucket, tail);
    FirstPart(execs, bucket, tail, i, k);
  }

  lemma FirstPart(all: seq<Execution>, first: seq<Execution>, tail: seq<Execution>, i: nat, k: nat)
    requires i <= k <= |all| && tail == all[i..k]
    ensures first + tail == all[..k] <==> first == all[..i]
  {
    assert all[..i] + tail == all[..k];
    if first + tail == all[..k] {
      assert |first| == i;
      assert (first + tail)[..i] == first;
      assert all[..k][..i] == all[..i];
    }
  }

  lemma SortedConcat(s: seq<Execution>, t: seq<Execution>)
    requires KeySorted(s) && KeySorted(t) && (s != [] && t != [] ==> KeyLess(s[|s| - 1], t[0]))
    ensures KeySorted(s + t)
  {
    forall x, y | 0 <= x < |s| && 0 <= y < |t| ensures KeyLess(s[x], t[y]) {
      if x < |s| - 1 { KeyTransitive(s[x], s[|s| - 1], t[0]); }
      if y > 0 { KeyTransitive(s[x], t[0], t[y]); }
    }
  }

  lemma RestIsNewer(ledger: seq<Execution>, k: nat, e: Execution, epoch: int)
    requires k <= |ledger| && e in ledger[k..]
    requires forall i, j :: 0 <= i < j < |ledger| ==> ledger[i].timestamp < ledger[j].timestamp
    requires k == 0 ==> ledger[0].timestamp > epoch
    ensures e.timestamp > LastApplied(ledger[..k], epoch)
  {
    var x :| 0 <= x < |ledger| - k && ledger[k..][x] == e;
    assert e == ledger[k + x];
  }

  /** With strictly increasing timestamps the switch-over is exact, unless its very first execution is at the epoch. */
  lemma SwitchOverInTime(ledger: seq<Execution>, k: nat, stale: seq<Execution>, newer: seq<Execution>, epoch: int)
    requires KeySorted(ledger) && k <= |ledger|
    requires forall i, j :: 0 <= i < j < |ledger| ==> ledger[i].timestamp < ledger[j].timestamp
    requires k == 0 && ledger != [] ==> ledger[0].timestamp > epoch
    requires forall e :: e in stale ==> HasKey(ledger[..k], e)
    requires multiset(newer) == multiset(ledger[k..])
    ensures ledger[..k] + StableSort(ByKey, DropStale(stale + newer, LastApplied(ledger[..k], epoch))) == ledger
  {
    hide StableSort, DropStale, KeySorted, HasKey, LastApplied;
    SwitchOver(ledger, k, stale, newer, epoch);
    if newer != [] {
      SameElements(newer, ledger[k..]);
      assert newer[0] in newer;
      RestIsNewer(ledger, k, newer[0], epoch);
    }
  }
}
