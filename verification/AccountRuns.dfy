/**
 Whole runs of an account against the exchange's ledger: the start, then any number of connections,
 each followed by a rebuild, as `run_market` of src/trading/account_state/mod.rs goes through them.

 A trade reaches the account as a full live report, as a fee-less placeholder or from the history,
 and between the trades come reports of cancelled orders, which are stored too. `Bare` erases what
 the copies of a trade may disagree about; the fee is accounted for on its own.
 */
module AccountRuns {
  import opened Common
  import opened Decimals
  import opened Positions
  import opened Executions
  import opened ExecutionStores
  import opened HistoryPaging
  import opened AccountReplay
  import opened AccountStates

  // ---------- copies of trades, and other reports ----------

  /** A report of a trade without its fee and the fields only a live report carries. */
  function Bare(e: Execution): Execution {
    e.(rcvTimestamp := e.timestamp, clOrdId := -1, ordStatus := OStatusFilled, fee := 0.0)
  }

  /** The trades among some reports, in order. */
  function BareTrades(es: seq<Execution>): seq<Execution> {
    if es == [] then []
    else
      BareTrades(es[..|es| - 1])
      + if IsPositionChange(es[|es| - 1].execType) then [Bare(es[|es| - 1])] else []
  }

  /** What the live stream may deliver: a copy of a ledger trade, or a report that is not a trade. */
  ghost predicate ReportOf(e: Execution, execs: seq<Execution>) {
    if IsPositionChange(e.execType) then exists x :: 0 <= x < |execs| && Bare(e) == Bare(execs[x])
    else !HasKey(execs, e)
  }

  ghost predicate Reports(es: seq<Execution>, execs: seq<Execution>) {
    forall e :: e in es ==> ReportOf(e, execs)
  }

  ghost predicate OnlyTrades(execs: seq<Execution>) {
    forall x :: 0 <= x < |execs| ==> IsPositionChange(execs[x].execType)
  }

  lemma BareSnoc(es: seq<Execution>, e: Execution)
    ensures IsPositionChange(e.execType) ==> BareTrades(es + [e]) == BareTrades(es) + [Bare(e)]
    ensures !IsPositionChange(e.execType) ==> BareTrades(es + [e]) == BareTrades(es)
  {
    assert (es + [e])[..|es|] == es;
  }

  lemma {:induction false} BareConcat(a: seq<Execution>, b: seq<Execution>)
    ensures BareTrades(a + b) == BareTrades(a) + BareTrades(b)
  {
    if b == [] {
      assert a + b == a;
    } else {
      BareConcat(a, b[..|b| - 1]);
      BareConcatStep(a, b[..|b| - 1], b[|b| - 1]);
      assert b == b[..|b| - 1] + [b[|b| - 1]];
    }
  }

  lemma BareConcatStep(a: seq<Execution>, p: seq<Execution>, e: Execution)
    requires BareTrades(a + p) == BareTrades(a) + BareTrades(p)
    ensures BareTrades(a + (p + [e])) == BareTrades(a) + BareTrades(p + [e])
  {
    hide BareTrades, Bare;
    AppendThree(a, p, [e]);
    BareSnoc(a + p, e);
    BareSnoc(p, e);
    AppendThree(BareTrades(a), BareTrades(p), [Bare(e)]);
  }

  lemma {:induction false} BareFrom(es: seq<Execution>, y: Execution) returns (i: nat)
    requires y in BareTrades(es)
    ensures i < |es| && IsPositionChange(es[i].execType) && Bare(es[i]) == y
  {
    var n := |es| - 1;
    if IsPositionChange(es[n].execType) && Bare(es[n]) == y {
      i := n;
    } else {
      i := BareFrom(es[..n], y);
    }
  }

  lemma {:induction false} BareInto(es: seq<Execution>, i: nat)
    requires i < |es| && IsPositionChange(es[i].execType)
    ensures Bare(es[i]) in BareTrades(es)
  {
    if i < |es| - 1 {
      BareInto(es[..|es| - 1], i);
    }
  }

  lemma {:induction false} BareIsSorted(es: seq<Execution>)
    requires KeySorted(es)
    ensures KeySorted(BareTrades(es))
  {
    if es != [] {
      var p, e := es[..|es| - 1], es[|es| - 1];
      BareIsSorted(p);
      forall k | 0 <= k < |BareTrades(p)| ensures KeyLess(BareTrades(p)[k], Bare(e)) {
        var i := BareFrom(p, BareTrades(p)[k]);
        assert KeyLess(es[i], es[|es| - 1]);
      }
    }
  }

  // ---------- what a store holds of the ledger ----------

  /** From the epoch on. */
  predicate Due(e: Execution, epoch: int) { e.timestamp > Base(epoch) }

  /** What the bucket replays of trades is what the first n executions of the ledger would replay. */
  ghost predicate Holds(bucket: seq<Execution>, execs: seq<Execution>, epoch: int, n: nat)
    requires n <= |execs|
  {
    BareTrades(Replayed(bucket, epoch)) == BareTrades(Replayed(execs[..n], epoch))
  }

  lemma ReplayedTrade(bucket: seq<Execution>, execs: seq<Execution>, epoch: int, x: nat)
    requires KeySorted(bucket) && KeySorted(execs) && Reports(bucket, execs)
    requires x < |execs| && Due(execs[x], epoch)
    ensures Bare(execs[x]) in BareTrades(Replayed(bucket, epoch)) <==> HasKey(bucket, execs[x])
  {
    hide KeySorted;
    var r := Replayed(bucket, epoch);
    ReplayedIsAfter(bucket, epoch);
    AfterIsSorted(bucket, Base(epoch));
    hide Replayed, After, BareTrades;
    if Bare(execs[x]) in BareTrades(r) {
      var i := BareFrom(r, Bare(execs[x]));
      MemberHasKey(bucket, r[i], execs[x]);
    }
    if HasKey(bucket, execs[x]) {
      var e := KeyMember(bucket, execs[x]);
      CopyOf(e, execs, x);
      var i :| 0 <= i < |r| && r[i] == e;
      BareInto(r, i);
    }
  }

  lemma MemberHasKey(b: seq<Execution>, e: Execution, f: Execution)
    requires e in b && SameKey(e, f)
    ensures HasKey(b, f)
  {
    var j :| 0 <= j < |b| && b[j] == e;
    assert SameKey(b[j], f);
  }

  lemma KeyMember(b: seq<Execution>, f: Execution) returns (e: Execution)
    requires HasKey(b, f)
    ensures e in b && SameKey(e, f)
  {
    var j :| 0 <= j < |b| && SameKey(b[j], f);
    e := b[j];
  }

  /** A report with a trade's key is a copy of that trade. */
  lemma CopyOf(e: Execution, execs: seq<Execution>, x: nat)
    requires KeySorted(execs) && x < |execs| && SameKey(e, execs[x]) && ReportOf(e, execs)
    ensures IsPositionChange(e.execType) && Bare(e) == Bare(execs[x])
  {
    assert SameKey(execs[x], e);
    var z :| 0 <= z < |execs| && Bare(e) == Bare(execs[z]);
    SortedHasDistinctKeys(execs);
    assert SameKey(execs[z], execs[x]) && SameKey(execs[x], execs[z]);
  }

  lemma ReplayedIsOfLedger(bucket: seq<Execution>, execs: seq<Execution>, epoch: int, y: Execution) returns (x: nat)
    requires KeySorted(bucket) && Reports(bucket, execs) && y in BareTrades(Replayed(bucket, epoch))
    ensures x < |execs| && y == Bare(execs[x]) && Due(execs[x], epoch)
  {
    var r := Replayed(bucket, epoch);
    ReplayedIsAfter(bucket, epoch);
    AfterIsSorted(bucket, Base(epoch));
    hide Replayed, After, BareTrades;
    var i := BareFrom(r, y);
    assert r[i] in r && r[i] in bucket;
    x :| 0 <= x < |execs| && Bare(r[i]) == Bare(execs[x]);
    assert execs[x].timestamp == r[i].timestamp;
  }

  lemma LedgerReports(execs: seq<Execution>, n: nat)
    requires KeySorted(execs) && OnlyTrades(execs) && n <= |execs|
    ensures Reports(execs[..n], execs) && KeySorted(execs[..n])
    ensures forall x :: 0 <= x < |execs| ==> (HasKey(execs[..n], execs[x]) <==> x < n)
  {
    SortedHasDistinctKeys(execs);
    forall e | e in execs[..n] ensures ReportOf(e, execs) {
      var x :| 0 <= x < n && execs[x] == e;
    }
    forall x | 0 <= x < |execs| ensures HasKey(execs[..n], execs[x]) <==> x < n {
      if x < n {
        assert execs[..n][x] == execs[x];
      }
      if HasKey(execs[..n], execs[x]) {
        var i :| 0 <= i < n && SameKey(execs[..n][i], execs[x]);
        assert SameKey(execs[i], execs[x]) && SameKey(execs[x], execs[i]);
      }
    }
  }

  /** A bucket of reports holds the first n executions exactly when, of the due ones, it has their keys and
      no others. */
  lemma HoldsIffKeys(bucket: seq<Execution>, execs: seq<Execution>, epoch: int, n: nat)
    requires KeySorted(bucket) && KeySorted(execs) && OnlyTrades(execs) && Reports(bucket, execs) && n <= |execs|
    ensures Holds(bucket, execs, epoch, n) <==>
      forall x :: 0 <= x < |execs| && Due(execs[x], epoch) ==> (HasKey(bucket, execs[x]) <==> x < n)
  {
    LedgerReports(execs, n);
    var r, t := BareTrades(Replayed(bucket, epoch)), BareTrades(Replayed(execs[..n], epoch));
    ReplayIsSorted(bucket, epoch);
    ReplayIsSorted(execs[..n], epoch);
    forall x | 0 <= x < |execs| && Due(execs[x], epoch)
      ensures Bare(execs[x]) in r <==> HasKey(bucket, execs[x])
      ensures Bare(execs[x]) in t <==> x < n
    {
      ReplayedTrade(bucket, execs, epoch, x);
      ReplayedTrade(execs[..n], execs, epoch, x);
    }
    hide HasKey, Reports, OnlyTrades;
    if forall x :: 0 <= x < |execs| && Due(execs[x], epoch) ==> (HasKey(bucket, execs[x]) <==> x < n) {
      forall y ensures y in r <==> y in t {
        if y in r {
          var x := ReplayedIsOfLedger(bucket, execs, epoch, y);
        }
        if y in t {
          var x := ReplayedIsOfLedger(execs[..n], execs, epoch, y);
        }
      }
      SortedIsUnique(r, t);
    }
  }

  lemma ReplayIsSorted(bucket: seq<Execution>, epoch: int)
    requires KeySorted(bucket)
    ensures KeySorted(BareTrades(Replayed(bucket, epoch)))
  {
    ReplayedIsAfter(bucket, epoch);
    AfterIsSorted(bucket, Base(epoch));
    BareIsSorted(Replayed(bucket, epoch));
  }

  // ---------- upserting and fetching ----------

  lemma {:induction false} UpsertsAre(b: seq<Execution>, es: seq<Execution>, x: Execution)
    requires KeySorted(b)
    ensures KeySorted(UpsertedAll(b, es))
    ensures HasKey(UpsertedAll(b, es), x) <==> HasKey(b, x) || HasKey(es, x)
    ensures x in UpsertedAll(b, es) ==> x in b || x in es
  {
    if es != [] {
      var p, e := es[..|es| - 1], es[|es| - 1];
      assert es == p + [e];
      UpsertsAre(b, p, x);
      UpsertedIsSorted(UpsertedAll(b, p), e);
      KeysOfUpserted(UpsertedAll(b, p), e, x);
      HasKeyOfLonger(es, x);
    }
  }

  lemma UpsertsReport(b: seq<Execution>, es: seq<Execution>, execs: seq<Execution>)
    requires KeySorted(b) && Reports(b, execs) && Reports(es, execs)
    ensures KeySorted(UpsertedAll(b, es)) && Reports(UpsertedAll(b, es), execs)
  {
    hide KeySorted, UpsertedAll, ReportOf;
    forall e | e in UpsertedAll(b, es) ensures ReportOf(e, execs) {
      UpsertsAre(b, es, e);
    }
    if b != [] {
      UpsertsAre(b, es, b[0]);
    } else {
      UpsertsKeepSorted(b, es);
    }
  }

  /** Storing a connection's reports reaches the first j executions exactly when, with what was stored,
      it delivered those and none later - in any order, with any repeats and other reports between. */
  lemma UpsertsReach(b: seq<Execution>, live: seq<Execution>, execs: seq<Execution>, epoch: int, j: nat)
    requires KeySorted(b) && KeySorted(execs) && OnlyTrades(execs) && j <= |execs|
    requires Reports(b, execs) && Reports(live, execs)
    ensures Holds(UpsertedAll(b, live), execs, epoch, j) <==>
      forall x :: 0 <= x < |execs| && Due(execs[x], epoch) ==>
        (HasKey(b, execs[x]) || HasKey(live, execs[x]) <==> x < j)
  {
    hide KeySorted, UpsertedAll, Holds, HasKey, Reports;
    UpsertsReport(b, live, execs);
    HoldsIffKeys(UpsertedAll(b, live), execs, epoch, j);
    forall x | 0 <= x < |execs|
      ensures HasKey(UpsertedAll(b, live), execs[x]) <==> HasKey(b, execs[x]) || HasKey(live, execs[x])
    {
      UpsertsAre(b, live, execs[x]);
    }
  }

  /** The executions that have happened and are later than `gtTs` or already stored are all that are due. */
  ghost predicate Reaches(b: seq<Execution>, execs: seq<Execution>, epoch: int, gtTs: int, k: nat) {
    forall x :: 0 <= x < |execs| && Due(execs[x], epoch) ==>
      if x < k then HasKey(b, execs[x]) || gtTs < execs[x].timestamp else !HasKey(b, execs[x])
  }

  lemma LedgerTrades(accountId: int, marketId: int, trades: seq<UserTrade>, execs: seq<Execution>)
    requires Ledger(accountId, marketId, trades, execs)
    ensures TimeOrdered(trades) && KeySorted(execs) && OnlyTrades(execs)
    ensures forall x :: 0 <= x < |execs| ==> execs[x].timestamp > 0
  {
    forall x | 0 <= x < |execs| ensures IsPositionChange(execs[x].execType) && execs[x].timestamp > 0 {
      assert IsTraded(accountId, marketId, trades, execs[x]);
    }
  }

  lemma HistoryReports(accountId: int, marketId: int, trades: seq<UserTrade>, execs: seq<Execution>,
                       k: nat, nowMs: int, gtTs: int, hist: seq<Execution>)
    requires Ledger(accountId, marketId, trades, execs) && Happened(execs, nowMs, k)
    requires Converted(accountId, marketId, Windowed(trades, TruncThousand(gtTs) + 1, nowMs), hist)
    ensures KeySorted(execs) && OnlyTrades(execs) && Reports(hist, execs)
    ensures forall e :: e in hist ==> e.timestamp <= nowMs * 1000
    ensures forall x :: 0 <= x < |execs| && HasKey(hist, execs[x]) ==> x < k && gtTs < execs[x].timestamp
    ensures NothingCut(trades, gtTs, nowMs) ==>
      forall x :: 0 <= x < k && gtTs < execs[x].timestamp ==> HasKey(hist, execs[x])
  {
    hide Windowed, NothingCut, Ledger;
    LedgerTrades(accountId, marketId, trades, execs);
    HistoryBrings(accountId, marketId, trades, execs, k, nowMs, gtTs, hist);
    PartReports(execs, k, hist);
    if NothingCut(trades, gtTs, nowMs) {
      forall x | 0 <= x < k && gtTs < execs[x].timestamp ensures HasKey(hist, execs[x]) {
        assert execs[..k][x] in execs[..k];
        MemberHasKey(hist, execs[x], execs[x]);
      }
    }
    forall e | e in hist ensures e.timestamp <= nowMs * 1000 {
      var x :| 0 <= x < k && execs[..k][x] == e;
      assert execs[x] == e;
    }
    forall x | 0 <= x < |execs| && HasKey(hist, execs[x]) ensures x < k && gtTs < execs[x].timestamp {
      var e := KeyMember(hist, execs[x]);
    }
  }

  /** Executions taken from the first k of the ledger. */
  lemma PartReports(execs: seq<Execution>, k: nat, part: seq<Execution>)
    requires KeySorted(execs) && OnlyTrades(execs) && k <= |execs| && forall e :: e in part ==> e in execs[..k]
    ensures Reports(part, execs)
    ensures forall x :: 0 <= x < |execs| && HasKey(part, execs[x]) ==> x < k
  {
    LedgerReports(execs, k);
    forall x | 0 <= x < |execs| && HasKey(part, execs[x]) ensures x < k {
      var e := KeyMember(part, execs[x]);
      MemberHasKey(execs[..k], e, execs[x]);
    }
  }

  lemma SliceReports(execs: seq<Execution>, i: nat, k: nat)
    requires KeySorted(execs) && OnlyTrades(execs) && i <= k <= |execs|
    ensures Reports(execs[i..k], execs)
    ensures forall x :: 0 <= x < |execs| ==> (HasKey(execs[i..k], execs[x]) <==> i <= x < k)
  {
    forall e | e in execs[i..k] ensures ReportOf(e, execs) {
      var y :| 0 <= y < k - i && execs[i..k][y] == e;
      assert Bare(e) == Bare(execs[i + y]);
    }
    forall x | 0 <= x < |execs| ensures HasKey(execs[i..k], execs[x]) <==> i <= x < k {
      SortedHasDistinctKeys(execs);
      if i <= x < k {
        assert execs[i..k][x - i] == execs[x];
      }
      if HasKey(execs[i..k], execs[x]) {
        var y :| 0 <= y < k - i && SameKey(execs[i..k][y], execs[x]);
        assert SameKey(execs[i + y], execs[x]) && SameKey(execs[x], execs[i + y]);
      }
    }
  }

  /** Storing what follows `gtTs` completes a bucket only if nothing due is missing at or before `gtTs`,
      and exactly then when no page is cut. */
  lemma FetchCompletes(accountId: int, marketId: int, trades: seq<UserTrade>, execs: seq<Execution>, epoch: int,
                       b: seq<Execution>, k: nat, nowMs: int, gtTs: int, hist: seq<Execution>)
    requires Ledger(accountId, marketId, trades, execs) && Happened(execs, nowMs, k)
    requires Converted(accountId, marketId, Windowed(trades, TruncThousand(gtTs) + 1, nowMs), hist)
    requires KeySorted(b) && Reports(b, execs)
    ensures KeySorted(UpsertedAll(b, hist)) && Reports(UpsertedAll(b, hist), execs)
    ensures Holds(UpsertedAll(b, hist), execs, epoch, k) ==> Reaches(b, execs, epoch, gtTs, k)
    ensures NothingCut(trades, gtTs, nowMs) ==>
      (Holds(UpsertedAll(b, hist), execs, epoch, k) <==> Reaches(b, execs, epoch, gtTs, k))
  {
    hide Windowed, NothingCut, KeySorted, UpsertedAll, Holds, HasKey, Reports;
    HistoryReports(accountId, marketId, trades, execs, k, nowMs, gtTs, hist);
    UpsertsReport(b, hist, execs);
    UpsertsReach(b, hist, execs, epoch, k);
  }

  /** The backfill at the start asks for what follows the restart point. */
  lemma BackfillIsExact(accountId: int, marketId: int, trades: seq<UserTrade>, execs: seq<Execution>, epoch: int,
                        bucket: seq<Execution>, k: nat, nowMs: int, hist: seq<Execution>)
    requires Ledger(accountId, marketId, trades, execs) && Happened(execs, nowMs, k)
    requires KeySorted(bucket) && Reports(bucket, execs)
    requires Converted(accountId, marketId,
                       Windowed(trades, TruncThousand(RestartPoint(bucket, epoch)) + 1, nowMs), hist)
    ensures var gtTs, store := RestartPoint(bucket, epoch), UpsertedAll(bucket, hist);
      && KeySorted(store) && Reports(store, execs)
      && (Holds(store, execs, epoch, k) ==> Reaches(bucket, execs, epoch, gtTs, k))
      && (NothingCut(trades, gtTs, nowMs) ==>
            (Holds(store, execs, epoch, k) <==> Reaches(bucket, execs, epoch, gtTs, k)))
  {
    FetchCompletes(accountId, marketId, trades, execs, epoch, bucket, k, nowMs, RestartPoint(bucket, epoch), hist);
  }

  /** On a ledger from the epoch on, with its first i executions stored, the backfill is complete exactly
      when the next execution is later than the last one stored, or than the epoch in an empty store. */
  lemma BackfillMissesTheEpoch(accountId: int, marketId: int, trades: seq<UserTrade>, execs: seq<Execution>,
                               epoch: int, i: nat, k: nat, nowMs: int, hist: seq<Execution>)
    requires Ledger(accountId, marketId, trades, execs) && Happened(execs, nowMs, k)
    requires i <= k && forall x :: 0 <= x < |execs| ==> execs[x].timestamp >= epoch
    requires Converted(accountId, marketId,
                       Windowed(trades, TruncThousand(RestartPoint(execs[..i], epoch)) + 1, nowMs), hist)
    ensures var complete := Holds(UpsertedAll(execs[..i], hist), execs, epoch, k);
      var later := i < k ==> execs[i].timestamp > if i > 0 then execs[i - 1].timestamp else epoch;
      && (complete ==> later)
      && (NothingCut(trades, RestartPoint(execs[..i], epoch), nowMs) ==> (complete <==> later))
  {
    hide Windowed, Holds, UpsertedAll, NothingCut, Ledger;
    LedgerTrades(accountId, marketId, trades, execs);
    LedgerReports(execs, i);
    BackfillIsExact(accountId, marketId, trades, execs, epoch, execs[..i], k, nowMs, hist);
    assert i > 0 ==> RestartPoint(execs[..i], epoch) == execs[i - 1].timestamp;
    ReachesPrefix(execs, epoch, RestartPoint(execs[..i], epoch), i, k);
  }

  lemma ReachesPrefix(execs: seq<Execution>, epoch: int, t: int, i: nat, k: nat)
    requires KeySorted(execs) && OnlyTrades(execs) && i <= k <= |execs|
    requires forall x :: 0 <= x < |execs| ==> Due(execs[x], epoch)
    ensures Reaches(execs[..i], execs, epoch, t, k) <==> i == k || t < execs[i].timestamp
  {
    LedgerReports(execs, i);
    hide HasKey, Reports, OnlyTrades;
    if i < k && Reaches(execs[..i], execs, epoch, t, k) {
      assert HasKey(execs[..i], execs[i]) || t < execs[i].timestamp;
    }
  }

  // ---------- rebuilds ----------

  /** No undelivered execution is at or before the last stored report. */
  ghost predicate NothingOverrun(bucket: seq<Execution>, execs: seq<Execution>, epoch: int, k: nat) {
    match LastTimestamp(bucket)
    case Some(last) => Reaches(bucket, execs, epoch, last, k)
    case None => forall x :: 0 <= x < |execs| && Due(execs[x], epoch) ==> k <= x
  }

  /** What the rebuild of this bucket fetches is not cut. */
  ghost predicate UncutAfter(bucket: seq<Execution>, exchange: Exchange) {
    && TimeOrdered(exchange.trades)
    && (bucket != [] ==> NothingCut(exchange.trades, LastTimestamp(bucket).value, exchange.nowMs))
  }

  /** A rebuild completes the store to everything that has happened only if nothing was overrun, and
      exactly then when no page is cut; without any report stored it fetches nothing. */
  lemma RebuildIsExact(accountId: int, marketId: int, trades: seq<UserTrade>, execs: seq<Execution>, epoch: int,
                       bucket: seq<Execution>, k: nat, exchange: Exchange, hist: seq<Execution>)
    requires Ledger(accountId, marketId, trades, execs) && exchange.trades == trades
    requires Happened(execs, exchange.nowMs, k) && KeySorted(bucket) && Reports(bucket, execs)
    requires FetchedAfter(accountId, marketId, bucket, exchange, hist)
    ensures var store := UpsertedAll(bucket, hist);
      && KeySorted(store) && Reports(store, execs)
      && (Holds(store, execs, epoch, k) ==> NothingOverrun(bucket, execs, epoch, k))
      && (UncutAfter(bucket, exchange) ==> (Holds(store, execs, epoch, k) <==> NothingOverrun(bucket, execs, epoch, k)))
  {
    hide Windowed, NothingCut, KeySorted, Holds, HasKey, Reports, Reaches;
    if bucket == [] {
      assert UpsertedAll(bucket, hist) == bucket;
      LedgerTrades(accountId, marketId, trades, execs);
      HoldsIffKeys(bucket, execs, epoch, k);
      forall x | 0 <= x < |execs| ensures !HasKey(bucket, execs[x]) {
        EmptyHasNoKey(execs[x]);
      }
    } else {
      FetchCompletes(accountId, marketId, trades, execs, epoch, bucket, k, exchange.nowMs,
                     LastTimestamp(bucket).value, hist);
    }
  }

  lemma EmptyHasNoKey(x: Execution)
    ensures !HasKey([], x)
  {
  }

  /** A report that is no trade - a cancelled order - can overrun one: stored first, with a timestamp not
      before that of the next trade, it makes the rebuild start behind that trade, which is never fetched. */
  lemma CancelReportLosesTrade(accountId: int, marketId: int, trades: seq<UserTrade>, execs: seq<Execution>, epoch: int,
                               k: nat, n: nat, cancel: Execution, exchange: Exchange, hist: seq<Execution>)
    requires Ledger(accountId, marketId, trades, execs) && exchange.trades == trades
    requires Happened(execs, exchange.nowMs, n) && k < n && Due(execs[k], epoch)
    requires !IsPositionChange(cancel.execType) && !HasKey(execs, cancel) && execs[k].timestamp <= cancel.timestamp
    requires FetchedAfter(accountId, marketId, UpsertedAll(execs[..k], [cancel]), exchange, hist)
    ensures !Holds(UpsertedAll(UpsertedAll(execs[..k], [cancel]), hist), execs, epoch, n)
  {
    var bucket := UpsertedAll(execs[..k], [cancel]);
    LedgerTrades(accountId, marketId, trades, execs);
    LedgerReports(execs, k);
    assert Reports([cancel], execs);
    UpsertsReport(execs[..k], [cancel], execs);
    assert !HasKey([cancel], execs[k]) by {
      assert SameKey(cancel, execs[k]) == SameKey(execs[k], cancel);
    }
    UpsertsAre(execs[..k], [cancel], execs[k]);
    UpsertsAre(execs[..k], [cancel], cancel);
    hide Windowed, UpsertedAll, FetchedAfter, Holds, Happened;
    assert HasKey(bucket, cancel) by {
      assert SameKey([cancel][0], cancel);
    }
    LastIsLatest(bucket, cancel);
    RebuildIsExact(accountId, marketId, trades, execs, epoch, bucket, n, exchange, hist);
  }

  /** A stored fill can overrun its sibling: when the next trade is of the same millisecond, the rebuild
      starts behind both. */
  lemma SiblingFillIsLost(accountId: int, marketId: int, trades: seq<UserTrade>, execs: seq<Execution>, epoch: int,
                          k: nat, n: nat, exchange: Exchange, hist: seq<Execution>)
    requires Ledger(accountId, marketId, trades, execs) && exchange.trades == trades
    requires Happened(execs, exchange.nowMs, n) && k + 1 < n && Due(execs[k], epoch)
    requires execs[k].timestamp == execs[k + 1].timestamp
    requires FetchedAfter(accountId, marketId, execs[..k + 1], exchange, hist)
    ensures !Holds(UpsertedAll(execs[..k + 1], hist), execs, epoch, n)
  {
    hide Windowed, UpsertedAll, FetchedAfter, Holds, Ledger, KeySorted;
    LedgerTrades(accountId, marketId, trades, execs);
    LedgerReports(execs, k + 1);
    RebuildIsExact(accountId, marketId, trades, execs, epoch, execs[..k + 1], n, exchange, hist);
    assert LastTimestamp(execs[..k + 1]).value == execs[k].timestamp;
    assert !HasKey(execs[..k + 1], execs[k + 1]);
  }

  lemma PairIsLedger(accountId: int, marketId: int, t: UserTrade, u: UserTrade)
    requires 0 < t.timeMs && (t.timeMs < u.timeMs || (t.timeMs == u.timeMs && TextLess(t.id, u.id)))
    ensures Ledger(accountId, marketId, [t, u],
                   [ToExecution(accountId, marketId, t), ToExecution(accountId, marketId, u)])
  {
    var first, second := ToExecution(accountId, marketId, t), ToExecution(accountId, marketId, u);
    assert [t, u][0] in [t, u] && [t, u][1] in [t, u];
    assert [first, second][0] in [first, second] && [first, second][1] in [first, second];
    assert IsTraded(accountId, marketId, [t, u], first) && IsTraded(accountId, marketId, [t, u], second);
  }

  /** One taker order against two makers: its fills share a millisecond, the first is stored before the
      disconnect, and the rebuild fetches nothing although no page is cut. */
  lemma TwoFillsOneMillisecond(accountId: int, marketId: int, t: UserTrade, u: UserTrade, hist: seq<Execution>)
    requires t.timeMs == 1 && u.timeMs == 1 && TextLess(t.id, u.id)
    ensures var first, second := ToExecution(accountId, marketId, t), ToExecution(accountId, marketId, u);
      var exchange := Exchange([t, u], 2);
      && Ledger(accountId, marketId, [t, u], [first, second]) && Happened([first, second], 2, 2)
      && UncutAfter([first], exchange)
      && (FetchedAfter(accountId, marketId, [first], exchange, hist) ==> hist == [])
      && !HasKey([first], second)
  {
    hide Windowed, NothingCut, Ledger;
    SiblingIsNotFetched(t, u);
    TextOrder(t.id, u.id);
    PairIsLedger(accountId, marketId, t, u);
  }

  /** Both trades were made before anything was stored: the rebuild brings neither. */
  lemma EmptyStoreStaysEmpty(accountId: int, marketId: int, t: UserTrade, u: UserTrade, hist: seq<Execution>)
    requires t.timeMs == 1 && u.timeMs == 2
    ensures var execs := [ToExecution(accountId, marketId, t), ToExecution(accountId, marketId, u)];
      && Ledger(accountId, marketId, [t, u], execs) && Happened(execs, 2, 2)
      && (FetchedAfter(accountId, marketId, [], Exchange([t, u], 2), hist)
          ==> !Holds(UpsertedAll([], hist), execs, 0, 2))
  {
    var execs := [ToExecution(accountId, marketId, t), ToExecution(accountId, marketId, u)];
    PairIsLedger(accountId, marketId, t, u);
    if FetchedAfter(accountId, marketId, [], Exchange([t, u], 2), hist) {
      assert Reports([], execs) && Due(execs[0], 0);
      hide Windowed, UpsertedAll, FetchedAfter, Holds, Ledger;
      RebuildIsExact(accountId, marketId, [t, u], execs, 0, [], 2, Exchange([t, u], 2), hist);
    }
  }

  lemma LastIsLatest(bucket: seq<Execution>, e: Execution)
    requires KeySorted(bucket) && HasKey(bucket, e)
    ensures LastTimestamp(bucket).Some? && e.timestamp <= LastTimestamp(bucket).value
  {
    var i :| 0 <= i < |bucket| && SameKey(bucket[i], e);
    assert i == |bucket| - 1 || KeyLess(bucket[i], bucket[|bucket| - 1]);
  }

  /** Of the executions that have happened by a rebuild, each is stored, or was delivered, or is later than
      every report stored or delivered. */
  ghost predicate InTime(bucket: seq<Execution>, live: seq<Execution>, execs: seq<Execution>, epoch: int, k: nat) {
    forall x :: 0 <= x < |execs| && Due(execs[x], epoch) ==>
      var known := HasKey(bucket, execs[x]) || HasKey(live, execs[x]);
      if x < k then known || (bucket + live != [] && AllEarlier(bucket, execs[x]) && AllEarlier(live, execs[x]))
      else !known
  }

  ghost predicate AllEarlier(es: seq<Execution>, x: Execution) {
    forall i :: 0 <= i < |es| ==> es[i].timestamp < x.timestamp
  }

  lemma LastIsBefore(bucket: seq<Execution>, live: seq<Execution>, x: Execution)
    requires KeySorted(bucket)
    ensures var all := UpsertedAll(bucket, live);
      && (all != [] <==> bucket + live != [])
      && (all != [] ==> (LastTimestamp(all).value < x.timestamp <==> AllEarlier(bucket, x) && AllEarlier(live, x)))
  {
    var all := UpsertedAll(bucket, live);
    UpsertsKeepSorted(bucket, live);
    forall i | 0 <= i < |bucket| ensures all != [] && bucket[i].timestamp <= LastTimestamp(all).value {
      UpsertsAre(bucket, live, bucket[i]);
      assert HasKey(bucket, bucket[i]);
      LastIsLatest(all, bucket[i]);
    }
    forall i | 0 <= i < |live| ensures all != [] && live[i].timestamp <= LastTimestamp(all).value {
      UpsertsAre(bucket, live, live[i]);
      assert HasKey(live, live[i]);
      LastIsLatest(all, live[i]);
    }
    if all != [] {
      UpsertsAre(bucket, live, all[|all| - 1]);
    }
  }

  lemma InTimeIffNothingOverrun(bucket: seq<Execution>, live: seq<Execution>, execs: seq<Execution>, epoch: int, k: nat)
    requires KeySorted(bucket)
    ensures NothingOverrun(UpsertedAll(bucket, live), execs, epoch, k) <==> InTime(bucket, live, execs, epoch, k)
  {
    hide KeySorted, HasKey, UpsertedAll, AllEarlier;
    var all := UpsertedAll(bucket, live);
    forall x | 0 <= x < |execs|
      ensures HasKey(all, execs[x]) <==> HasKey(bucket, execs[x]) || HasKey(live, execs[x])
      ensures all != [] <==> bucket + live != []
      ensures all != [] ==>
        (LastTimestamp(all).value < execs[x].timestamp <==> AllEarlier(bucket, execs[x]) && AllEarlier(live, execs[x]))
      ensures all == [] ==> !HasKey(all, execs[x])
    {
      UpsertsAre(bucket, live, execs[x]);
      LastIsBefore(bucket, live, execs[x]);
      EmptyHasNoKey(execs[x]);
    }
  }

  // ---------- whole runs ----------

  /** Connections to this exchange: they deliver its reports, and so much had happened at their rebuilds. */
  ghost predicate Connected(trades: seq<UserTrade>, execs: seq<Execution>, sessions: seq<Session>, happened: seq<nat>)
    requires |happened| == |sessions|
  {
    sessions == [] || (
      var n := |sessions| - 1;
      && Connected(trades, execs, sessions[..n], happened[..n])
      && sessions[n].exchange.trades == trades && Happened(execs, sessions[n].exchange.nowMs, happened[n])
      && Reports(sessions[n].live, execs))
  }

  /** No fetch of the run is cut. */
  ghost predicate Uncut(bucket: seq<Execution>, sessions: seq<Session>, hists: seq<seq<Execution>>)
    requires |sessions| == |hists|
  {
    sessions == [] || (
      var n := |sessions| - 1;
      && Uncut(bucket, sessions[..n], hists[..n])
      && UncutAfter(UpsertedAll(StoreAfter(bucket, sessions[..n], hists[..n]), sessions[n].live), sessions[n].exchange))
  }

  /** So it is on every ledger with distinct milliseconds, and on every one where a thousand and one
      trades never fall within seven days. */
  lemma {:induction false} RunIsUncut(trades: seq<UserTrade>, execs: seq<Execution>, bucket: seq<Execution>,
                                      sessions: seq<Session>, happened: seq<nat>, hists: seq<seq<Execution>>)
    requires |happened| == |sessions| == |hists| && Connected(trades, execs, sessions, happened)
    requires TimeOrdered(trades) && (DistinctTimes(trades) || Sparse(trades))
    ensures Uncut(bucket, sessions, hists)
  {
    if sessions != [] {
      hide UpsertedAll, DistinctTimes, Sparse, Happened, Reports, TimeOrdered, CleanWindows;
      var n := |sessions| - 1;
      RunIsUncut(trades, execs, bucket, sessions[..n], happened[..n], hists[..n]);
      var before := UpsertedAll(StoreAfter(bucket, sessions[..n], hists[..n]), sessions[n].live);
      if before != [] {
        var start := TruncThousand(LastTimestamp(before).value) + 1;
        if DistinctTimes(trades) {
          DistinctIsClean(trades, start, sessions[n].exchange.nowMs);
        } else {
          SparseIsClean(trades, start, sessions[n].exchange.nowMs);
        }
      }
    }
  }

  /** Everything stored at first or delivered since. */
  function Reported(bucket: seq<Execution>, sessions: seq<Session>): seq<Execution> {
    if sessions == [] then bucket
    else Reported(bucket, sessions[..|sessions| - 1]) + sessions[|sessions| - 1].live
  }

  /** Some rebuild found execs[x] happened and later than every report until then, of which there was one. */
  ghost predicate Recovered(bucket: seq<Execution>, sessions: seq<Session>, happened: seq<nat>,
                            execs: seq<Execution>, x: nat)
    requires |happened| == |sessions| && x < |execs|
  {
    sessions != [] && (
      var n := |sessions| - 1;
      || Recovered(bucket, sessions[..n], happened[..n], execs, x)
      || (x < happened[n] && Reported(bucket, sessions) != [] && AllEarlier(Reported(bucket, sessions), execs[x])))
  }

  /** What a run should have of the ledger, told from its inputs alone. */
  ghost predicate Retained(bucket: seq<Execution>, sessions: seq<Session>, happened: seq<nat>,
                       execs: seq<Execution>, x: nat)
    requires |happened| == |sessions| && x < |execs|
  {
    HasKey(Reported(bucket, sessions), execs[x]) || Recovered(bucket, sessions, happened, execs, x)
  }

  /** A store against what has been reported: e is stored only if it is to be kept. */
  ghost predicate Tracks(store: seq<Execution>, reported: seq<Execution>, kept: bool, e: Execution) {
    && KeySorted(store) && (store != [] ==> reported != [])
    && (forall i :: 0 <= i < |reported| ==> HasKey(store, reported[i]))
    && (HasKey(store, e) ==> kept)
  }

  /** It is stored if it is to be kept; and whatever made the store overrun it was a report. */
  ghost predicate TracksExactly(store: seq<Execution>, reported: seq<Execution>, kept: bool, e: Execution) {
    && (kept ==> HasKey(store, e))
    && (AllEarlier(reported, e) && store != [] && e.timestamp <= LastTimestamp(store).value ==> HasKey(store, e))
  }

  lemma StoreKeeps(store: seq<Execution>, es: seq<Execution>, x: Execution)
    requires KeySorted(store)
    ensures KeySorted(UpsertedAll(store, es))
    ensures HasKey(UpsertedAll(store, es), x) <==> HasKey(store, x) || HasKey(es, x)
    ensures UpsertedAll(store, es) != [] <==> store + es != []
    ensures UpsertedAll(store, es) != [] ==>
      var last := LastTimestamp(UpsertedAll(store, es)).value;
      (store != [] && last <= LastTimestamp(store).value) || exists e :: e in es && e.timestamp == last
  {
    var all := UpsertedAll(store, es);
    UpsertsAre(store, es, x);
    LastIsBefore(store, es, x);
    if all != [] {
      var last := all[|all| - 1];
      UpsertsAre(store, es, last);
      if last in store {
        MemberHasKey(store, last, last);
        hide UpsertedAll, KeySorted;
        LastIsLatest(store, last);
      }
    }
  }

  lemma EarlierParts(a: seq<Execution>, b: seq<Execution>, e: Execution)
    ensures AllEarlier(a + b, e) <==> AllEarlier(a, e) && AllEarlier(b, e)
  {
    if AllEarlier(a + b, e) {
      forall i | 0 <= i < |a| ensures a[i].timestamp < e.timestamp { assert (a + b)[i] == a[i]; }
      forall i | 0 <= i < |b| ensures b[i].timestamp < e.timestamp { assert (a + b)[|a| + i] == b[i]; }
    }
  }

  lemma LiveTracks(store: seq<Execution>, reported: seq<Execution>, kept: bool, e: Execution, live: seq<Execution>)
    requires Tracks(store, reported, kept, e)
    ensures var after := UpsertedAll(store, live);
      && Tracks(after, reported + live, kept || HasKey(live, e), e)
      && (TracksExactly(store, reported, kept, e)
          ==> TracksExactly(after, reported + live, kept || HasKey(live, e), e))
  {
    hide UpsertedAll, KeySorted, HasKey, LastTimestamp;
    var all := reported + live;
    forall i | 0 <= i < |all| ensures HasKey(UpsertedAll(store, live), all[i]) {
      StoreKeeps(store, live, all[i]);
      if i >= |reported| { MemberHasKey(live, all[i], all[i]); }
    }
    StoreKeeps(store, live, e);
    EarlierParts(reported, live, e);
  }

  lemma HistoryTracks(store: seq<Execution>, reported: seq<Execution>, kept: bool, e: Execution,
                      hist: seq<Execution>, happened: bool)
    requires Tracks(store, reported, kept, e) && (store == [] ==> hist == [])
    requires HasKey(hist, e) ==> happened && store != [] && LastTimestamp(store).value < e.timestamp
    requires forall h :: h in hist && e.timestamp <= h.timestamp ==> happened
    ensures var after, recovered := UpsertedAll(store, hist), happened && reported != [] && AllEarlier(reported, e);
      && Tracks(after, reported, kept || recovered, e)
      && (TracksExactly(store, reported, kept, e)
          && (happened && store != [] && LastTimestamp(store).value < e.timestamp ==> HasKey(hist, e))
          ==> TracksExactly(after, reported, kept || recovered, e))
  {
    forall i | 0 <= i < |reported| && store != []
      ensures reported[i].timestamp <= LastTimestamp(store).value
    {
      LastIsLatest(store, reported[i]);
    }
    hide UpsertedAll, KeySorted, HasKey, LastTimestamp;
    forall i | 0 <= i < |reported| ensures HasKey(UpsertedAll(store, hist), reported[i]) {
      StoreKeeps(store, hist, reported[i]);
    }
    StoreKeeps(store, hist, e);
    EmptyHasNoKey(e);
    if reported != [] {
      EmptyHasNoKey(reported[0]);
    }
  }

  lemma HasKeyOfParts(a: seq<Execution>, b: seq<Execution>, e: Execution)
    ensures HasKey(a + b, e) <==> HasKey(a, e) || HasKey(b, e)
  {
    if HasKey(a + b, e) {
      var i :| 0 <= i < |a + b| && SameKey((a + b)[i], e);
      assert i < |a| || SameKey(b[i - |a|], e);
    }
    if HasKey(a, e) {
      var i :| 0 <= i < |a| && SameKey(a[i], e);
      assert SameKey((a + b)[i], e);
    }
    if HasKey(b, e) {
      var i :| 0 <= i < |b| && SameKey(b[i], e);
      assert SameKey((a + b)[|a| + i], e);
    }
  }

  /** One connection and its rebuild. */
  lemma SessionTracks(accountId: int, marketId: int, trades: seq<UserTrade>, execs: seq<Execution>,
                      store: seq<Execution>, reported: seq<Execution>, kept: bool, x: nat,
                      s: Session, k: nat, hist: seq<Execution>)
    requires Ledger(accountId, marketId, trades, execs) && x < |execs| && Tracks(store, reported, kept, execs[x])
    requires s.exchange.trades == trades && Happened(execs, s.exchange.nowMs, k)
    requires FetchedAfter(accountId, marketId, UpsertedAll(store, s.live), s.exchange, hist)
    ensures var all, after := reported + s.live, UpsertedAll(UpsertedAll(store, s.live), hist);
      var stays := kept || HasKey(s.live, execs[x]) || (x < k && all != [] && AllEarlier(all, execs[x]));
      && Tracks(after, all, stays, execs[x])
      && (TracksExactly(store, reported, kept, execs[x]) && UncutAfter(UpsertedAll(store, s.live), s.exchange)
          ==> TracksExactly(after, all, stays, execs[x]))
  {
    hide Windowed, NothingCut, UpsertedAll, KeySorted, HasKey, Reports, Ledger, Converted, AllEarlier, TracksExactly;
    var live := UpsertedAll(store, s.live);
    LiveTracks(store, reported, kept, execs[x], s.live);
    EmptyHasNoKey(execs[x]);
    if live != [] {
      HistoryReports(accountId, marketId, trades, execs, k, s.exchange.nowMs, LastTimestamp(live).value, hist);
    }
    HistoryTracks(live, reported + s.live, kept || HasKey(s.live, execs[x]), execs[x], hist, x < k);
  }

  lemma {:induction false} RunTracks(accountId: int, marketId: int, trades: seq<UserTrade>, execs: seq<Execution>,
                                     bucket: seq<Execution>, sessions: seq<Session>, happened: seq<nat>,
                                     hists: seq<seq<Execution>>, x: nat)
    requires Ledger(accountId, marketId, trades, execs) && KeySorted(bucket) && x < |execs|
    requires |happened| == |sessions| == |hists| && Refetched(accountId, marketId, bucket, sessions, hists)
    requires Connected(trades, execs, sessions, happened)
    ensures var store, reported := StoreAfter(bucket, sessions, hists), Reported(bucket, sessions);
      var kept := Retained(bucket, sessions, happened, execs, x);
      && Tracks(store, reported, kept, execs[x])
      && (Uncut(bucket, sessions, hists) ==> TracksExactly(store, reported, kept, execs[x]))
  {
    if sessions == [] {
      forall i | 0 <= i < |bucket| ensures HasKey(bucket, bucket[i]) {
        MemberHasKey(bucket, bucket[i], bucket[i]);
      }
    } else {
      hide Windowed, UpsertedAll, HasKey, Ledger, Tracks, TracksExactly, Happened, AllEarlier, FetchedAfter, UncutAfter;
      var n := |sessions| - 1;
      var before, reported := StoreAfter(bucket, sessions[..n], hists[..n]), Reported(bucket, sessions[..n]);
      RunTracks(accountId, marketId, trades, execs, bucket, sessions[..n], happened[..n], hists[..n], x);
      SessionTracks(accountId, marketId, trades, execs, before, reported,
                    Retained(bucket, sessions[..n], happened[..n], execs, x), x, sessions[n], happened[n], hists[n]);
      HasKeyOfParts(reported, sessions[n].live, execs[x]);
    }
  }

  lemma {:induction false} RunReports(accountId: int, marketId: int, trades: seq<UserTrade>, execs: seq<Execution>,
                                      bucket: seq<Execution>, sessions: seq<Session>, happened: seq<nat>,
                                      hists: seq<seq<Execution>>)
    requires Ledger(accountId, marketId, trades, execs) && KeySorted(bucket) && Reports(bucket, execs)
    requires |happened| == |sessions| == |hists| && Refetched(accountId, marketId, bucket, sessions, hists)
    requires Connected(trades, execs, sessions, happened)
    ensures var store := StoreAfter(bucket, sessions, hists); KeySorted(store) && Reports(store, execs)
  {
    if sessions != [] {
      hide Windowed, UpsertedAll, Holds, KeySorted, Reports, Ledger, Happened, FetchedAfter, NothingOverrun;
      var n := |sessions| - 1;
      RunReports(accountId, marketId, trades, execs, bucket, sessions[..n], happened[..n], hists[..n]);
      var before := StoreAfter(bucket, sessions[..n], hists[..n]);
      UpsertsReport(before, sessions[n].live, execs);
      RebuildIsExact(accountId, marketId, trades, execs, 0, UpsertedAll(before, sessions[n].live), happened[n],
                     sessions[n].exchange, hists[n]);
    }
  }

  /** Any number of disconnects, whatever the connections delivered. A trade is stored after them only if
      it was stored at first, or delivered, or some rebuild found it later than every report until then,
      of which there was one; and exactly then when no page is cut. So what the last rebuild replays is
      the first n trades of the ledger exactly when, of those due, just these are to be kept. */
  lemma RunIsExact(accountId: int, marketId: int, trades: seq<UserTrade>, execs: seq<Execution>, epoch: int,
                   bucket: seq<Execution>, sessions: seq<Session>, happened: seq<nat>,
                   hists: seq<seq<Execution>>, n: nat)
    requires Ledger(accountId, marketId, trades, execs) && KeySorted(bucket) && Reports(bucket, execs)
    requires |happened| == |sessions| == |hists| && Refetched(accountId, marketId, bucket, sessions, hists)
    requires Connected(trades, execs, sessions, happened) && n <= |execs|
    ensures var store := StoreAfter(bucket, sessions, hists);
      && KeySorted(store) && Reports(store, execs)
      && (forall x :: 0 <= x < |execs| && HasKey(store, execs[x]) ==> Retained(bucket, sessions, happened, execs, x))
      && (Uncut(bucket, sessions, hists) ==>
            && (forall x :: 0 <= x < |execs| && Retained(bucket, sessions, happened, execs, x)
                  ==> HasKey(store, execs[x]))
            && (Holds(store, execs, epoch, n) <==>
                  forall x :: 0 <= x < |execs| && Due(execs[x], epoch)
                    ==> (Retained(bucket, sessions, happened, execs, x) <==> x < n)))
  {
    var store := StoreAfter(bucket, sessions, hists);
    RunReports(accountId, marketId, trades, execs, bucket, sessions, happened, hists);
    forall x | 0 <= x < |execs|
      ensures HasKey(store, execs[x]) ==> Retained(bucket, sessions, happened, execs, x)
      ensures Uncut(bucket, sessions, hists) && Retained(bucket, sessions, happened, execs, x)
        ==> HasKey(store, execs[x])
    {
      RunTracks(accountId, marketId, trades, execs, bucket, sessions, happened, hists, x);
    }
    hide Windowed, HasKey, Retained, Holds, Uncut, StoreAfter, Refetched, Connected, Reports;
    LedgerTrades(accountId, marketId, trades, execs);
    HoldsIffKeys(store, execs, epoch, n);
  }

  ghost predicate Undelivered(sessions: seq<Session>, x: Execution) {
    sessions == [] || (Undelivered(sessions[..|sessions| - 1], x) && !HasKey(sessions[|sessions| - 1].live, x))
  }

  /** Missing, and not later than the last stored report. */
  ghost predicate Overrun(bucket: seq<Execution>, x: Execution) {
    !HasKey(bucket, x) && LastTimestamp(bucket).Some? && x.timestamp <= LastTimestamp(bucket).value
  }

  lemma OverrunStays(bucket: seq<Execution>, es: seq<Execution>, x: Execution)
    requires KeySorted(bucket) && Overrun(bucket, x) && !HasKey(es, x)
    ensures Overrun(UpsertedAll(bucket, es), x)
  {
    var last := bucket[|bucket| - 1];
    UpsertsAre(bucket, es, x);
    UpsertsAre(bucket, es, last);
    assert HasKey(bucket, last);
    hide UpsertedAll, KeySorted, HasKey;
    LastIsLatest(UpsertedAll(bucket, es), last);
  }

  /** What has been overrun is lost to every later rebuild, unless a connection delivers it after all. */
  lemma {:induction false} OverrunIsLost(accountId: int, marketId: int, trades: seq<UserTrade>, execs: seq<Execution>,
                                         bucket: seq<Execution>, sessions: seq<Session>, happened: seq<nat>,
                                         hists: seq<seq<Execution>>, x: nat)
    requires Ledger(accountId, marketId, trades, execs) && KeySorted(bucket) && x < |execs|
    requires |happened| == |sessions| == |hists| && Refetched(accountId, marketId, bucket, sessions, hists)
    requires Connected(trades, execs, sessions, happened)
    requires Overrun(bucket, execs[x]) && Undelivered(sessions, execs[x])
    ensures var store := StoreAfter(bucket, sessions, hists); KeySorted(store) && Overrun(store, execs[x])
  {
    if sessions != [] {
      hide Windowed, UpsertedAll, KeySorted, Overrun, FetchedAfter, HasKey, Reports, Ledger, Happened;
      var n := |sessions| - 1;
      OverrunIsLost(accountId, marketId, trades, execs, bucket, sessions[..n], happened[..n], hists[..n], x);
      SessionKeepsOverrun(accountId, marketId, trades, execs, StoreAfter(bucket, sessions[..n], hists[..n]),
                          sessions[n], happened[n], hists[n], x);
    }
  }

  lemma SessionKeepsOverrun(accountId: int, marketId: int, trades: seq<UserTrade>, execs: seq<Execution>,
                            bucket: seq<Execution>, s: Session, k: nat, hist: seq<Execution>, x: nat)
    requires Ledger(accountId, marketId, trades, execs) && KeySorted(bucket) && x < |execs|
    requires s.exchange.trades == trades && Happened(execs, s.exchange.nowMs, k)
    requires FetchedAfter(accountId, marketId, UpsertedAll(bucket, s.live), s.exchange, hist)
    requires Overrun(bucket, execs[x]) && !HasKey(s.live, execs[x])
    ensures var store := UpsertedAll(UpsertedAll(bucket, s.live), hist); KeySorted(store) && Overrun(store, execs[x])
  {
    hide Windowed, UpsertedAll, KeySorted, HasKey, Reports, Ledger, Happened, Converted;
    var live := UpsertedAll(bucket, s.live);
    OverrunStays(bucket, s.live, execs[x]);
    UpsertsKeepSorted(bucket, s.live);
    HistoryReports(accountId, marketId, trades, execs, k, s.exchange.nowMs, LastTimestamp(live).value, hist);
    OverrunStays(live, hist, execs[x]);
    UpsertsKeepSorted(live, hist);
  }

  /** What was handed over at the start is applied but not stored: with the first k executions stored,
      those up to m handed over and those up to j delivered afterwards, the rebuild is exact only if
      nothing was handed over, or nothing came after it - and the next one, if any, is later than the
      last one stored, of which there is one. When no page is cut, exactly then. */
  lemma HandedOverAreLost(accountId: int, marketId: int, trades: seq<UserTrade>, execs: seq<Execution>, epoch: int,
                          k: nat, m: nat, j: nat, n: nat, exchange: Exchange, hist: seq<Execution>)
    requires Ledger(accountId, marketId, trades, execs) && exchange.trades == trades
    requires Happened(execs, exchange.nowMs, n) && k <= m <= j <= n
    requires forall x :: 0 <= x < |execs| ==> Due(execs[x], epoch)
    requires FetchedAfter(accountId, marketId, UpsertedAll(execs[..k], execs[m..j]), exchange, hist)
    ensures var live := UpsertedAll(execs[..k], execs[m..j]);
      var complete := Holds(UpsertedAll(live, hist), execs, epoch, n);
      && (complete ==> HandOverIsHarmless(execs, k, m, j, n))
      && (UncutAfter(live, exchange) ==> (complete <==> HandOverIsHarmless(execs, k, m, j, n)))
  {
    var bucket, live := execs[..k], execs[m..j];
    LedgerTrades(accountId, marketId, trades, execs);
    LedgerReports(execs, k);
    SliceReports(execs, m, j);
    UpsertsReport(bucket, live, execs);
    InTimeIffNothingOverrun(bucket, live, execs, epoch, n);
    hide Windowed, UpsertedAll, FetchedAfter, Holds, Happened, HasKey, Reports, NothingOverrun, HandOverIsHarmless;
    hide InTime, UncutAfter, OnlyTrades;
    RebuildIsExact(accountId, marketId, trades, execs, epoch, UpsertedAll(bucket, live), n, exchange, hist);
    HandedOverInTime(execs, epoch, k, m, j, n);
  }

  /** The first of two trades was handed over, the second delivered and stored: the rebuild does not bring
      the first. */
  lemma HandedOverTradeIsLost(accountId: int, marketId: int, t: UserTrade, u: UserTrade, hist: seq<Execution>)
    requires t.timeMs == 1 && u.timeMs == 2
    ensures var execs := [ToExecution(accountId, marketId, t), ToExecution(accountId, marketId, u)];
      var live := UpsertedAll([], [execs[1]]);
      && Ledger(accountId, marketId, [t, u], execs) && Happened(execs, 2, 2)
      && (FetchedAfter(accountId, marketId, live, Exchange([t, u], 2), hist)
          ==> !Holds(UpsertedAll(live, hist), execs, 0, 2))
  {
    hide Windowed, UpsertedAll, FetchedAfter, Holds, Ledger;
    var execs := [ToExecution(accountId, marketId, t), ToExecution(accountId, marketId, u)];
    PairIsLedger(accountId, marketId, t, u);
    assert execs[..0] == [] && execs[1..2] == [execs[1]];
    if FetchedAfter(accountId, marketId, UpsertedAll([], [execs[1]]), Exchange([t, u], 2), hist) {
      HandedOverAreLost(accountId, marketId, [t, u], execs, 0, 0, 1, 2, 2, Exchange([t, u], 2), hist);
    }
  }

  /** The stored ones are the first, up to a last one that is earlier than what has happened after it. */
  predicate HandOverIsHarmless(execs: seq<Execution>, k: nat, m: nat, j: nat, n: nat)
    requires k <= m <= j <= n <= |execs|
  {
    var stored := if k == m then j else k;
    && (k == m || j == m)
    && (stored < n ==> stored > 0 && execs[stored - 1].timestamp < execs[stored].timestamp)
  }

  lemma HandedOverInTime(execs: seq<Execution>, epoch: int, k: nat, m: nat, j: nat, n: nat)
    requires KeySorted(execs)
    requires k <= m <= j <= n <= |execs| && forall x :: 0 <= x < |execs| ==> Due(execs[x], epoch)
    requires forall x :: 0 <= x < |execs| ==> (HasKey(execs[..k], execs[x]) <==> x < k)
    requires forall x :: 0 <= x < |execs| ==> (HasKey(execs[m..j], execs[x]) <==> m <= x < j)
    ensures InTime(execs[..k], execs[m..j], execs, epoch, n) <==> HandOverIsHarmless(execs, k, m, j, n)
  {
    hide HasKey;
    var bucket, live := execs[..k], execs[m..j];
    var stored := if k == m then j else k;
    if k < m < j {
      assert live[0] == execs[m];
      assert !AllEarlier(live, execs[k]);
    } else if stored == n {
    } else if stored == 0 {
      assert bucket + live == [];
      assert !HasKey(bucket, execs[0]) && !HasKey(live, execs[0]);
    } else if execs[stored - 1].timestamp < execs[stored].timestamp {
      forall x | stored <= x < n ensures AllEarlier(bucket, execs[x]) && AllEarlier(live, execs[x]) {
      }
    } else {
      assert !HasKey(bucket, execs[stored]) && !HasKey(live, execs[stored]);
      assert stored == k || live[stored - 1 - m] == execs[stored - 1];
      assert stored != k || bucket[stored - 1] == execs[stored - 1];
      assert !AllEarlier(bucket, execs[stored]) || !AllEarlier(live, execs[stored]);
    }
  }

  /** The reports of cancelled orders are named apart from the numbered trades, so they are never mistaken for one. */
  lemma CancelReportIsForeign(accountId: int, marketId: int, trades: seq<UserTrade>, execs: seq<Execution>,
                              cancel: Execution)
    requires Converted(accountId, marketId, trades, execs)
    requires forall i :: 0 <= i < |trades| ==> trades[i].id != [] && IsDigit(trades[i].id[0])
    requires cancel.execType.XOrderCanceled? && "cancel:" <= cancel.nativeExecutionId
    ensures ReportOf(cancel, execs)
  {
    assert cancel.nativeExecutionId[0] == 'c';
  }

  // ---------- the start ----------

  /** In order of keys, equal keys allowed. */
  ghost predicate WeaklySorted(s: seq<Execution>) {
    forall i, j :: 0 <= i < j < |s| ==> !KeyLess(s[j], s[i])
  }

  lemma NotAfterLast(s: seq<Execution>, x: Execution, i: nat)
    requires WeaklySorted(s) && i < |s| && !KeyLess(x, s[|s| - 1])
    ensures !KeyLess(x, s[i])
  {
    var last := s[|s| - 1];
    if KeyLess(x, s[i]) {
      KeyOrder(s[i], last);
      if KeyLess(s[i], last) {
        KeyTransitive(x, s[i], last);
      }
    }
  }

  lemma {:induction false} InsertKeepsWeaklySorted(s: seq<Execution>, x: Execution)
    requires WeaklySorted(s)
    ensures WeaklySorted(StableInsert(ByKey, s, x))
  {
    if s == [] || !KeyLess(x, s[|s| - 1]) {
      forall i | 0 <= i < |s| ensures !KeyLess(x, s[i]) {
        NotAfterLast(s, x, i);
      }
    } else {
      var t, last := s[..|s| - 1], s[|s| - 1];
      InsertKeepsWeaklySorted(t, x);
      var u := StableInsert(ByKey, t, x);
      forall i | 0 <= i < |u| ensures !KeyLess(last, u[i]) {
        assert u[i] in multiset(u);
        if u[i] == x {
          KeyOrder(x, last);
        } else {
          var k :| 0 <= k < |t| && t[k] == u[i];
        }
      }
    }
  }

  lemma {:induction false} SortIsWeaklySorted(s: seq<Execution>)
    ensures WeaklySorted(StableSort(ByKey, s))
  {
    if s != [] {
      SortIsWeaklySorted(s[..|s| - 1]);
      InsertKeepsWeaklySorted(StableSort(ByKey, s[..|s| - 1]), s[|s| - 1]);
    }
  }

  lemma InsertLast(s: seq<Execution>, x: Execution)
    requires s == [] || !KeyLess(x, s[|s| - 1])
    ensures StableInsert(ByKey, s, x) == s + [x]
  {
  }

  lemma InsertBefore(t: seq<Execution>, last: Execution, x: Execution)
    requires KeyLess(x, last)
    ensures StableInsert(ByKey, t + [last], x) == StableInsert(ByKey, t, x) + [last]
  {
    assert (t + [last])[..|t|] == t;
  }

  /** What is not after the last of some sorted reports is not after the last of their trades. */
  lemma NotAfterLastTrade(s: seq<Execution>, x: Execution)
    requires WeaklySorted(s) && (s == [] || !KeyLess(x, s[|s| - 1]))
    ensures var b := BareTrades(s); b == [] || !KeyLess(Bare(x), b[|b| - 1])
  {
    var b := BareTrades(s);
    if b != [] {
      var i := BareFrom(s, b[|b| - 1]);
      NotAfterLast(s, x, i);
    }
  }

  /** What inserting a report does to the trades. */
  ghost predicate Inserts(s: seq<Execution>, r: seq<Execution>, x: Execution) {
    BareTrades(r) == if IsPositionChange(x.execType) then StableInsert(ByKey, BareTrades(s), Bare(x)) else BareTrades(s)
  }

  lemma InsertsLast(s: seq<Execution>, x: Execution)
    requires WeaklySorted(s) && (s == [] || !KeyLess(x, s[|s| - 1]))
    ensures Inserts(s, s + [x], x)
  {
    hide StableInsert, BareTrades, WeaklySorted;
    NotAfterLastTrade(s, x);
    InsertLast(BareTrades(s), Bare(x));
    BareSnoc(s, x);
  }

  lemma InsertsBefore(t: seq<Execution>, r: seq<Execution>, last: Execution, x: Execution)
    requires KeyLess(x, last) && Inserts(t, r, x)
    ensures Inserts(t + [last], r + [last], x)
  {
    hide StableInsert, BareTrades;
    InsertBefore(BareTrades(t), Bare(last), Bare(x));
    BareSnoc(r, last);
    BareSnoc(t, last);
  }

  /** Inserting into sorted reports is inserting into their trades. */
  lemma {:induction false} BareInsert(s: seq<Execution>, x: Execution)
    requires WeaklySorted(s)
    ensures Inserts(s, StableInsert(ByKey, s, x), x)
  {
    hide Inserts;
    if s == [] || !KeyLess(x, s[|s| - 1]) {
      InsertsLast(s, x);
    } else {
      var t, last := s[..|s| - 1], s[|s| - 1];
      BareInsert(t, x);
      InsertsBefore(t, StableInsert(ByKey, t, x), last, x);
      assert s == t + [last];
    }
  }

  /** Sorting and picking out the trades commute. */
  lemma {:induction false} BareSort(s: seq<Execution>)
    ensures BareTrades(StableSort(ByKey, s)) == StableSort(ByKey, BareTrades(s))
  {
    if s != [] {
      hide StableInsert;
      var p, e := s[..|s| - 1], s[|s| - 1];
      BareSort(p);
      SortIsWeaklySorted(p);
      BareInsert(StableSort(ByKey, p), e);
      assert (BareTrades(p) + [Bare(e)])[..|BareTrades(p)|] == BareTrades(p) + [] == BareTrades(p);
    }
  }

  /** Going online from a store that holds the first k executions, with any buffer: the trades applied are
      the first m exactly when what is left of the buffer has just the others, in any order and amid
      any other reports. */
  lemma GoesOnlineExactly(store: seq<Execution>, execs: seq<Execution>, epoch: int, k: nat, m: nat,
                          buffer: seq<Execution>)
    requires KeySorted(execs) && k <= m <= |execs| && Holds(store, execs, epoch, k)
    ensures BareTrades(StartApplied(store, epoch, buffer)) == BareTrades(Replayed(execs[..m], epoch))
      <==> multiset(BareTrades(DropStale(buffer, LastApplied(Replayed(store, epoch), epoch))))
           == multiset(BareTrades(Replayed(execs[k..m], epoch)))
  {
    var left := DropStale(buffer, LastApplied(Replayed(store, epoch), epoch));
    var first, rest := BareTrades(Replayed(execs[..k], epoch)), BareTrades(Replayed(execs[k..m], epoch));
    var mine := BareTrades(left);
    ReplayInTwoParts(execs, epoch, k, m);
    BareConcat(Replayed(store, epoch), StableSort(ByKey, left));
    BareSort(left);
    ReplayIsSorted(execs[k..m], epoch);
    hide BareTrades, Replayed, KeySorted;
    if multiset(mine) == multiset(rest) {
      SortedPermutation(rest, mine);
    }
    SameRest(first, StableSort(ByKey, mine), rest);
  }

  lemma SameRest(a: seq<Execution>, b: seq<Execution>, c: seq<Execution>)
    ensures a + b == a + c <==> b == c
  {
    assert (a + b)[|a|..] == b && (a + c)[|a|..] == c;
  }

  lemma ReplayInTwoParts(execs: seq<Execution>, epoch: int, k: nat, m: nat)
    requires KeySorted(execs) && k <= m <= |execs|
    ensures BareTrades(Replayed(execs[..m], epoch))
         == BareTrades(Replayed(execs[..k], epoch)) + BareTrades(Replayed(execs[k..m], epoch))
    ensures KeySorted(execs[k..m])
  {
    hide Replayed, After, BareTrades, KeySorted;
    SliceIsSorted(execs, 0, m);
    SliceIsSorted(execs, 0, k);
    SliceIsSorted(execs, k, m);
    assert execs[0..m] == execs[..m] && execs[0..k] == execs[..k];
    ReplayedIsAfter(execs[..m], epoch);
    ReplayedIsAfter(execs[..k], epoch);
    ReplayedIsAfter(execs[k..m], epoch);
    AfterInTwoParts(execs, k, m, Base(epoch));
  }

  lemma SliceIsSorted(execs: seq<Execution>, i: nat, j: nat)
    requires KeySorted(execs) && i <= j <= |execs|
    ensures KeySorted(execs[i..j])
  {
  }

  lemma AfterInTwoParts(execs: seq<Execution>, k: nat, m: nat, t: int)
    requires k <= m <= |execs|
    ensures BareTrades(After(execs[..m], t)) == BareTrades(After(execs[..k], t)) + BareTrades(After(execs[k..m], t))
  {
    hide After, BareTrades;
    assert execs[..m] == execs[..k] + execs[k..m];
    AfterConcat(execs[..k], execs[k..m], t);
    BareConcat(After(execs[..k], t), After(execs[k..m], t));
  }

  /** The start: from any store of reports the backfill restores the first k executions only if none due
      is missing at or before the restart point, and exactly then when no page is cut; and then, with any
      buffer, the trades applied when the account goes online are the first m exactly when what is left of
      the buffer has the others. */
  lemma StartIsExact(accountId: int, marketId: int, trades: seq<UserTrade>, execs: seq<Execution>, epoch: int,
                     bucket: seq<Execution>, k: nat, m: nat, nowMs: int, hist: seq<Execution>, buffer: seq<Execution>)
    requires Ledger(accountId, marketId, trades, execs) && Happened(execs, nowMs, k)
    requires KeySorted(bucket) && Reports(bucket, execs) && k <= m <= |execs|
    requires Converted(accountId, marketId,
                       Windowed(trades, TruncThousand(RestartPoint(bucket, epoch)) + 1, nowMs), hist)
    ensures var gtTs, store := RestartPoint(bucket, epoch), UpsertedAll(bucket, hist);
      && (Holds(store, execs, epoch, k) ==> Reaches(bucket, execs, epoch, gtTs, k))
      && (NothingCut(trades, gtTs, nowMs) ==>
            (Holds(store, execs, epoch, k) <==> Reaches(bucket, execs, epoch, gtTs, k)))
      && (Holds(store, execs, epoch, k) ==>
            (BareTrades(StartApplied(store, epoch, buffer)) == BareTrades(Replayed(execs[..m], epoch))
             <==> multiset(BareTrades(DropStale(buffer, LastApplied(Replayed(store, epoch), epoch))))
                  == multiset(BareTrades(Replayed(execs[k..m], epoch)))))
  {
    hide Windowed, NothingCut, Reaches, Reports, BareTrades, StartApplied, Replayed, Holds, UpsertedAll, Ledger;
    LedgerTrades(accountId, marketId, trades, execs);
    BackfillIsExact(accountId, marketId, trades, execs, epoch, bucket, k, nowMs, hist);
    var store := UpsertedAll(bucket, hist);
    if Holds(store, execs, epoch, k) {
      GoesOnlineExactly(store, execs, epoch, k, m, buffer);
    }
  }

  // ---------- positions ----------

  /** Equal amount, average price, volumes and count; and what the fees differ by is in the realized PnL. */
  predicate SameButFees(p: PositionState, q: PositionState) {
    p.(realized := 0.0, fees := 0.0) == q.(realized := 0.0, fees := 0.0) && p.realized + p.fees == q.realized + q.fees
  }

  function TotalFees(feePercent: real, contractSize: real, es: seq<Execution>): real {
    if es == [] then 0.0
    else
      TotalFees(feePercent, contractSize, es[..|es| - 1])
      + if Applies(es[|es| - 1]) then FeeOf(feePercent, contractSize, FillOf(es[|es| - 1])) else 0.0
  }

  lemma BookBare(p: PositionState, q: PositionState, f: Fill, g: Fill)
    requires SameButFees(p, q) && f.(fee := None) == g.(fee := None)
    ensures SameButFees(Book(p, f), Book(q, g))
    ensures Book(p, f).fees == p.fees + FeeOf(p.feePercent, p.contractSize, f)
  {
    hide NextAmount, NextAverage, ClosedQuantity, TradePnl, FeeOf, QuoteValue;
  }

  lemma ApplyBare(p: PositionState, q: PositionState, e: Execution)
    requires SameButFees(p, q)
    ensures SameButFees(Apply(p, e), if IsPositionChange(e.execType) then Apply(q, Bare(e)) else q)
    ensures Apply(p, e).fees == p.fees + if Applies(e) then FeeOf(p.feePercent, p.contractSize, FillOf(e)) else 0.0
    ensures Apply(p, e).feePercent == p.feePercent && Apply(p, e).contractSize == p.contractSize
  {
    if Applies(e) {
      BookBare(p, q, FillOf(e), FillOf(Bare(e)));
      hide NextAmount, NextAverage, ClosedQuantity, TradePnl, FeeOf, QuoteValue, SameButFees;
    }
  }

  lemma {:induction false} AppliesBare(p: PositionState, es: seq<Execution>)
    ensures SameButFees(ApplyAll(p, es), ApplyAll(p, BareTrades(es)))
    ensures ApplyAll(p, es).fees == p.fees + TotalFees(p.feePercent, p.contractSize, es)
    ensures ApplyAll(p, es).feePercent == p.feePercent && ApplyAll(p, es).contractSize == p.contractSize
  {
    if es != [] {
      hide Apply, SameButFees, Bare, FeeOf, FillOf, Applies;
      var prev, e := es[..|es| - 1], es[|es| - 1];
      AppliesBare(p, prev);
      ApplyBare(ApplyAll(p, prev), ApplyAll(p, BareTrades(prev)), e);
      assert (BareTrades(prev) + [Bare(e)])[..|BareTrades(prev)|] == BareTrades(prev) + [] == BareTrades(prev);
    } else {
      assert SameButFees(p, p);
    }
  }

  /** Positions from different copies of the same trades agree in everything but the split between fees
      and realized PnL, and are equal if and only if the copies charge the same total. */
  lemma CopiesAgree(p: PositionState, es: seq<Execution>, fs: seq<Execution>)
    requires BareTrades(es) == BareTrades(fs)
    ensures SameButFees(ApplyAll(p, es), ApplyAll(p, fs))
    ensures ApplyAll(p, es) == ApplyAll(p, fs)
      <==> TotalFees(p.feePercent, p.contractSize, es) == TotalFees(p.feePercent, p.contractSize, fs)
  {
    AppliesBare(p, es);
    AppliesBare(p, fs);
  }

  lemma TotalFeesSnoc(feePercent: real, contractSize: real, es: seq<Execution>, e: Execution)
    ensures TotalFees(feePercent, contractSize, es + [e])
         == TotalFees(feePercent, contractSize, es)
            + if Applies(e) then FeeOf(feePercent, contractSize, FillOf(e)) else 0.0
  {
    assert (es + [e])[..|es|] == es;
  }

  lemma {:induction false} TotalFeesConcat(feePercent: real, contractSize: real, a: seq<Execution>, b: seq<Execution>)
    ensures TotalFees(feePercent, contractSize, a + b)
         == TotalFees(feePercent, contractSize, a) + TotalFees(feePercent, contractSize, b)
  {
    if b == [] {
      assert a + b == a;
    } else {
      hide TotalFees, FeeOf, FillOf, Applies;
      var q, e := b[..|b| - 1], b[|b| - 1];
      TotalFeesConcat(feePercent, contractSize, a, q);
      TotalFeesSnoc(feePercent, contractSize, a + q, e);
      TotalFeesSnoc(feePercent, contractSize, q, e);
      assert b == q + [e];
      AppendThree(a, q, [e]);
    }
  }

  /** A stored placeholder, which keeps the full report of its trade out of the store, leaves the same
      position if and only if the commission it lacks is none or is the one computed from the rate. */
  lemma PlaceholderLeavesFee(p: PositionState, a: seq<Execution>, e: Execution, b: seq<Execution>)
    requires Applies(e)
    ensures var full, held := a + [e] + b, a + [e.(fee := 0.0)] + b;
      && SameButFees(ApplyAll(p, held), ApplyAll(p, full))
      && (ApplyAll(p, held) == ApplyAll(p, full)
          <==> e.fee == 0.0 || e.fee == BaseFee(p.feePercent, p.contractSize, SignedQty(e), e.lastPx))
  {
    hide ApplyAll, TotalFees, BareTrades, BaseFee, FeeOf, SameButFees;
    PlaceholderIsCopy(a, e, b);
    CopiesAgree(p, a + [e.(fee := 0.0)] + b, a + [e] + b);
    TotalAround(p.feePercent, p.contractSize, a, e, b);
    TotalAround(p.feePercent, p.contractSize, a, e.(fee := 0.0), b);
    PlaceholderFee(p.feePercent, p.contractSize, e);
  }

  /** One unit bought at a commission of one, from a flat position whose own rate is zero. */
  lemma PlaceholderForgetsFee(e: Execution)
    requires e.execType.XTrade? && e.side.Buy? && e.lastQty == 1.0 && e.lastPx == 1.0 && e.fee == 1.0
    ensures var p := NewPosition(0.0, 1.0);
      && ApplyAll(p, [e]) != ApplyAll(p, [e.(fee := 0.0)])
      && SameButFees(ApplyAll(p, [e.(fee := 0.0)]), ApplyAll(p, [e]))
  {
    hide ApplyAll, SameButFees;
    PlaceholderLeavesFee(NewPosition(0.0, 1.0), [], e, []);
    assert [] + [e] + [] == [e] && [] + [e.(fee := 0.0)] + [] == [e.(fee := 0.0)];
  }

  lemma PlaceholderIsCopy(a: seq<Execution>, e: Execution, b: seq<Execution>)
    ensures BareTrades(a + [e.(fee := 0.0)] + b) == BareTrades(a + [e] + b)
  {
    hide BareTrades;
    BareSnoc(a, e);
    BareSnoc(a, e.(fee := 0.0));
    BareConcat(a + [e], b);
    BareConcat(a + [e.(fee := 0.0)], b);
  }

  lemma PlaceholderFee(feePercent: real, contractSize: real, e: Execution)
    ensures FeeOf(feePercent, contractSize, FillOf(e))
         == if e.fee == 0.0 then BaseFee(feePercent, contractSize, SignedQty(e), e.lastPx) else e.fee
    ensures FeeOf(feePercent, contractSize, FillOf(e.(fee := 0.0)))
         == BaseFee(feePercent, contractSize, SignedQty(e), e.lastPx)
  {
    hide BaseFee;
  }

  lemma TotalAround(feePercent: real, contractSize: real, a: seq<Execution>, e: Execution, b: seq<Execution>)
    requires Applies(e)
    ensures TotalFees(feePercent, contractSize, a + [e] + b)
         == TotalFees(feePercent, contractSize, a) + FeeOf(feePercent, contractSize, FillOf(e))
            + TotalFees(feePercent, contractSize, b)
  {
    hide TotalFees, FeeOf;
    TotalFeesSnoc(feePercent, contractSize, a, e);
    TotalFeesConcat(feePercent, contractSize, a + [e], b);
  }

  /** So the position a store replays is the ledger's fold, up to what placeholders did not charge. */
  lemma HeldIsFold(store: seq<Execution>, execs: seq<Execution>, epoch: int, n: nat, zero: PositionState)
    requires n <= |execs| && Holds(store, execs, epoch, n)
    ensures var mine, theirs := Replayed(store, epoch), Replayed(execs[..n], epoch);
      && SameButFees(ApplyAll(zero, mine), ApplyAll(zero, theirs))
      && (ApplyAll(zero, mine) == ApplyAll(zero, theirs)
          <==> TotalFees(zero.feePercent, zero.contractSize, mine)
               == TotalFees(zero.feePercent, zero.contractSize, theirs))
  {
    CopiesAgree(zero, Replayed(store, epoch), Replayed(execs[..n], epoch));
  }
}
