/**
 The Postgres executions datastore of src/trading/account_state/mod.rs, which the application runs its
 accounts on. It keeps only trades, drops the fields only a live report carries, and on a known key
 overwrites the fee where the in-memory store keeps its first copy. The functions speak of the rows of
 one account and market in key order; a query returns them ordered by time alone.
 */
module PostgresStores {
  import opened Common
  import opened Positions
  import opened Executions
  import opened ExecutionStores
  import opened HistoryPaging
  import opened AccountReplay
  import opened AccountStates
  import opened AccountRuns

  /** What a row keeps of a trade, as `load_range` gives it back. */
  function RowOf(e: Execution): Execution {
    Bare(e).(fee := e.fee)
  }

  /** The rows with the fee of one of them overwritten. */
  function Charged(rows: seq<Execution>, e: Execution): (r: seq<Execution>)
    ensures |r| == |rows|
  {
    if rows == [] then []
    else
      var n := |rows| - 1;
      Charged(rows[..n], e) + [if SameKey(rows[n], e) then rows[n].(fee := e.fee) else rows[n]]
  }

  function RowsUpserted(rows: seq<Execution>, e: Execution): seq<Execution> {
    if !e.execType.XTrade? then rows
    else if HasKey(rows, e) then Charged(rows, e)
    else StableSort(ByKey, rows + [RowOf(e)])
  }

  function RowsUpsertedAll(rows: seq<Execution>, es: seq<Execution>): seq<Execution> {
    if es == [] then rows else RowsUpserted(RowsUpsertedAll(rows, es[..|es| - 1]), es[|es| - 1])
  }

  /** In whatever order a query returns rows of one time, what is replayed is the same. */
  lemma AnyOrderReplays(rows: seq<Execution>, epoch: int, answer: seq<Execution>)
    requires KeySorted(rows) && multiset(answer) == multiset(After(rows, Base(epoch)))
    ensures StableSort(ByKey, answer) == Replayed(rows, epoch)
  {
    AfterIsSorted(rows, Base(epoch));
    ReplayedIsAfter(rows, epoch);
    SortedPermutation(After(rows, Base(epoch)), answer);
  }

  // ---------- the rows are the in-memory bucket of the trades, but for their fees ----------

  predicate Matches(rows: seq<Execution>, bucket: seq<Execution>) {
    |rows| == |bucket| && forall i :: 0 <= i < |rows| ==> Bare(rows[i]) == Bare(bucket[i])
  }

  function Trades(es: seq<Execution>): seq<Execution> {
    if es == [] then []
    else
      var p, e := Trades(es[..|es| - 1]), es[|es| - 1];
      if e.execType.XTrade? then p + [e] else p
  }

  lemma {:induction false} ChargedMatches(rows: seq<Execution>, e: Execution)
    ensures Matches(Charged(rows, e), rows)
  {
    if rows != [] {
      ChargedMatches(rows[..|rows| - 1], e);
    }
  }

  lemma MatchesOrder(rows: seq<Execution>, bucket: seq<Execution>)
    requires Matches(rows, bucket)
    ensures forall i :: 0 <= i < |rows| ==> SameKey(rows[i], bucket[i])
    ensures LastTimestamp(rows) == LastTimestamp(bucket)
    ensures KeySorted(rows) <==> KeySorted(bucket)
  {
    forall i | 0 <= i < |rows| ensures SameKey(rows[i], bucket[i]) {
      assert Bare(rows[i]) == Bare(bucket[i]);
    }
  }

  lemma MatchesKeys(rows: seq<Execution>, bucket: seq<Execution>, x: Execution)
    requires Matches(rows, bucket)
    ensures HasKey(rows, x) <==> HasKey(bucket, x)
  {
    MatchesOrder(rows, bucket);
    if HasKey(rows, x) {
      var i :| 0 <= i < |rows| && SameKey(rows[i], x);
      assert SameKey(bucket[i], x);
    }
    if HasKey(bucket, x) {
      var i :| 0 <= i < |bucket| && SameKey(bucket[i], x);
      assert SameKey(rows[i], x);
    }
  }

  function Bares(es: seq<Execution>): seq<Execution> {
    seq(|es|, i requires 0 <= i < |es| => Bare(es[i]))
  }

  /** Sorted reports with the same trades erased to the same are the same one by one. */
  lemma SortedMatches(r: seq<Execution>, s: seq<Execution>)
    requires KeySorted(r) && KeySorted(s)
    requires forall e :: e in r ==> Bare(e) in Bares(s)
    requires forall e :: e in s ==> Bare(e) in Bares(r)
    ensures Matches(r, s)
  {
    assert KeySorted(Bares(r)) && KeySorted(Bares(s));
    forall y ensures y in Bares(r) <==> y in Bares(s) {
      if y in Bares(r) {
        var i :| 0 <= i < |r| && Bares(r)[i] == y;
        assert r[i] in r;
      }
      if y in Bares(s) {
        var i :| 0 <= i < |s| && Bares(s)[i] == y;
        assert s[i] in s;
      }
    }
    SortedIsUnique(Bares(r), Bares(s));
    forall i | 0 <= i < |r| ensures Bare(r[i]) == Bare(s[i]) {
      assert Bares(r)[i] == Bares(s)[i];
    }
  }

  lemma InsertedRows(rows: seq<Execution>, e: Execution)
    requires KeySorted(rows) && !HasKey(rows, e)
    ensures var r := StableSort(ByKey, rows + [RowOf(e)]);
      KeySorted(r) && forall x :: x in r <==> x in rows || x == RowOf(e)
  {
    hide StableSort;
    SortedHasDistinctKeys(rows);
    assert forall i :: 0 <= i < |rows| ==> !SameKey(rows[i], RowOf(e));
    SortIsSorted(ByKey, rows + [RowOf(e)]);
    SameElements(StableSort(ByKey, rows + [RowOf(e)]), rows + [RowOf(e)]);
  }

  lemma BareMember(es: seq<Execution>, e: Execution)
    requires e in es
    ensures Bare(e) in Bares(es)
  {
    var i :| 0 <= i < |es| && es[i] == e;
    assert Bares(es)[i] == Bare(e);
  }

  lemma UpsertMatches(rows: seq<Execution>, bucket: seq<Execution>, e: Execution)
    requires Matches(rows, bucket) && KeySorted(bucket) && e.execType.XTrade?
    ensures Matches(RowsUpserted(rows, e), Upserted(bucket, e)) && KeySorted(Upserted(bucket, e))
  {
    MatchesKeys(rows, bucket, e);
    MatchesOrder(rows, bucket);
    UpsertedIsSorted(bucket, e);
    if HasKey(rows, e) {
      ChargedMatches(rows, e);
    } else {
      InsertedRows(rows, e);
      hide Upserted, StableSort, HasKey, KeySorted;
      InsertedMatch(rows, bucket, e, RowsUpserted(rows, e), Upserted(bucket, e));
    }
  }

  lemma InsertedMatch(rows: seq<Execution>, bucket: seq<Execution>, e: Execution,
                      r: seq<Execution>, s: seq<Execution>)
    requires Matches(rows, bucket) && KeySorted(r) && KeySorted(s)
    requires forall x :: x in r <==> x in rows || x == RowOf(e)
    requires forall x :: x in s <==> x in bucket || x == e
    ensures Matches(r, s)
  {
    hide KeySorted;
    forall x | x in r ensures Bare(x) in Bares(s) {
      if x in rows {
        var i :| 0 <= i < |rows| && rows[i] == x;
        assert bucket[i] in bucket;
        BareMember(s, bucket[i]);
      } else {
        BareMember(s, e);
      }
    }
    forall x | x in s ensures Bare(x) in Bares(r) {
      if x in bucket {
        var i :| 0 <= i < |bucket| && bucket[i] == x;
        assert rows[i] in rows;
        BareMember(r, rows[i]);
      } else {
        BareMember(r, RowOf(e));
      }
    }
    hide Bares, Matches;
    SortedMatches(r, s);
  }

  /** Whatever is upserted, the rows are - but for their fees - what the in-memory store would hold had
      only the trades been delivered. */
  lemma {:induction false} RowsMatchTrades(rows: seq<Execution>, bucket: seq<Execution>, es: seq<Execution>)
    requires Matches(rows, bucket) && KeySorted(bucket)
    ensures Matches(RowsUpsertedAll(rows, es), UpsertedAll(bucket, Trades(es)))
    ensures KeySorted(UpsertedAll(bucket, Trades(es)))
  {
    if es != [] {
      hide RowsUpserted, Upserted, Matches, KeySorted;
      var p, e := es[..|es| - 1], es[|es| - 1];
      RowsMatchTrades(rows, bucket, p);
      if e.execType.XTrade? {
        UpsertMatches(RowsUpsertedAll(rows, p), UpsertedAll(bucket, Trades(p)), e);
        assert (Trades(p) + [e])[..|Trades(p)|] == Trades(p);
      } else {
        IgnoresOthers(RowsUpsertedAll(rows, p), e);
      }
    }
  }

  lemma IgnoresOthers(rows: seq<Execution>, e: Execution)
    requires !e.execType.XTrade?
    ensures RowsUpserted(rows, e) == rows
  {
  }

  // ---------- fees ----------

  /** es[k] is the last copy of this trade. */
  predicate IsLastCopy(es: seq<Execution>, k: nat, r: Execution)
    requires k < |es|
  {
    && es[k].execType.XTrade? && SameKey(es[k], r)
    && forall j :: k < j < |es| && es[j].execType.XTrade? ==> !SameKey(es[j], r)
  }

  ghost predicate ChargesLastCopy(es: seq<Execution>, r: Execution) {
    exists k :: 0 <= k < |es| && IsLastCopy(es, k, r) && r.fee == es[k].fee
  }

  lemma {:induction false} ChargedMember(rows: seq<Execution>, e: Execution, r: Execution)
    requires r in Charged(rows, e)
    ensures if SameKey(r, e) then r.fee == e.fee else r in rows
  {
    var n := |rows| - 1;
    if r in Charged(rows[..n], e) {
      ChargedMember(rows[..n], e, r);
    } else {
      assert r == if SameKey(rows[n], e) then rows[n].(fee := e.fee) else rows[n];
    }
  }

  lemma LastCopySnoc(es: seq<Execution>, e: Execution, r: Execution)
    ensures e.execType.XTrade? && SameKey(e, r) && r.fee == e.fee ==> ChargesLastCopy(es + [e], r)
    ensures !(e.execType.XTrade? && SameKey(e, r)) && ChargesLastCopy(es, r) ==> ChargesLastCopy(es + [e], r)
  {
    var longer := es + [e];
    if e.execType.XTrade? && SameKey(e, r) && r.fee == e.fee {
      assert IsLastCopy(longer, |es|, r);
    } else if ChargesLastCopy(es, r) {
      var k :| 0 <= k < |es| && IsLastCopy(es, k, r) && r.fee == es[k].fee;
      assert longer[k] == es[k];
      assert !(e.execType.XTrade? && SameKey(e, r)) ==> IsLastCopy(longer, k, r);
    }
  }

  lemma OneChargesLastCopy(p: seq<Execution>, e: Execution, rows: seq<Execution>, r: Execution)
    requires KeySorted(rows) && (r in rows ==> ChargesLastCopy(p, r)) && r in RowsUpserted(rows, e)
    ensures ChargesLastCopy(p + [e], r)
  {
    LastCopySnoc(p, e, r);
    if !e.execType.XTrade? {
    } else if HasKey(rows, e) {
      ChargedMember(rows, e, r);
      assert SameKey(r, e) <==> SameKey(e, r);
    } else {
      InsertedRows(rows, e);
      if r in rows {
        var i :| 0 <= i < |rows| && rows[i] == r;
        assert !SameKey(rows[i], e) && (SameKey(e, r) <==> SameKey(r, e));
      }
    }
  }

  lemma RowsAreSorted(es: seq<Execution>)
    ensures KeySorted(RowsUpsertedAll([], es))
  {
    RowsMatchTrades([], [], es);
    MatchesOrder(RowsUpsertedAll([], es), UpsertedAll([], Trades(es)));
  }

  /** Every row charges the fee of the last copy of its trade, where the in-memory store keeps the first. */
  lemma {:induction false} RowChargesLastCopy(es: seq<Execution>, r: Execution)
    requires r in RowsUpsertedAll([], es)
    ensures ChargesLastCopy(es, r)
  {
    hide KeySorted, ChargesLastCopy, RowsUpserted;
    var p, e := es[..|es| - 1], es[|es| - 1];
    var rows := RowsUpsertedAll([], p);
    RowsAreSorted(p);
    if r in rows {
      RowChargesLastCopy(p, r);
    }
    OneChargesLastCopy(p, e, rows, r);
    assert es == p + [e];
  }

  /** So a placeholder stored first is corrected by the full report of its trade; but one stored behind it
      takes the fee away. */
  lemma PlaceholderIsCorrected(e: Execution)
    requires e.execType.XTrade?
    ensures RowsUpsertedAll([], [e.(fee := 0.0), e]) == [RowOf(e)]
    ensures RowsUpsertedAll([], [e, e.(fee := 0.0)]) == [RowOf(e).(fee := 0.0)]
  {
    TwoCopies(e.(fee := 0.0), e);
    TwoCopies(e, e.(fee := 0.0));
  }

  lemma TwoCopies(a: Execution, b: Execution)
    requires a.execType.XTrade? && b.execType.XTrade? && Bare(a) == Bare(b)
    ensures RowsUpsertedAll([], [a, b]) == [RowOf(b)]
  {
    FirstRow(a);
    SameRow(a, b);
    assert [a, b][..1] == [a] && [a][..0] == [];
    hide RowsUpserted, RowOf, Bare;
    assert RowsUpsertedAll([], []) == [];
    assert RowsUpsertedAll([], [a]) == [RowOf(a)];
  }

  lemma FirstRow(a: Execution)
    requires a.execType.XTrade?
    ensures RowsUpserted([], a) == [RowOf(a)]
  {
    var one := [RowOf(a)];
    assert [] + one == one && one[..0] == [];
    assert StableSort(ByKey, []) == [];
  }

  lemma SameRow(a: Execution, b: Execution)
    requires b.execType.XTrade? && Bare(a) == Bare(b)
    ensures RowsUpserted([RowOf(a)], b) == [RowOf(b)]
  {
    hide StableSort;
    var one := [RowOf(a)];
    assert SameKey(one[0], b);
    assert one[..0] == [] && Charged(one[..0], b) == [];
    assert RowOf(a).(fee := b.fee) == RowOf(b);
  }

  // ---------- whole runs on this store ----------

  ghost function RowsAfter(rows: seq<Execution>, sessions: seq<Session>, hists: seq<seq<Execution>>): seq<Execution>
    requires |sessions| == |hists|
  {
    if sessions == [] then rows
    else
      var n := |sessions| - 1;
      RowsUpsertedAll(RowsUpsertedAll(RowsAfter(rows, sessions[..n], hists[..n]), sessions[n].live), hists[n])
  }

  ghost predicate RowsRefetched(accountId: int, marketId: int, rows: seq<Execution>, sessions: seq<Session>,
                                hists: seq<seq<Execution>>)
    requires |sessions| == |hists|
  {
    sessions == [] || (
      var n := |sessions| - 1;
      && RowsRefetched(accountId, marketId, rows, sessions[..n], hists[..n])
      && FetchedAfter(accountId, marketId,
                      RowsUpsertedAll(RowsAfter(rows, sessions[..n], hists[..n]), sessions[n].live),
                      sessions[n].exchange, hists[n]))
  }

  /** The connections with nothing but their trades. */
  function Trading(sessions: seq<Session>): (r: seq<Session>)
    ensures |r| == |sessions|
  {
    if sessions == [] then []
    else
      var n := |sessions| - 1;
      Trading(sessions[..n]) + [sessions[n].(live := Trades(sessions[n].live))]
  }

  lemma {:induction false} TradesOfTrades(es: seq<Execution>)
    requires forall i :: 0 <= i < |es| ==> es[i].execType.XTrade?
    ensures Trades(es) == es
  {
    if es != [] {
      TradesOfTrades(es[..|es| - 1]);
      assert es == es[..|es| - 1] + [es[|es| - 1]];
    }
  }

  lemma FetchedAreTrades(accountId: int, marketId: int, bucket: seq<Execution>, exchange: Exchange,
                         hist: seq<Execution>)
    requires FetchedAfter(accountId, marketId, bucket, exchange, hist)
    ensures Trades(hist) == hist
  {
    hide Windowed;
    TradesOfTrades(hist);
  }

  lemma SameFetch(accountId: int, marketId: int, rows: seq<Execution>, bucket: seq<Execution>, exchange: Exchange,
                  hist: seq<Execution>)
    requires Matches(rows, bucket) && FetchedAfter(accountId, marketId, rows, exchange, hist)
    ensures FetchedAfter(accountId, marketId, bucket, exchange, hist)
  {
    assert LastTimestamp(rows) == LastTimestamp(bucket) by {
      if rows != [] {
        assert Bare(rows[|rows| - 1]) == Bare(bucket[|bucket| - 1]);
      }
    }
  }

  /** A run on this store fetches and holds - but for fees - what a run of the in-memory store does when
      the connections deliver only their trades. */
  lemma {:induction false} RowsRunMatches(accountId: int, marketId: int, rows: seq<Execution>, sessions: seq<Session>,
                                          hists: seq<seq<Execution>>)
    requires |sessions| == |hists| && KeySorted(rows) && RowsRefetched(accountId, marketId, rows, sessions, hists)
    ensures Refetched(accountId, marketId, rows, Trading(sessions), hists)
    ensures KeySorted(StoreAfter(rows, Trading(sessions), hists))
    ensures Matches(RowsAfter(rows, sessions, hists), StoreAfter(rows, Trading(sessions), hists))
  {
    if sessions != [] {
      hide FetchedAfter, RowsUpsertedAll, UpsertedAll, KeySorted, Matches, Trades;
      var n := |sessions| - 1;
      RowsRunMatches(accountId, marketId, rows, sessions[..n], hists[..n]);
      var mine := RowsAfter(rows, sessions[..n], hists[..n]);
      var theirs := StoreAfter(rows, Trading(sessions[..n]), hists[..n]);
      var live, traded := RowsUpsertedAll(mine, sessions[n].live), UpsertedAll(theirs, Trades(sessions[n].live));
      assert Trading(sessions)[..n] == Trading(sessions[..n]);
      RowsMatchTrades(mine, theirs, sessions[n].live);
      SameFetch(accountId, marketId, live, traded, sessions[n].exchange, hists[n]);
      FetchedAreTrades(accountId, marketId, live, sessions[n].exchange, hists[n]);
      RowsMatchTrades(live, traded, hists[n]);
    } else {
      assert Matches(rows, rows);
    }
  }

  lemma {:induction false} TradesMembers(es: seq<Execution>)
    ensures forall e :: e in Trades(es) ==> e in es
  {
    if es != [] {
      TradesMembers(es[..|es| - 1]);
      assert es[|es| - 1] in es;
    }
  }

  lemma {:induction false} TradingIsConnected(trades: seq<UserTrade>, execs: seq<Execution>, sessions: seq<Session>,
                                              happened: seq<nat>)
    requires |happened| == |sessions| && Connected(trades, execs, sessions, happened)
    ensures Connected(trades, execs, Trading(sessions), happened)
  {
    if sessions != [] {
      hide Happened, ReportOf;
      var n := |sessions| - 1;
      TradingIsConnected(trades, execs, sessions[..n], happened[..n]);
      TradesMembers(sessions[n].live);
      assert Trading(sessions)[..n] == Trading(sessions[..n]);
    }
  }

  lemma MatchesReports(rows: seq<Execution>, bucket: seq<Execution>, execs: seq<Execution>)
    requires Matches(rows, bucket) && Reports(bucket, execs)
    ensures Reports(rows, execs)
  {
    MatchesOrder(rows, bucket);
    forall e | e in rows ensures ReportOf(e, execs) {
      var i :| 0 <= i < |rows| && rows[i] == e;
      assert Bare(e) == Bare(bucket[i]) && bucket[i] in bucket && ReportOf(bucket[i], execs);
    }
  }

  /** Any number of disconnects on this store. Of the connections only the trades count: a trade is stored
      after them only if it was stored at first, or delivered, or some rebuild found it later than every
      trade until then, of which there was one; and exactly then when no page is cut. */
  lemma RowsRunIsExact(accountId: int, marketId: int, trades: seq<UserTrade>, execs: seq<Execution>, epoch: int,
                       rows: seq<Execution>, sessions: seq<Session>, happened: seq<nat>,
                       hists: seq<seq<Execution>>, n: nat)
    requires Ledger(accountId, marketId, trades, execs) && KeySorted(rows) && Reports(rows, execs)
    requires |happened| == |sessions| == |hists| && RowsRefetched(accountId, marketId, rows, sessions, hists)
    requires Connected(trades, execs, sessions, happened) && n <= |execs|
    ensures var store, trading := RowsAfter(rows, sessions, hists), Trading(sessions);
      && KeySorted(store) && Reports(store, execs)
      && (forall x :: 0 <= x < |execs| && HasKey(store, execs[x]) ==> Retained(rows, trading, happened, execs, x))
      && (Uncut(rows, trading, hists) ==>
            && (forall x :: 0 <= x < |execs| && Retained(rows, trading, happened, execs, x) ==> HasKey(store, execs[x]))
            && (Holds(store, execs, epoch, n) <==>
                  forall x :: 0 <= x < |execs| && Due(execs[x], epoch)
                    ==> (Retained(rows, trading, happened, execs, x) <==> x < n)))
  {
    var store, trading := RowsAfter(rows, sessions, hists), Trading(sessions);
    var bucket := StoreAfter(rows, trading, hists);
    TradingIsConnected(trades, execs, sessions, happened);
    RowsRunMatches(accountId, marketId, rows, sessions, hists);
    RunIsExact(accountId, marketId, trades, execs, epoch, rows, trading, happened, hists, n);
    MatchesOrder(store, bucket);
    MatchesReports(store, bucket, execs);
    forall x | 0 <= x < |execs| ensures HasKey(store, execs[x]) <==> HasKey(bucket, execs[x]) {
      MatchesKeys(store, bucket, execs[x]);
    }
    hide HasKey, Retained, Holds, Uncut, StoreAfter, RowsAfter, Refetched, RowsRefetched, Connected, Reports, Matches;
    LedgerTrades(accountId, marketId, trades, execs);
    HoldsIffKeys(store, execs, epoch, n);
  }

  lemma HoldsAlike(rows: seq<Execution>, bucket: seq<Execution>, execs: seq<Execution>, epoch: int, n: nat)
    requires Matches(rows, bucket) && KeySorted(bucket) && Reports(bucket, execs)
    requires KeySorted(execs) && OnlyTrades(execs) && n <= |execs|
    ensures Holds(rows, execs, epoch, n) <==> Holds(bucket, execs, epoch, n)
  {
    MatchesOrder(rows, bucket);
    MatchesReports(rows, bucket, execs);
    forall x | 0 <= x < |execs| ensures HasKey(rows, execs[x]) <==> HasKey(bucket, execs[x]) {
      MatchesKeys(rows, bucket, execs[x]);
    }
    hide HasKey, Holds, Reports, Matches, KeySorted, OnlyTrades;
    HoldsIffKeys(rows, execs, epoch, n);
    HoldsIffKeys(bucket, execs, epoch, n);
  }

  /** The start on this store is exact under the same conditions. */
  lemma RowsStartIsExact(accountId: int, marketId: int, trades: seq<UserTrade>, execs: seq<Execution>, epoch: int,
                         rows: seq<Execution>, k: nat, m: nat, nowMs: int, hist: seq<Execution>,
                         buffer: seq<Execution>)
    requires Ledger(accountId, marketId, trades, execs) && Happened(execs, nowMs, k)
    requires KeySorted(rows) && Reports(rows, execs) && k <= m <= |execs|
    requires Converted(accountId, marketId,
                       Windowed(trades, TruncThousand(RestartPoint(rows, epoch)) + 1, nowMs), hist)
    ensures var gtTs, store := RestartPoint(rows, epoch), RowsUpsertedAll(rows, hist);
      && (Holds(store, execs, epoch, k) ==> Reaches(rows, execs, epoch, gtTs, k))
      && (NothingCut(trades, gtTs, nowMs) ==>
            (Holds(store, execs, epoch, k) <==> Reaches(rows, execs, epoch, gtTs, k)))
      && (Holds(store, execs, epoch, k) ==>
            (BareTrades(StartApplied(store, epoch, buffer)) == BareTrades(Replayed(execs[..m], epoch))
             <==> multiset(BareTrades(DropStale(buffer, LastApplied(Replayed(store, epoch), epoch))))
                  == multiset(BareTrades(Replayed(execs[k..m], epoch)))))
  {
    hide Windowed, NothingCut, Reaches, Reports, BareTrades, StartApplied, Replayed, Holds, UpsertedAll, Ledger;
    hide RowsUpsertedAll, KeySorted, DropStale;
    var store := RowsUpsertedAll(rows, hist);
    TradesOfTrades(hist);
    assert Matches(rows, rows);
    RowsMatchTrades(rows, rows, hist);
    LedgerTrades(accountId, marketId, trades, execs);
    BackfillIsExact(accountId, marketId, trades, execs, epoch, rows, k, nowMs, hist);
    HoldsAlike(store, UpsertedAll(rows, hist), execs, epoch, k);
    if Holds(store, execs, epoch, k) {
      GoesOnlineExactly(store, execs, epoch, k, m, buffer);
    }
  }
}
