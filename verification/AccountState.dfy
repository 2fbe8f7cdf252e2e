/**
 The account itself (src/trading/account_state/mod.rs): it restores a market from the store and the
 exchange history, goes online on the buffered live stream, applies live executions one by one, and
 rebuilds after every disconnect. Each method is proved against the functions of AccountReplay.
 */
module AccountStates {
  import opened Common
  import opened Positions
  import opened Executions
  import opened ExecutionStores
  import opened HistoryPaging
  import opened AccountReplay

  datatype RecoveryMode = Restore | Exit

  /** The trading parameters `run_market` is called with. */
  datatype Terms = Terms(epoch: int, feeBps: real, contractSize: real)

  function Zero(terms: Terms): PositionState {
    NewPosition(terms.feeBps / 10000.0, terms.contractSize)
  }

  /** What the exchange answers when history is fetched: its trades so far, and the time. */
  datatype Exchange = Exchange(trades: seq<UserTrade>, nowMs: int)

  /** One connection to the live stream: what it delivered until it closed, and the exchange then. */
  datatype Session = Session(live: seq<Execution>, exchange: Exchange)

  predicate GoodExchange(x: Exchange) {
    TimeOrdered(x.trades) && forall t :: t in x.trades && t.qty != 0.0 && !t.side.UnknownSide? ==> t.price > 0.0
  }

  predicate Belongs(es: seq<Execution>, accountId: int, marketId: int) {
    es == [] || (
      var e := es[|es| - 1];
      Belongs(es[..|es| - 1], accountId, marketId) && HasPrice(e) && e.accountId == accountId && e.marketId == marketId)
  }

  lemma {:induction false} BelongsMembers(es: seq<Execution>, accountId: int, marketId: int)
    requires Belongs(es, accountId, marketId)
    ensures Priced(es)
    ensures forall i :: 0 <= i < |es| ==> HasPrice(es[i]) && es[i].accountId == accountId && es[i].marketId == marketId
  {
    if es != [] { BelongsMembers(es[..|es| - 1], accountId, marketId); }
  }

  class AccountState {
    const accountId: int
    const store: ExecutionStore
    const recoveryMode: RecoveryMode
    /** The positions, held by value. */
    var positions: map<int, PositionState>
    var liveBuffer: map<int, seq<Execution>>
    /** The executions sent to subscribers so far. */
    var broadcast: seq<Execution>

    ghost predicate Valid()
      reads this`positions, store
    {
      store.Valid() && forall m :: m in positions ==> Sound(positions[m])
    }

    constructor (accountId: int, store: ExecutionStore, recoveryMode: RecoveryMode)
      requires store.Valid()
      ensures Valid() && this.accountId == accountId && this.store == store && this.recoveryMode == recoveryMode
      ensures positions == map[] && liveBuffer == map[] && broadcast == []
    {
      this.accountId, this.store, this.recoveryMode := accountId, store, recoveryMode;
      positions, liveBuffer, broadcast := map[], map[], [];
    }

    /** The position of a market, or the fresh one it would be given. */
    function Current(marketId: int, terms: Terms): PositionState
      reads this`positions
    {
      if marketId in positions then positions[marketId] else Zero(terms)
    }

    /** What a market's live buffer holds; every run leaves it drained. */
    function Queued(marketId: int): seq<Execution>
      reads this`liveBuffer
    {
      if marketId in liveBuffer then liveBuffer[marketId] else []
    }

    method EnsurePosition(marketId: int, terms: Terms)
      requires Valid()
      modifies this`positions
      ensures Valid() && positions == old(positions)[marketId := old(Current(marketId, terms))]
    {
      if marketId !in positions {
        var p := new Position(terms.feeBps / 10000.0, terms.contractSize);
        positions := positions[marketId := p.Value()];
      }
    }

    /** The body of the loop in `apply_executions`. */
    method ApplyOne(marketId: int, e: Execution, terms: Terms)
      requires Valid() && HasPrice(e)
      modifies this`positions, this`broadcast
      ensures Valid() && positions - {marketId} == old(positions) - {marketId}
      ensures Current(marketId, terms) == Apply(old(Current(marketId, terms)), e)
      ensures broadcast == old(broadcast) + if Applies(e) then [e] else []
    {
      if !IsPositionChange(e.execType) {
        return;
      }
      var qtySigned := SignedQty(e);
      if qtySigned == 0.0 {
        return;
      }
      EnsurePosition(marketId, terms);
      BookKeepsSound(positions[marketId], FillOf(e));
      var p := new Position.From(positions[marketId]);
      p.TradeWithFee(qtySigned, e.lastPx, if e.fee != 0.0 then Some(e.fee) else None);
      positions := positions[marketId := p.Value()];
      broadcast := broadcast + [e];
    }

    method ApplyExecutions(marketId: int, execs: seq<Execution>, terms: Terms)
      requires Valid() && Priced(execs)
      modifies this`positions, this`broadcast
      ensures Valid() && positions - {marketId} == old(positions) - {marketId}
      ensures Current(marketId, terms) == ApplyAll(old(Current(marketId, terms)), execs)
      ensures broadcast == old(broadcast) + Effective(execs)
    {
      PricedMembers(execs);
      for i := 0 to |execs|
        invariant Valid() && positions - {marketId} == old(positions) - {marketId}
        invariant Current(marketId, terms) == ApplyAll(old(Current(marketId, terms)), execs[..i])
        invariant broadcast == old(broadcast) + Effective(execs[..i])
      {
        OneMore(old(Current(marketId, terms)), old(broadcast), execs, i);
        ApplyOne(marketId, execs[i], terms);
      }
      assert execs[..|execs|] == execs;
    }

    function Bucket(marketId: int): seq<Execution>
      reads store
    {
      store.Bucket(accountId, marketId)
    }

    method UpsertAll(marketId: int, es: seq<Execution>)
      requires store.Valid() && Belongs(es, accountId, marketId)
      modifies store
      ensures store.Valid() && Bucket(marketId) == UpsertedAll(old(Bucket(marketId)), es)
      ensures forall a, m :: (a, m) != (accountId, marketId) ==> store.Bucket(a, m) == old(store.Bucket(a, m))
    {
      BelongsMembers(es, accountId, marketId);
      for i := 0 to |es|
        invariant store.Valid() && Bucket(marketId) == UpsertedAll(old(Bucket(marketId)), es[..i])
        invariant forall a, m :: (a, m) != (accountId, marketId) ==> store.Bucket(a, m) == old(store.Bucket(a, m))
      {
        assert es[..i + 1][..i] == es[..i];
        store.Upsert(es[i]);
      }
      assert es[..|es|] == es;
    }

    /** Fetches the history after gtTs and stores it. */
    method Backfill(marketId: int, gtTs: int, exchange: Exchange) returns (hist: seq<Execution>)
      requires store.Valid() && GoodExchange(exchange) && Priced(Bucket(marketId))
      modifies store
      ensures store.Valid() && Priced(Bucket(marketId))
      ensures Converted(accountId, marketId, Windowed(exchange.trades, TruncThousand(gtTs) + 1, exchange.nowMs), hist)
      ensures Bucket(marketId) == UpsertedAll(old(Bucket(marketId)), hist)
    {
      hist := FetchHistorical(exchange.trades, accountId, marketId, gtTs, exchange.nowMs);
      HistoryBelongs(exchange, accountId, marketId, TruncThousand(gtTs) + 1, hist);
      UpsertAll(marketId, hist);
      BelongsMembers(hist, accountId, marketId);
      UpsertedStaysPriced(old(Bucket(marketId)), hist);
    }

    /** Loads and sorts the market's executions from the epoch on. */
    method LoadSorted(marketId: int, terms: Terms) returns (execs: seq<Execution>)
      requires Priced(Bucket(marketId))
      ensures execs == Replayed(Bucket(marketId), terms.epoch) && Priced(execs)
    {
      execs := store.LoadRange(accountId, marketId, Base(terms.epoch));
      AfterMembers(Bucket(marketId), Base(terms.epoch));
      SameElements(StableSort(ByKey, execs), execs);
      execs := StableSort(ByKey, execs);
      PricedSubset(Bucket(marketId), execs);
    }

    /** The first half of `run_market`: restore, then switch to the buffered live stream. */
    method StartMarket(marketId: int, terms: Terms, exchange: Exchange, buffered: seq<Execution>)
      returns (hist: seq<Execution>)
      requires Valid() && GoodExchange(exchange)
      requires Belongs(Queued(marketId) + buffered, accountId, marketId) && Priced(Bucket(marketId))
      modifies this, store
      ensures Valid() && positions - {marketId} == old(positions) - {marketId} && Priced(Bucket(marketId))
      ensures Converted(accountId, marketId,
                Windowed(exchange.trades, TruncThousand(RestartPoint(old(Bucket(marketId)), terms.epoch)) + 1,
                         exchange.nowMs), hist)
      ensures Bucket(marketId) == UpsertedAll(old(Bucket(marketId)), hist)
      ensures var applied := StartApplied(Bucket(marketId), terms.epoch, old(Queued(marketId)) + buffered);
        && Current(marketId, terms) == ApplyAll(old(Current(marketId, terms)), applied)
        && broadcast == old(broadcast) + Effective(applied)
      ensures liveBuffer == old(liveBuffer)[marketId := []]
    {
      ghost var p0, b0, all := Current(marketId, terms), broadcast, Queued(marketId) + buffered;
      BelongsMembers(all, accountId, marketId);
      hist := RestoreStore(marketId, terms, exchange);
      var execs := Replay(marketId, terms);
      GoOnline(marketId, terms, execs, buffered);
      AppliedInTwoParts(p0, b0, execs, StableSort(ByKey, DropStale(all, LastApplied(execs, terms.epoch))));
    }

    method RestoreStore(marketId: int, terms: Terms, exchange: Exchange) returns (hist: seq<Execution>)
      requires Valid() && GoodExchange(exchange) && Priced(Bucket(marketId))
      modifies store
      ensures Valid() && Priced(Bucket(marketId))
      ensures Converted(accountId, marketId,
                Windowed(exchange.trades, TruncThousand(RestartPoint(old(Bucket(marketId)), terms.epoch)) + 1,
                         exchange.nowMs), hist)
      ensures Bucket(marketId) == UpsertedAll(old(Bucket(marketId)), hist)
    {
      var lastPoint := store.LastPoint(accountId, marketId);
      var gtTs := match lastPoint
        case Some(ts) => (if ts < terms.epoch then terms.epoch else ts)
        case None => terms.epoch;
      assert gtTs == RestartPoint(Bucket(marketId), terms.epoch);
      hist := Backfill(marketId, gtTs, exchange);
    }

    /** Applies the stored executions, from the epoch on, to the market's position. */
    method Replay(marketId: int, terms: Terms) returns (execs: seq<Execution>)
      requires Valid() && Priced(Bucket(marketId))
      modifies this`positions, this`broadcast
      ensures Valid() && positions - {marketId} == old(positions) - {marketId}
      ensures execs == Replayed(Bucket(marketId), terms.epoch)
      ensures Current(marketId, terms) == ApplyAll(old(Current(marketId, terms)), execs)
      ensures broadcast == old(broadcast) + Effective(execs)
    {
      execs := LoadSorted(marketId, terms);
      ApplyExecutions(marketId, execs, terms);
    }

    /** Applies what the live stream had buffered and the replay had not covered. */
    method GoOnline(marketId: int, terms: Terms, execs: seq<Execution>, buffered: seq<Execution>)
      requires Valid() && Priced(Queued(marketId) + buffered)
      modifies this
      ensures Valid() && positions - {marketId} == old(positions) - {marketId}
      ensures var left := DropStale(old(Queued(marketId)) + buffered, LastApplied(execs, terms.epoch));
        var online := StableSort(ByKey, left);
        && Current(marketId, terms) == ApplyAll(old(Current(marketId, terms)), online)
        && broadcast == old(broadcast) + Effective(online)
      ensures liveBuffer == old(liveBuffer)[marketId := []]
    {
      hide DropStale, StableSort, Effective, ApplyAll, Priced;
      ghost var all := Queued(marketId) + buffered;
      var lastAppliedTs := if execs == [] then terms.epoch else execs[|execs| - 1].timestamp;
      BufferLive(marketId, buffered);
      var online := TakeBuffered(marketId, lastAppliedTs);
      OnlineIsPriced(all, lastAppliedTs);
      ApplyExecutions(marketId, online, terms);
    }

    /** Moves what the live stream has delivered so far into the market's buffer, which is made if missing. */
    method BufferLive(marketId: int, buffered: seq<Execution>)
      modifies this`liveBuffer
      ensures liveBuffer == old(liveBuffer)[marketId := old(Queued(marketId)) + buffered]
      ensures liveBuffer[marketId]
           == if marketId in old(liveBuffer) then old(liveBuffer[marketId]) + buffered else buffered
    {
      if marketId !in liveBuffer {
        liveBuffer := liveBuffer[marketId := []];
      }
      assert [] + buffered == buffered;
      liveBuffer := liveBuffer[marketId := liveBuffer[marketId] + buffered];
    }

    /** Drops the stale executions from the front of the market's buffer, drains it and sorts the rest. */
    method TakeBuffered(marketId: int, lastAppliedTs: int) returns (online: seq<Execution>)
      requires marketId in liveBuffer
      modifies this`liveBuffer
      ensures online == StableSort(ByKey, DropStale(old(liveBuffer[marketId]), lastAppliedTs))
      ensures liveBuffer == old(liveBuffer)[marketId := []]
    {
      hide StableSort;
      while liveBuffer[marketId] != [] && liveBuffer[marketId][0].timestamp <= lastAppliedTs
        invariant marketId in liveBuffer && liveBuffer - {marketId} == old(liveBuffer) - {marketId}
        invariant DropStale(liveBuffer[marketId], lastAppliedTs) == DropStale(old(liveBuffer[marketId]), lastAppliedTs)
        decreases |liveBuffer[marketId]|
      {
        PopFront(marketId);
      }
      online := StableSort(ByKey, liveBuffer[marketId]);
      liveBuffer := liveBuffer[marketId := []];
      SameElsewhere(liveBuffer, old(liveBuffer), marketId);
    }

    method PopFront(marketId: int)
      requires marketId in liveBuffer && liveBuffer[marketId] != []
      modifies this`liveBuffer
      ensures marketId in liveBuffer && liveBuffer[marketId] == old(liveBuffer[marketId])[1..]
      ensures liveBuffer - {marketId} == old(liveBuffer) - {marketId}
    {
      liveBuffer := liveBuffer[marketId := liveBuffer[marketId][1..]];
    }

    /** One live execution while online. */
    method OnLive(marketId: int, e: Execution, terms: Terms)
      requires Valid() && HasPrice(e) && e.accountId == accountId && e.marketId == marketId && Priced(Bucket(marketId))
      modifies this`positions, this`broadcast, store
      ensures Valid() && positions - {marketId} == old(positions) - {marketId} && Priced(Bucket(marketId))
      ensures Bucket(marketId) == Upserted(old(Bucket(marketId)), e)
      ensures Current(marketId, terms) == Apply(old(Current(marketId, terms)), e)
      ensures broadcast == old(broadcast) + if Applies(e) then [e] else []
    {
      UpsertStaysPriced(Bucket(marketId), e);
      store.Upsert(e);
      ApplyOne(marketId, e, terms);
    }

    /** Consumes the live stream until it closes. */
    method ConsumeLive(marketId: int, live: seq<Execution>, terms: Terms)
      requires Valid() && Belongs(live, accountId, marketId) && Priced(Bucket(marketId))
      modifies this`positions, this`broadcast, store
      ensures Valid() && positions - {marketId} == old(positions) - {marketId} && Priced(Bucket(marketId))
      ensures Bucket(marketId) == UpsertedAll(old(Bucket(marketId)), live)
      ensures Current(marketId, terms) == ApplyAll(old(Current(marketId, terms)), live)
      ensures broadcast == old(broadcast) + Effective(live)
    {
      BelongsMembers(live, accountId, marketId);
      for i := 0 to |live|
        invariant Valid() && positions - {marketId} == old(positions) - {marketId} && Priced(Bucket(marketId))
        invariant Bucket(marketId) == UpsertedAll(old(Bucket(marketId)), live[..i])
        invariant Current(marketId, terms) == ApplyAll(old(Current(marketId, terms)), live[..i])
        invariant broadcast == old(broadcast) + Effective(live[..i])
      {
        OneMore(old(Current(marketId, terms)), old(broadcast), live, i);
        OnLive(marketId, live[i], terms);
      }
      assert live[..|live|] == live;
    }

    /** The full restore after a disconnect; without any stored execution there is nothing to fetch after. */
    method Rebuild(marketId: int, terms: Terms, exchange: Exchange) returns (hist: seq<Execution>)
      requires Valid() && GoodExchange(exchange) && Priced(Bucket(marketId))
      modifies this`positions, this`broadcast, store
      ensures Valid() && positions - {marketId} == old(positions) - {marketId} && Priced(Bucket(marketId))
      ensures FetchedAfter(accountId, marketId, old(Bucket(marketId)), exchange, hist)
      ensures Bucket(marketId) == UpsertedAll(old(Bucket(marketId)), hist)
      ensures Current(marketId, terms) == ApplyAll(Zero(terms), Replayed(Bucket(marketId), terms.epoch))
    {
      hide FetchedAfter, UpsertedAll, Replayed;
      hist := RefetchStore(marketId, exchange);
      Reapply(marketId, terms);
    }

    method RefetchStore(marketId: int, exchange: Exchange) returns (hist: seq<Execution>)
      requires Valid() && GoodExchange(exchange) && Priced(Bucket(marketId))
      modifies store
      ensures Valid() && Priced(Bucket(marketId))
      ensures FetchedAfter(accountId, marketId, old(Bucket(marketId)), exchange, hist)
      ensures Bucket(marketId) == UpsertedAll(old(Bucket(marketId)), hist)
    {
      hide Windowed, Converted, TimeOrdered, ValidStore, Priced, Sound;
      hist := [];
      var lastPoint := store.LastPoint(accountId, marketId);
      if lastPoint.Some? {
        hist := Backfill(marketId, lastPoint.value, exchange);
      }
    }

    /** Resets the position in memory, then replays the store into it. */
    method Reapply(marketId: int, terms: Terms)
      requires Valid() && Priced(Bucket(marketId))
      modifies this`positions, this`broadcast
      ensures Valid() && positions - {marketId} == old(positions) - {marketId}
      ensures Current(marketId, terms) == ApplyAll(Zero(terms), Replayed(Bucket(marketId), terms.epoch))
    {
      var p := new Position(terms.feeBps / 10000.0, terms.contractSize);
      positions := positions[marketId := p.Value()];
      assert Current(marketId, terms) == Zero(terms);
      var execs := Replay(marketId, terms);
    }

    /** `run_market` over a finite run of connections. However the live positions drifted, after every
        disconnect the position is the replay of the store; and the store is what the upserts of the
        first backfill, of every connection and of every backfill after it leave. */
    method RunMarket(marketId: int, terms: Terms, exchange: Exchange, buffered: seq<Execution>, sessions: seq<Session>)
      returns (exited: bool, ghost first: seq<Execution>, ghost hists: seq<seq<Execution>>)
      requires Valid() && GoodExchange(exchange)
      requires Belongs(Queued(marketId) + buffered, accountId, marketId) && Priced(Bucket(marketId))
      requires forall s :: s in sessions ==> GoodExchange(s.exchange) && Belongs(s.live, accountId, marketId)
      modifies this, store
      ensures Valid() && positions - {marketId} == old(positions) - {marketId}
      ensures exited <==> recoveryMode.Exit? && sessions != []
      ensures |hists| == if exited then 1 else |sessions|
      ensures sessions != [] ==>
        Current(marketId, terms) == ApplyAll(Zero(terms), Replayed(Bucket(marketId), terms.epoch))
      ensures Converted(accountId, marketId,
                Windowed(exchange.trades, TruncThousand(RestartPoint(old(Bucket(marketId)), terms.epoch)) + 1,
                         exchange.nowMs), first)
      ensures Refetched(accountId, marketId, UpsertedAll(old(Bucket(marketId)), first), sessions[..|hists|], hists)
      ensures Bucket(marketId) == StoreAfter(UpsertedAll(old(Bucket(marketId)), first), sessions[..|hists|], hists)
    {
      hide Windowed, Converted, UpsertedAll, Replayed, FetchedAfter;
      exited, hists := false, [];
      first := StartMarket(marketId, terms, exchange, buffered);
      ghost var started := Bucket(marketId);
      for i := 0 to |sessions|
        invariant Valid() && positions - {marketId} == old(positions) - {marketId} && Priced(Bucket(marketId))
        invariant 0 < i ==>
          && recoveryMode.Restore?
          && Current(marketId, terms) == ApplyAll(Zero(terms), Replayed(Bucket(marketId), terms.epoch))
        invariant |hists| == i && Refetched(accountId, marketId, started, sessions[..i], hists)
        invariant Bucket(marketId) == StoreAfter(started, sessions[..i], hists)
      {
        assert sessions[i] in sessions;
        ghost var hist := RunSession(marketId, terms, sessions[i]);
        OneMoreSession(accountId, marketId, started, sessions, i, hists, hist);
        hists := hists + [hist];
        if recoveryMode.Exit? {
          return true, first, hists;
        }
      }
    }

    /** One connection: live until the disconnect, then the rebuild. */
    method RunSession(marketId: int, terms: Terms, s: Session) returns (ghost hist: seq<Execution>)
      requires Valid() && GoodExchange(s.exchange) && Belongs(s.live, accountId, marketId) && Priced(Bucket(marketId))
      modifies this`positions, this`broadcast, store
      ensures Valid() && positions - {marketId} == old(positions) - {marketId} && Priced(Bucket(marketId))
      ensures Current(marketId, terms) == ApplyAll(Zero(terms), Replayed(Bucket(marketId), terms.epoch))
      ensures FetchedAfter(accountId, marketId, UpsertedAll(old(Bucket(marketId)), s.live), s.exchange, hist)
      ensures Bucket(marketId) == UpsertedAll(UpsertedAll(old(Bucket(marketId)), s.live), hist)
    {
      hide FetchedAfter, UpsertedAll, Replayed, Belongs;
      ConsumeLive(marketId, s.live, terms);
      hist := Rebuild(marketId, terms, s.exchange);
    }
  }

  /** What a rebuild fetches for a bucket: nothing without a last point, else the history after it. */
  ghost predicate FetchedAfter(accountId: int, marketId: int, bucket: seq<Execution>, exchange: Exchange,
                               hist: seq<Execution>)
  {
    TimeOrdered(exchange.trades) &&
    var last := LastTimestamp(bucket);
    if last.None? then hist == []
    else Converted(accountId, marketId, Windowed(exchange.trades, TruncThousand(last.value) + 1, exchange.nowMs), hist)
  }

  /** The bucket after some connections, each followed by its backfill. */
  ghost function StoreAfter(bucket: seq<Execution>, sessions: seq<Session>, hists: seq<seq<Execution>>): seq<Execution>
    requires |sessions| == |hists|
  {
    if sessions == [] then bucket
    else
      var n := |sessions| - 1;
      UpsertedAll(UpsertedAll(StoreAfter(bucket, sessions[..n], hists[..n]), sessions[n].live), hists[n])
  }

  ghost predicate Refetched(accountId: int, marketId: int, bucket: seq<Execution>, sessions: seq<Session>,
                            hists: seq<seq<Execution>>)
    requires |sessions| == |hists|
  {
    sessions == [] || (
      var n := |sessions| - 1;
      && Refetched(accountId, marketId, bucket, sessions[..n], hists[..n])
      && FetchedAfter(accountId, marketId, UpsertedAll(StoreAfter(bucket, sessions[..n], hists[..n]), sessions[n].live),
                      sessions[n].exchange, hists[n]))
  }

  lemma OneMoreSession(accountId: int, marketId: int, bucket: seq<Execution>, sessions: seq<Session>, i: nat,
                       hists: seq<seq<Execution>>, hist: seq<Execution>)
    requires i == |hists| < |sessions| && Refetched(accountId, marketId, bucket, sessions[..i], hists)
    requires FetchedAfter(accountId, marketId, UpsertedAll(StoreAfter(bucket, sessions[..i], hists), sessions[i].live),
                          sessions[i].exchange, hist)
    ensures Refetched(accountId, marketId, bucket, sessions[..i + 1], hists + [hist])
    ensures StoreAfter(bucket, sessions[..i + 1], hists + [hist])
         == UpsertedAll(UpsertedAll(StoreAfter(bucket, sessions[..i], hists), sessions[i].live), hist)
  {
    hide FetchedAfter, UpsertedAll;
    assert sessions[..i + 1][..i] == sessions[..i] && (hists + [hist])[..i] == hists;
  }

  lemma SameElsewhere(a: map<int, seq<Execution>>, b: map<int, seq<Execution>>, k: int)
    requires k in a && a - {k} == b - {k}
    ensures a == b[k := a[k]]
  {
    forall m | m != k ensures (m in a <==> m in b) && (m in a ==> a[m] == b[m]) {
      assert m in a <==> m in a - {k};
      assert m in b <==> m in b - {k};
      assert m in a ==> (a - {k})[m] == a[m] && (b - {k})[m] == b[m];
    }
  }

  lemma AppliedInTwoParts(p: PositionState, sent: seq<Execution>, execs: seq<Execution>, online: seq<Execution>)
    ensures ApplyAll(ApplyAll(p, execs), online) == ApplyAll(p, execs + online)
    ensures sent + Effective(execs) + Effective(online) == sent + Effective(execs + online)
  {
    ApplyConcat(p, execs, online);
    AppendThree(sent, Effective(execs), Effective(online));
  }

  lemma OneMore(p: PositionState, sent: seq<Execution>, es: seq<Execution>, i: nat)
    requires i < |es|
    ensures es[..i + 1][..i] == es[..i]
    ensures ApplyAll(p, es[..i + 1]) == Apply(ApplyAll(p, es[..i]), es[i])
    ensures sent + Effective(es[..i + 1]) == (sent + Effective(es[..i])) + if Applies(es[i]) then [es[i]] else []
  {
    assert es[..i + 1][..i] == es[..i];
    AppendThree(sent, Effective(es[..i]), if Applies(es[i]) then [es[i]] else []);
  }

  lemma HistoryBelongs(exchange: Exchange, accountId: int, marketId: int, start: int, hist: seq<Execution>)
    requires GoodExchange(exchange)
    requires Converted(accountId, marketId, Windowed(exchange.trades, start, exchange.nowMs), hist)
    ensures Belongs(hist, accountId, marketId)
  {
    var w := Windowed(exchange.trades, start, exchange.nowMs);
    WindowedMembers(exchange.trades, start, exchange.nowMs);
    forall i | 0 <= i < |hist|
      ensures hist[i].accountId == accountId && hist[i].marketId == marketId && HasPrice(hist[i])
    {
      assert w[i] in w;
    }
    MembersBelong(hist, accountId, marketId);
  }

  lemma {:induction false} MembersBelong(es: seq<Execution>, accountId: int, marketId: int)
    requires forall i :: 0 <= i < |es| ==> HasPrice(es[i]) && es[i].accountId == accountId && es[i].marketId == marketId
    ensures Belongs(es, accountId, marketId)
  {
    if es != [] { MembersBelong(es[..|es| - 1], accountId, marketId); }
  }

  lemma UpsertStaysPriced(bucket: seq<Execution>, e: Execution)
    requires Priced(bucket) && HasPrice(e)
    ensures Priced(Upserted(bucket, e))
  {
    if !HasKey(bucket, e) {
      SameElements(Upserted(bucket, e), bucket + [e]);
      assert (bucket + [e])[..|bucket|] == bucket;
      PricedSubset(bucket + [e], Upserted(bucket, e));
    }
  }

  lemma {:induction false} UpsertedStaysPriced(bucket: seq<Execution>, es: seq<Execution>)
    requires Priced(bucket) && Priced(es)
    ensures Priced(UpsertedAll(bucket, es))
  {
    if es != [] {
      var prev := es[..|es| - 1];
      UpsertedStaysPriced(bucket, prev);
      UpsertStaysPriced(UpsertedAll(bucket, prev), es[|es| - 1]);
    }
  }

  lemma OnlineIsPriced(buffered: seq<Execution>, t: int)
    requires Priced(buffered)
    ensures Priced(StableSort(ByKey, DropStale(buffered, t)))
  {
    DropStaleMembers(buffered, t);
    SameElements(StableSort(ByKey, DropStale(buffered, t)), DropStale(buffered, t));
    PricedSubset(buffered, StableSort(ByKey, DropStale(buffered, t)));
  }

  lemma {:induction false} DropStaleMembers(buffer: seq<Execution>, t: int)
    ensures forall x :: x in DropStale(buffer, t) ==> x in buffer
  {
    if buffer != [] && buffer[0].timestamp <= t { DropStaleMembers(buffer[1..], t); }
  }

  lemma {:induction false} AfterMembers(bucket: seq<Execution>, t: int)
    ensures forall x :: x in After(bucket, t) ==> x in bucket
  {
    if bucket != [] {
      AfterMembers(bucket[..|bucket| - 1], t);
      assert bucket[|bucket| - 1] in bucket;
    }
  }
}
