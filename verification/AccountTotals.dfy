/**
 What an account's position amounts to, told from the fields of the executions, or of the exchange's
 trades, alone: how much was bought and sold, at what cost, and what was charged for it. These totals
 know nothing of how src/trading/account_state/mod.rs signs a quantity or picks a fee.
 */
module AccountTotals {
  import opened Common
  import opened Positions
  import opened Executions
  import opened HistoryPaging
  import opened AccountReplay
  import opened AccountStates

  function Size(x: real): real { if x < 0.0 then -x else x }

  // ---------- totals over executions ----------

  /** A trade or liquidation that bought or sold something. */
  predicate IsFill(e: Execution) {
    (e.execType == XTrade || e.execType == XLiquidation) && e.side != UnknownSide && e.lastQty != 0.0
  }

  function Value(e: Execution): real { Size(e.lastQty) * e.lastPx }

  function Bought(es: seq<Execution>): real {
    if es == [] then 0.0
    else
      var e := es[|es| - 1];
      Bought(es[..|es| - 1]) + if IsFill(e) && e.side == Buy then Size(e.lastQty) else 0.0
  }

  function Sold(es: seq<Execution>): real {
    if es == [] then 0.0
    else
      var e := es[|es| - 1];
      Sold(es[..|es| - 1]) + if IsFill(e) && e.side == Sell then Size(e.lastQty) else 0.0
  }

  /** What was paid for what was bought, less what was received for what was sold. */
  function Paid(es: seq<Execution>): real {
    if es == [] then 0.0
    else
      var e := es[|es| - 1];
      Paid(es[..|es| - 1]) + if !IsFill(e) then 0.0 else if e.side == Buy then Value(e) else -Value(e)
  }

  function Turnover(es: seq<Execution>): real {
    if es == [] then 0.0
    else Turnover(es[..|es| - 1]) + if IsFill(es[|es| - 1]) then Value(es[|es| - 1]) else 0.0
  }

  /** The commissions the exchange reported, and the turnover of the fills it reported none for. */
  function Commissions(es: seq<Execution>): real {
    if es == [] then 0.0
    else Commissions(es[..|es| - 1]) + if IsFill(es[|es| - 1]) then es[|es| - 1].fee else 0.0
  }

  function FreeTurnover(es: seq<Execution>): real {
    if es == [] then 0.0
    else
      var e := es[|es| - 1];
      FreeTurnover(es[..|es| - 1]) + if IsFill(e) && e.fee == 0.0 then Value(e) else 0.0
  }

  function Moves(es: seq<Execution>): nat {
    if es == [] then 0 else Moves(es[..|es| - 1]) + if IsFill(es[|es| - 1]) then 1 else 0
  }

  /** How far the prices of the fills are from the mark, in all. */
  function Gaps(es: seq<Execution>, mark: real): real {
    if es == [] then 0.0
    else Gaps(es[..|es| - 1], mark) + if IsFill(es[|es| - 1]) then Size(mark - es[|es| - 1].lastPx) else 0.0
  }

  /** The net quantity is never dust. */
  predicate Dustless(es: seq<Execution>) {
    es == [] || (
      var net := Bought(es) - Sold(es);
      Dustless(es[..|es| - 1]) && (net == 0.0 || Size(net) >= EPSILON))
  }

  predicate FillsArePriced(es: seq<Execution>) {
    forall i :: 0 <= i < |es| && IsFill(es[i]) ==> es[i].lastPx > 0.0
  }

  // ---------- the totals are those of the booked fills ----------

  /** One execution against the fill it is booked as. */
  lemma OneFill(e: Execution, mark: real)
    ensures Applies(e) <==> IsFill(e)
    ensures IsFill(e) ==>
      var f := FillOf(e);
      && f.qty == (if e.side == Buy then Size(e.lastQty) else -Size(e.lastQty))
      && Abs(f.qty) == Size(e.lastQty) && f.price == e.lastPx
      && Cost(f) == (if e.side == Buy then Value(e) else -Value(e)) && ValueOf(f) == Value(e)
      && f.fee.GetOr(0.0) == e.fee && (f.fee.None? <==> e.fee == 0.0)
      && Abs(mark - f.price) == Size(mark - e.lastPx)
  {
  }

  /** The sums over the booked fills. */
  ghost predicate SameTotals(es: seq<Execution>, fills: seq<Fill>, mark: real) {
    && |fills| == Moves(es)
    && RequestedSum(fills) == Bought(es) - Sold(es) && Volume(fills) == Bought(es) + Sold(es)
    && Spent(fills) == Paid(es) && Notional(fills) == Turnover(es)
    && Charges(fills) == Commissions(es) && Uncharged(fills) == FreeTurnover(es)
    && Spread(fills, mark) == Gaps(es, mark)
  }

  lemma FillsSnoc(fills: seq<Fill>, f: Fill, mark: real)
    ensures var more := fills + [f];
      && RequestedSum(more) == RequestedSum(fills) + f.qty && Volume(more) == Volume(fills) + Abs(f.qty)
      && Spent(more) == Spent(fills) + Cost(f) && Notional(more) == Notional(fills) + ValueOf(f)
      && Charges(more) == Charges(fills) + f.fee.GetOr(0.0)
      && Uncharged(more) == Uncharged(fills) + (if f.fee.Some? then 0.0 else ValueOf(f))
      && Spread(more, mark) == Spread(fills, mark) + Abs(mark - f.price)
      && (NoDust(more) <==> NoDust(fills) && (RequestedSum(more) == 0.0 || Abs(RequestedSum(more)) >= EPSILON))
  {
    hide Cost, ValueOf;
    assert (fills + [f])[..|fills|] == fills;
  }

  lemma TotalsSnoc(es: seq<Execution>, e: Execution, mark: real)
    ensures var more := es + [e];
      && Bought(more) == Bought(es) + (if IsFill(e) && e.side == Buy then Size(e.lastQty) else 0.0)
      && Sold(more) == Sold(es) + (if IsFill(e) && e.side == Sell then Size(e.lastQty) else 0.0)
      && Paid(more) == Paid(es) + (if !IsFill(e) then 0.0 else if e.side == Buy then Value(e) else -Value(e))
      && Turnover(more) == Turnover(es) + (if IsFill(e) then Value(e) else 0.0)
      && Commissions(more) == Commissions(es) + (if IsFill(e) then e.fee else 0.0)
      && FreeTurnover(more) == FreeTurnover(es) + (if IsFill(e) && e.fee == 0.0 then Value(e) else 0.0)
      && Moves(more) == Moves(es) + (if IsFill(e) then 1 else 0)
      && Gaps(more, mark) == Gaps(es, mark) + (if IsFill(e) then Size(mark - e.lastPx) else 0.0)
  {
    hide IsFill, Value, Size;
    assert (es + [e])[..|es|] == es;
  }

  lemma TotalsStep(es: seq<Execution>, fills: seq<Fill>, e: Execution, mark: real)
    requires SameTotals(es, fills, mark)
    ensures SameTotals(es + [e], if Applies(e) then fills + [FillOf(e)] else fills, mark)
  {
    hide FillOf, Applies, Cost, ValueOf, Value, Size, Abs;
    hide RequestedSum, Volume, Spent, Notional, Charges, Uncharged, Spread;
    hide Bought, Sold, Paid, Turnover, Commissions, FreeTurnover, Moves, Gaps;
    OneFill(e, mark);
    TotalsSnoc(es, e, mark);
    if Applies(e) {
      FillsSnoc(fills, FillOf(e), mark);
    }
  }

  lemma {:induction false} TotalsOfFills(es: seq<Execution>, mark: real)
    ensures SameTotals(es, FillsOf(es), mark)
  {
    if es != [] {
      hide FillOf, Applies, SameTotals;
      var prev, e := es[..|es| - 1], es[|es| - 1];
      TotalsOfFills(prev, mark);
      TotalsStep(prev, FillsOf(prev), e, mark);
      assert es == prev + [e] && FillsOf(prev) + [] == FillsOf(prev);
    }
  }

  lemma {:induction false} DustlessFills(es: seq<Execution>)
    requires Dustless(es)
    ensures NoDust(FillsOf(es))
  {
    if es != [] {
      var prev, e := es[..|es| - 1], es[|es| - 1];
      DustlessFills(prev);
      TotalsOfFills(es, 0.0);
      hide FillOf, Applies, Bought, Sold;
      if Applies(e) {
        FillsSnoc(FillsOf(prev), FillOf(e), 0.0);
      } else {
        assert FillsOf(es) == FillsOf(prev);
      }
    }
  }

  lemma PricedFills(es: seq<Execution>)
    requires FillsArePriced(es)
    ensures Priced(es)
  {
    forall i | 0 <= i < |es| ensures HasPrice(es[i]) {
      OneFill(es[i], 0.0);
    }
    MembersPriced(es);
  }

  /** From flat, whatever was executed, in any order and amid any other reports: the amount is what was
      bought less what was sold, the volumes and the fees are the totals, and the marked PnL is what the net
      quantity is worth less what it cost and the fees - up to an EPSILON of quantity for every fill, and
      exactly when the net quantity was never dust. */
  lemma AccountIsItsTotals(es: seq<Execution>, feePercent: real, contractSize: real, mark: real)
    requires FillsArePriced(es)
    ensures var p, net := ApplyAll(NewPosition(feePercent, contractSize), es), Bought(es) - Sold(es);
      var worth := Worth(contractSize, mark, net, Paid(es)) - p.fees;
      && Size(p.amount - net) <= Moves(es) as real * EPSILON
      && p.quoteVolume2 == Bought(es) + Sold(es) && p.quoteVolume == Scaled(Turnover(es), contractSize)
      && p.fees == Commissions(es) + AtRate(FreeTurnover(es), feePercent, contractSize)
      && p.tradesCount == (if Moves(es) < U32_MAX then Moves(es) else U32_MAX)
      && Size(CurrentPnl(p, mark) - worth) <= Tolerance(contractSize, Gaps(es, mark))
      && (Dustless(es) ==> p.amount == net && CurrentPnl(p, mark) == worth)
  {
    hide BookAll, FillsOf, ApplyAll, CurrentPnl, NoDust, Dustless, Worth, Tolerance, Scaled, AtRate;
    hide RequestedSum, Volume, Spent, Notional, Charges, Uncharged, Spread;
    hide Bought, Sold, Paid, Turnover, Commissions, FreeTurnover, Moves, Gaps;
    var fills := FillsOf(es);
    PricedFills(es);
    PricedIsTradable(es);
    ApplyIsBook(NewPosition(feePercent, contractSize), es);
    TotalsOfFills(es, mark);
    RunIsSound(fills, feePercent, contractSize);
    RunTotals(fills, feePercent, contractSize);
    FeesAreCharges(fills, feePercent, contractSize);
    PnlIsTradedValue(fills, feePercent, contractSize, mark);
    if Dustless(es) {
      DustlessFills(es);
    }
  }

  /** The fills among some executions, in order. */
  function TheFills(es: seq<Execution>): seq<Execution> {
    if es == [] then []
    else
      var p, e := TheFills(es[..|es| - 1]), es[|es| - 1];
      if IsFill(e) then p + [e] else p
  }

  /** They are what the account sends to its subscribers. */
  lemma {:induction false} BroadcastsAreTheFills(es: seq<Execution>)
    ensures Effective(es) == TheFills(es)
  {
    if es != [] {
      BroadcastsAreTheFills(es[..|es| - 1]);
      OneFill(es[|es| - 1], 0.0);
      assert Effective(es[..|es| - 1]) + [] == Effective(es[..|es| - 1]);
    }
  }

  /** A market opened on these terms starts flat, and its rate is in basis points: from there on the fees of
      fills without a commission are the ten-thousandth part of `feeBps` times their value. */
  lemma FeesAreBasisPoints(terms: Terms, es: seq<Execution>)
    requires FillsArePriced(es)
    ensures var p := ApplyAll(Zero(terms), es);
      && 10000.0 * (p.fees - Commissions(es)) == AtRate(FreeTurnover(es), terms.feeBps, terms.contractSize)
      && Zero(terms).amount == 0.0 && Zero(terms).contractSize == terms.contractSize
  {
    hide Turnover, FreeTurnover, Commissions, Dustless, ApplyAll, CurrentPnl;
    AccountIsItsTotals(es, terms.feeBps / 10000.0, terms.contractSize, 0.0);
    assert 10000.0 * (terms.feeBps / 10000.0) == terms.feeBps;
    TimesRate(FreeTurnover(es), terms.feeBps / 10000.0, terms.contractSize, 10000.0);
  }

  lemma TimesRate(value: real, rate: real, contractSize: real, k: real)
    ensures k * AtRate(value, rate, contractSize) == AtRate(value, k * rate, contractSize)
  {
  }

  // ---------- totals over the exchange's trades ----------

  function QtyBought(ts: seq<UserTrade>): real {
    if ts == [] then 0.0
    else QtyBought(ts[..|ts| - 1]) + if ts[|ts| - 1].side == Buy then Size(ts[|ts| - 1].qty) else 0.0
  }

  function QtySold(ts: seq<UserTrade>): real {
    if ts == [] then 0.0
    else QtySold(ts[..|ts| - 1]) + if ts[|ts| - 1].side == Sell then Size(ts[|ts| - 1].qty) else 0.0
  }

  predicate BoughtOrSold(t: UserTrade) { t.side != UnknownSide && t.qty != 0.0 }

  function TradedValue(ts: seq<UserTrade>): real {
    if ts == [] then 0.0
    else
      var t := ts[|ts| - 1];
      TradedValue(ts[..|ts| - 1]) + if BoughtOrSold(t) then Size(t.qty) * t.price else 0.0
  }

  function Charged(ts: seq<UserTrade>): real {
    if ts == [] then 0.0
    else Charged(ts[..|ts| - 1]) + if BoughtOrSold(ts[|ts| - 1]) then ts[|ts| - 1].commission else 0.0
  }

  function FreeValue(ts: seq<UserTrade>): real {
    if ts == [] then 0.0
    else
      var t := ts[|ts| - 1];
      FreeValue(ts[..|ts| - 1]) + if BoughtOrSold(t) && t.commission == 0.0 then Size(t.qty) * t.price else 0.0
  }

  lemma {:induction false} TotalsOfTrades(accountId: int, marketId: int, ts: seq<UserTrade>, es: seq<Execution>)
    requires Converted(accountId, marketId, ts, es)
    ensures Bought(es) == QtyBought(ts) && Sold(es) == QtySold(ts) && Turnover(es) == TradedValue(ts)
    ensures Commissions(es) == Charged(ts) && FreeTurnover(es) == FreeValue(ts) && Moves(es) <= |ts|
  {
    if ts != [] {
      var n := |ts| - 1;
      TotalsOfTrades(accountId, marketId, ts[..n], es[..n]);
      OneTrade(accountId, marketId, ts[n]);
      hide IsFill, ToExecution, BoughtOrSold;
    }
  }

  lemma OneTrade(accountId: int, marketId: int, t: UserTrade)
    ensures var e := ToExecution(accountId, marketId, t);
      && (IsFill(e) <==> BoughtOrSold(t))
      && e.side == t.side && e.lastQty == t.qty && e.lastPx == t.price && e.fee == t.commission
      && (t.qty == 0.0 ==> Size(t.qty) == 0.0)
      && (IsFill(e) && e.side == Buy <==> t.side == Buy && t.qty != 0.0)
      && (IsFill(e) && e.side == Sell <==> t.side == Sell && t.qty != 0.0)
  {
  }

  /** A history that was fetched whole and folded from flat is what the exchange says was traded: bought
      less sold, the two volumes, the commissions and, where there were none, the rate. */
  lemma FetchedAccountIsItsTotals(accountId: int, marketId: int, ledger: seq<UserTrade>, gtTs: int, nowMs: int,
                                  i: nat, j: nat, hist: seq<Execution>, feePercent: real, contractSize: real)
    requires TimeOrdered(ledger) && (gtTs >= 0 || forall k :: 0 <= k < |ledger| ==> ledger[k].timeMs > 0)
    requires forall k :: 0 <= k < |ledger| && BoughtOrSold(ledger[k]) ==> ledger[k].price > 0.0
    requires WantedSlice(ledger, gtTs, nowMs, i, j) && NothingCut(ledger, gtTs, nowMs)
    requires Converted(accountId, marketId, Windowed(ledger, TruncThousand(gtTs) + 1, nowMs), hist)
    ensures var p, ts := ApplyAll(NewPosition(feePercent, contractSize), hist), ledger[i..j];
      && Size(p.amount - (QtyBought(ts) - QtySold(ts))) <= (j - i) as real * EPSILON
      && p.quoteVolume2 == QtyBought(ts) + QtySold(ts) && p.quoteVolume == Scaled(TradedValue(ts), contractSize)
      && p.fees == Charged(ts) + AtRate(FreeValue(ts), feePercent, contractSize)
  {
    hide Windowed, ApplyAll, CleanWindows, Dustless, CurrentPnl, Paid, Gaps;
    hide Bought, Sold, Turnover, Commissions, FreeTurnover, Moves;
    hide QtyBought, QtySold, TradedValue, Charged, FreeValue;
    HistoryIsComplete(ledger, gtTs, nowMs, i, j);
    var ts := ledger[i..j];
    TotalsOfTrades(accountId, marketId, ts, hist);
    forall k | 0 <= k < |hist| && IsFill(hist[k]) ensures hist[k].lastPx > 0.0 {
      OneTrade(accountId, marketId, ts[k]);
      assert ts[k] == ledger[i + k];
    }
    AccountIsItsTotals(hist, feePercent, contractSize, 0.0);
    assert Moves(hist) as real * EPSILON <= (j - i) as real * EPSILON;
  }
}
