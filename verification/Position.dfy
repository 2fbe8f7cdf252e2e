/**
 The trading position of src/xcommons/position.rs: average price, realized PnL, fees and volumes,
 with an epsilon that snaps tiny residuals to exactly flat. Amounts and prices are exact reals.

 The functions say what one trade does to a position value; the class `Position` carries the fields
 and the branches of the original methods and is proved against those functions.
 */
module Positions {
  import opened Common

  const EPSILON: real := 0.00000001
  const U32_MAX: nat := 4294967295

  datatype PositionState = PositionState(
    amount: real, avp: real, realized: real, fees: real, feePercent: real,
    quoteVolume: real, quoteVolume2: real, tradesCount: nat, contractSize: real)

  /** One call of `trade_with_fee`: `fee == None` means the computed fee is kept. */
  datatype Fill = Fill(qty: real, price: real, fee: Option<real>)

  function Abs(x: real): real { if x < 0.0 then -x else x }

  function Max(x: real, y: real): real { if x < y then y else x }

  function Min(x: real, y: real): real { if x < y then x else y }

  function NewPosition(feePercent: real, contractSize: real): PositionState {
    PositionState(0.0, 0.0, 0.0, 0.0, feePercent, 0.0, 0.0, 0, contractSize)
  }

  // ---------- what one trade does ----------

  /** The amount after a trade: residuals below EPSILON are snapped to flat. */
  function NextAmount(amount: real, qty: real): real {
    if Abs(amount + qty) < EPSILON then 0.0 else amount + qty
  }

  /** The part of the position `a` that is still there when the amount has become `b`. */
  function Kept(a: real, b: real): real {
    if a > 0.0 then Max(0.0, Min(a, b)) else Min(0.0, Max(a, b))
  }

  /** The signed part of the position that a trade closes; dust counts as flat. */
  function ClosedQuantity(amount: real, qty: real): real {
    if Abs(amount) < EPSILON then 0.0 else amount - Kept(amount, NextAmount(amount, qty))
  }

  /** The average price after a trade. */
  function NextAverage(amount: real, avp: real, qty: real, price: real): real {
    var b := NextAmount(amount, qty);
    if Abs(amount) < EPSILON then price
    else if b == 0.0 then avp
    else if (amount > 0.0) != (b > 0.0) then price
    else if Abs(b) > Abs(amount) then WeightedAverage(amount, avp, qty, price)
    else avp
  }

  /** The fee booked for one fill: the exchange's when given, else the configured percentage. */
  function FeeOf(feePercent: real, contractSize: real, f: Fill): real {
    match f.fee
    case Some(x) => x
    case None => BaseFee(feePercent, contractSize, f.qty, f.price)
  }

  function BaseFee(feePercent: real, contractSize: real, qty: real, price: real): real {
    feePercent * Abs(qty) * price * contractSize
  }

  function QuoteValue(contractSize: real, qty: real, price: real): real {
    Abs(qty) * price * contractSize
  }

  function Book(p: PositionState, f: Fill): PositionState {
    p.(amount := NextAmount(p.amount, f.qty),
       avp := NextAverage(p.amount, p.avp, f.qty, f.price),
       realized := p.realized + TradePnl(p.avp, p.contractSize, ClosedQuantity(p.amount, f.qty), f.price)
                   - FeeOf(p.feePercent, p.contractSize, f),
       fees := p.fees + FeeOf(p.feePercent, p.contractSize, f),
       quoteVolume := p.quoteVolume + QuoteValue(p.contractSize, f.qty, f.price),
       quoteVolume2 := p.quoteVolume2 + Abs(f.qty),
       tradesCount := if p.tradesCount < U32_MAX then p.tradesCount + 1 else p.tradesCount)
  }

  function BookAll(p: PositionState, fills: seq<Fill>): PositionState {
    if fills == [] then p else Book(BookAll(p, fills[..|fills| - 1]), fills[|fills| - 1])
  }

  /** What the two run-time assertions of `trade` demand of a caller. */
  predicate Accepts(p: PositionState, qty: real, price: real) {
    && qty != 0.0
    && (Opens(p.amount, qty) ==> NextAverage(p.amount, p.avp, qty, price) > 0.0)
  }

  /** Whether a trade goes through `increase_position`, whose assertion checks the new average price. */
  predicate Opens(amount: real, qty: real) {
    var b := NextAmount(amount, qty);
    || Abs(amount) < EPSILON
    || (b != 0.0 && ((amount > 0.0) != (b > 0.0) || Abs(b) > Abs(amount)))
  }

  function TradePnl(avp: real, contractSize: real, qty: real, price: real): real {
    (price - avp) * qty * contractSize
  }

  function WeightedAverage(amount: real, avp: real, qty: real, price: real): real
    requires Abs(amount) >= EPSILON
  {
    (Abs(amount) * avp + price * Abs(qty)) / (Abs(qty) + Abs(amount))
  }

  function CurrentPnl(p: PositionState, price: real): real {
    if p.amount != 0.0 then p.realized + TradePnl(p.avp, p.contractSize, p.amount, price) else p.realized
  }

  /** Marks a long position at the bid and a short one at the ask. */
  function MarkToMarketPnl(p: PositionState, bid: real, ask: real): real
    requires bid <= ask
  {
    if p.amount != 0.0
    then p.realized + TradePnl(p.avp, p.contractSize, p.amount, if p.amount < 0.0 then ask else bid)
    else p.realized
  }

  // ---------- the mutable position ----------

  class Position {
    var amount: real
    var avp: real
    var realized: real
    var fees: real
    const feePercent: real
    var quoteVolume: real
    var quoteVolume2: real
    var tradesCount: nat
    const contractSize: real

    function Value(): PositionState
      reads this
    {
      PositionState(amount, avp, realized, fees, feePercent, quoteVolume, quoteVolume2, tradesCount, contractSize)
    }

    constructor (feePercent: real, contractSize: real)
      ensures Value() == NewPosition(feePercent, contractSize)
    {
      this.feePercent, this.contractSize := feePercent, contractSize;
      amount, avp, realized, fees := 0.0, 0.0, 0.0, 0.0;
      quoteVolume, quoteVolume2, tradesCount := 0.0, 0.0, 0;
    }

    /** A position picked up again from its stored value. */
    constructor From(v: PositionState)
      ensures Value() == v
    {
      feePercent, contractSize := v.feePercent, v.contractSize;
      amount, avp, realized, fees := v.amount, v.avp, v.realized, v.fees;
      quoteVolume, quoteVolume2, tradesCount := v.quoteVolume, v.quoteVolume2, v.tradesCount;
    }

    method IncrementAveragePrice(qty: real, price: real) returns (r: real)
      ensures r == if Abs(amount) < EPSILON then price else WeightedAverage(amount, avp, qty, price)
    {
      if Abs(amount) < EPSILON {
        return price;
      }
      var weightedNotional := Abs(amount) * avp + price * Abs(qty);
      var newAbsAmount := Abs(qty) + Abs(amount);
      return weightedNotional / newAbsAmount;
    }

    method IncreasePosition(qty: real, price: real)
      requires (if Abs(amount) < EPSILON then price else WeightedAverage(amount, avp, qty, price)) > 0.0
      modifies this`amount, this`avp
      ensures amount == old(amount) + qty && avp > 0.0
      ensures avp == if Abs(old(amount)) < EPSILON then price else WeightedAverage(old(amount), old(avp), qty, price)
    {
      avp := IncrementAveragePrice(qty, price);
      assert avp > 0.0;
      amount := amount + qty;
    }

    method DecreasePosition(qty: real, price: real)
      requires Abs(amount) >= EPSILON
      modifies this`amount, this`realized
      ensures amount == old(amount) + qty
      ensures realized == old(realized) + TradePnl(avp, contractSize, -qty, price)
      ensures realized + TradePnl(avp, contractSize, amount, price)
           == old(realized) + TradePnl(avp, contractSize, old(amount), price)
    {
      SumOfPnl(avp, avp, contractSize, amount + qty, -qty, price);
      realized := realized + TradePnl(avp, contractSize, -qty, price);
      amount := amount + qty;
    }

    /** The branches of `trade`: increase, close, reduce, or close and reopen on the other side. */
    method Move(requestedQuantity: real, price: real)
      requires Accepts(Value(), requestedQuantity, price)
      modifies this`amount, this`avp, this`realized
      ensures amount == NextAmount(old(amount), requestedQuantity)
      ensures avp == NextAverage(old(amount), old(avp), requestedQuantity, price)
      ensures realized == old(realized)
                          + TradePnl(old(avp), contractSize, ClosedQuantity(old(amount), requestedQuantity), price)
    {
      var tradeQuantity := requestedQuantity;
      if Abs(amount + requestedQuantity) < EPSILON {
        tradeQuantity := -amount;
      }
      var pending := amount + tradeQuantity;
      if Abs(amount) < EPSILON {
        IncreasePosition(tradeQuantity, price);
        assert TradePnl(old(avp), contractSize, 0.0, price) == 0.0;
      } else if Abs(pending) < EPSILON {
        DecreasePosition(tradeQuantity, price);
      } else if (amount > 0.0) == (pending > 0.0) {
        if Abs(pending) > Abs(amount) {
          IncreasePosition(tradeQuantity, price);
          assert TradePnl(old(avp), contractSize, 0.0, price) == 0.0;
        } else {
          DecreasePosition(tradeQuantity, price);
        }
      } else {
        DecreasePosition(-amount, price);
        IncreasePosition(pending, price);
      }
      if Abs(pending) < EPSILON && amount != 0.0 {
        assert false;  // the closing snap: in exact arithmetic there is nothing left to clear
      }
    }

    method Trade(requestedQuantity: real, price: real)
      requires Accepts(Value(), requestedQuantity, price)
      modifies this
      ensures Value() == Book(old(Value()), Fill(requestedQuantity, price, None))
    {
      tradesCount := if tradesCount < U32_MAX then tradesCount + 1 else tradesCount;
      quoteVolume2 := quoteVolume2 + Abs(requestedQuantity);
      quoteVolume := quoteVolume + QuoteValue(contractSize, requestedQuantity, price);
      Move(requestedQuantity, price);
      var fee := BaseFee(feePercent, contractSize, requestedQuantity, price);
      fees := fees + fee;
      realized := realized - fee;
    }

    method TradeWithFee(requestedQuantity: real, price: real, exchangeFee: Option<real>)
      requires Accepts(Value(), requestedQuantity, price)
      modifies this
      ensures Value() == Book(old(Value()), Fill(requestedQuantity, price, exchangeFee))
    {
      Trade(requestedQuantity, price);
      if exchangeFee.Some? {
        var baseFee := BaseFee(feePercent, contractSize, requestedQuantity, price);
        if baseFee != 0.0 {
          fees := fees - baseFee;
          realized := realized + baseFee;
        }
        if exchangeFee.value != 0.0 {
          fees := fees + exchangeFee.value;
          realized := realized - exchangeFee.value;
        }
      }
    }
  }

  // ---------- dust control ----------

  /** What every reachable position satisfies: no dust, and a positive average price when not flat. */
  predicate Sound(p: PositionState) {
    && (p.amount == 0.0 || Abs(p.amount) >= EPSILON)
    && (p.amount != 0.0 ==> p.avp > 0.0)
  }

  predicate Tradable(fills: seq<Fill>) {
    forall i :: 0 <= i < |fills| ==> fills[i].qty != 0.0 && fills[i].price > 0.0
  }

  /** One trade at a positive price never trips an assertion, and leaves no dust behind. */
  lemma BookKeepsSound(p: PositionState, f: Fill)
    requires Sound(p) && f.qty != 0.0 && f.price > 0.0
    ensures Accepts(p, f.qty, f.price)
    ensures Sound(Book(p, f))
  {
    if Abs(p.amount) >= EPSILON {
      WeightedAveragePositive(p.amount, p.avp, f.qty, f.price);
    }
  }

  lemma WeightedAveragePositive(amount: real, avp: real, qty: real, price: real)
    requires Abs(amount) >= EPSILON && avp > 0.0 && price > 0.0
    ensures WeightedAverage(amount, avp, qty, price) > 0.0
  {
    var a, q := Abs(amount), Abs(qty);
    assert a * avp > 0.0 && price * q >= 0.0;
    assert (a * avp + price * q) / (q + a) > 0.0;
  }

  function RequestedSum(fills: seq<Fill>): real {
    if fills == [] then 0.0 else RequestedSum(fills[..|fills| - 1]) + fills[|fills| - 1].qty
  }

  /** Every run of trades at positive prices is accepted throughout and stays free of dust; the
      amount drifts from the exact sum of the requested quantities by at most EPSILON a trade. */
  lemma {:induction false} RunIsSound(fills: seq<Fill>, feePercent: real, contractSize: real)
    requires Tradable(fills)
    ensures var p := BookAll(NewPosition(feePercent, contractSize), fills);
      && Sound(p)
      && Abs(p.amount - RequestedSum(fills)) <= |fills| as real * EPSILON
    ensures AcceptedThroughout(NewPosition(feePercent, contractSize), fills)
  {
    if fills != [] {
      var n := |fills| - 1;
      var zero := NewPosition(feePercent, contractSize);
      RunIsSound(fills[..n], feePercent, contractSize);
      BookKeepsSound(BookAll(zero, fills[..n]), fills[n]);
      assert |fills| as real * EPSILON == n as real * EPSILON + EPSILON;
    }
  }

  /** No trade of the run trips an assertion. */
  predicate AcceptedThroughout(p: PositionState, fills: seq<Fill>) {
    fills == [] || (
      var prev, f := fills[..|fills| - 1], fills[|fills| - 1];
      AcceptedThroughout(p, prev) && Accepts(BookAll(p, prev), f.qty, f.price))
  }

  // ---------- totals ----------

  function Volume(fills: seq<Fill>): real {
    if fills == [] then 0.0 else Volume(fills[..|fills| - 1]) + Abs(fills[|fills| - 1].qty)
  }

  function Notional(fills: seq<Fill>): real {
    if fills == [] then 0.0
    else Notional(fills[..|fills| - 1]) + ValueOf(fills[|fills| - 1])
  }

  function ValueOf(f: Fill): real { Abs(f.qty) * f.price }

  function Scaled(value: real, contractSize: real): real { value * contractSize }

  lemma OneMoreValue(before: real, f: Fill, contractSize: real)
    ensures Scaled(before + ValueOf(f), contractSize)
         == Scaled(before, contractSize) + QuoteValue(contractSize, f.qty, f.price)
  {
    assert (before + Abs(f.qty) * f.price) * contractSize
        == before * contractSize + Abs(f.qty) * f.price * contractSize;
  }

  /** Over any run the volumes are the totals of what was requested, and the count saturates. */
  lemma {:induction false} RunTotals(fills: seq<Fill>, feePercent: real, contractSize: real)
    ensures var p := BookAll(NewPosition(feePercent, contractSize), fills);
      && p.quoteVolume2 == Volume(fills)
      && p.quoteVolume == Scaled(Notional(fills), contractSize)
      && p.tradesCount == (if |fills| < U32_MAX then |fills| else U32_MAX)
  {
    if fills != [] {
      hide NextAmount, NextAverage, ClosedQuantity, TradePnl, FeeOf, QuoteValue, ValueOf;
      var prev, f := fills[..|fills| - 1], fills[|fills| - 1];
      RunTotals(prev, feePercent, contractSize);
      KeepsFields(prev, NewPosition(feePercent, contractSize));
      OneMoreValue(Notional(prev), f, contractSize);
    }
  }

  // ---------- fees ----------

  /** What the exchange charged, and the value of the fills it charged nothing for. */
  function Charges(fills: seq<Fill>): real {
    if fills == [] then 0.0
    else Charges(fills[..|fills| - 1]) + fills[|fills| - 1].fee.GetOr(0.0)
  }

  function Uncharged(fills: seq<Fill>): real {
    if fills == [] then 0.0
    else
      Uncharged(fills[..|fills| - 1])
      + if fills[|fills| - 1].fee.Some? then 0.0 else ValueOf(fills[|fills| - 1])
  }

  function AtRate(value: real, feePercent: real, contractSize: real): real { feePercent * contractSize * value }

  lemma RateOnOneMore(before: real, f: Fill, feePercent: real, contractSize: real)
    ensures AtRate(before + ValueOf(f), feePercent, contractSize)
         == AtRate(before, feePercent, contractSize) + BaseFee(feePercent, contractSize, f.qty, f.price)
    ensures AtRate(0.0, feePercent, contractSize) == 0.0
  {
    var k, v := feePercent * contractSize, Abs(f.qty) * f.price;
    assert k * (before + v) == k * before + k * v;
    assert k * v == feePercent * Abs(f.qty) * f.price * contractSize;
  }

  /** Over any run the fees are what the exchange charged, and the rate on the value of the other fills. */
  lemma {:induction false} FeesAreCharges(fills: seq<Fill>, feePercent: real, contractSize: real)
    ensures BookAll(NewPosition(feePercent, contractSize), fills).fees
         == Charges(fills) + AtRate(Uncharged(fills), feePercent, contractSize)
  {
    hide NextAmount, NextAverage, ClosedQuantity, TradePnl, QuoteValue, AtRate, ValueOf, BaseFee;
    if fills == [] {
      RateOnOneMore(0.0, Fill(0.0, 0.0, None), feePercent, contractSize);
    } else {
      var prev, f := fills[..|fills| - 1], fills[|fills| - 1];
      FeesAreCharges(prev, feePercent, contractSize);
      KeepsFields(prev, NewPosition(feePercent, contractSize));
      RateOnOneMore(Uncharged(prev), f, feePercent, contractSize);
    }
  }

  /** Without charges of the exchange the fees are the rate on the quote volume. */
  lemma FeesAreRateOnVolume(fills: seq<Fill>, feePercent: real, contractSize: real)
    requires forall i :: 0 <= i < |fills| ==> fills[i].fee == None
    ensures var p := BookAll(NewPosition(feePercent, contractSize), fills); p.fees == feePercent * p.quoteVolume
  {
    hide BookAll, Notional, Charges, Uncharged;
    FeesAreCharges(fills, feePercent, contractSize);
    RunTotals(fills, feePercent, contractSize);
    NothingCharged(fills);
    RateOnVolume(Notional(fills), feePercent, contractSize);
  }

  lemma RateOnVolume(value: real, feePercent: real, contractSize: real)
    ensures AtRate(value, feePercent, contractSize) == feePercent * Scaled(value, contractSize)
  {
  }

  lemma {:induction false} NothingCharged(fills: seq<Fill>)
    requires forall i :: 0 <= i < |fills| ==> fills[i].fee == None
    ensures Charges(fills) == 0.0 && Uncharged(fills) == Notional(fills)
  {
    if fills != [] {
      hide ValueOf;
      NothingCharged(fills[..|fills| - 1]);
    }
  }

  // ---------- accounting identity ----------

  /** A bare cash account: it knows nothing of average prices. */
  datatype CashAccount = CashAccount(amount: real, cash: real, fees: real)

  function Settle(c: CashAccount, feePercent: real, contractSize: real, f: Fill): CashAccount {
    var b := NextAmount(c.amount, f.qty);
    CashAccount(b,
                c.cash - (b - c.amount) * f.price * contractSize,
                c.fees + FeeOf(feePercent, contractSize, f))
  }

  function SettleAll(feePercent: real, contractSize: real, fills: seq<Fill>): CashAccount {
    if fills == [] then CashAccount(0.0, 0.0, 0.0)
    else Settle(SettleAll(feePercent, contractSize, fills[..|fills| - 1]), feePercent, contractSize, fills[|fills| - 1])
  }

  /** The heart of the identity: realized PnL of the closed part plus the change of carried cost
      is exactly the cash that moved. */
  lemma CarriedCost(amount: real, avp: real, qty: real, price: real)
    requires amount == 0.0 || Abs(amount) >= EPSILON
    ensures (price - avp) * ClosedQuantity(amount, qty)
            == NextAmount(amount, qty) * NextAverage(amount, avp, qty, price) - amount * avp
               - (NextAmount(amount, qty) - amount) * price
  {
    var b := NextAmount(amount, qty);
    if amount != 0.0 && b != 0.0 && (amount > 0.0) == (b > 0.0) && Abs(b) > Abs(amount) {
      var a, q := Abs(amount), Abs(qty);
      var w := WeightedAverage(amount, avp, qty, price);
      assert w * (q + a) == a * avp + price * q;
      assert Abs(b) == q + a;
    }
  }

  /** The position and the cash account tell the same story. */
  predicate Reconciled(p: PositionState, c: CashAccount) {
    && p.amount == c.amount && p.fees == c.fees
    && p.realized + p.fees == p.contractSize * (p.amount * p.avp) + c.cash
  }

  /** Mark-to-market value of a cash account. */
  function MarkedValue(c: CashAccount, contractSize: real, mark: real): real {
    c.cash + c.amount * mark * contractSize - c.fees
  }

  /** Over every trade sequence - through increases, reductions, closes and reversals, and any mix of
      fee overrides - the position is the cash account: mark-to-market PnL at any price is cash flow
      plus the value of the amount, less fees, whatever the average price is. */
  lemma PnlIsCashFlow(fills: seq<Fill>, feePercent: real, contractSize: real, mark: real)
    requires Tradable(fills)
    ensures var p := BookAll(NewPosition(feePercent, contractSize), fills);
      var c := SettleAll(feePercent, contractSize, fills);
      Reconciled(p, c) && CurrentPnl(p, mark) == MarkedValue(c, contractSize, mark)
  {
    ReconciledThroughout(fills, feePercent, contractSize);
    KeepsFields(fills, NewPosition(feePercent, contractSize));
    MarkIdentity(BookAll(NewPosition(feePercent, contractSize), fills),
                 SettleAll(feePercent, contractSize, fills), mark);
  }

  lemma {:induction false} ReconciledThroughout(fills: seq<Fill>, feePercent: real, contractSize: real)
    requires Tradable(fills)
    ensures Reconciled(BookAll(NewPosition(feePercent, contractSize), fills),
                       SettleAll(feePercent, contractSize, fills))
  {
    if fills != [] {
      var zero := NewPosition(feePercent, contractSize);
      var prev := fills[..|fills| - 1];
      ReconciledThroughout(prev, feePercent, contractSize);
      RunIsSound(prev, feePercent, contractSize);
      KeepsFields(prev, zero);
      OneStepIdentity(BookAll(zero, prev), fills[|fills| - 1], SettleAll(feePercent, contractSize, prev));
    }
  }

  lemma {:induction false} KeepsFields(fills: seq<Fill>, p: PositionState)
    ensures BookAll(p, fills).feePercent == p.feePercent && BookAll(p, fills).contractSize == p.contractSize
  {
    if fills != [] { KeepsFields(fills[..|fills| - 1], p); }
  }

  lemma OneStepIdentity(p: PositionState, f: Fill, c: CashAccount)
    requires p.amount == 0.0 || Abs(p.amount) >= EPSILON
    requires Reconciled(p, c)
    ensures Reconciled(Book(p, f), Settle(c, p.feePercent, p.contractSize, f))
  {
    hide NextAmount, NextAverage, ClosedQuantity, TradePnl, FeeOf;
    StepBalances(p.contractSize, p.amount, p.avp, p.realized, p.fees, c.cash,
                 FeeOf(p.feePercent, p.contractSize, f), f.qty, f.price);
  }

  lemma StepBalances(scale: real, amount: real, avp: real, realized: real, fees: real, cash: real,
                     fee: real, qty: real, price: real)
    requires amount == 0.0 || Abs(amount) >= EPSILON
    requires realized + fees == scale * (amount * avp) + cash
    ensures var b := NextAmount(amount, qty);
      (realized + TradePnl(avp, scale, ClosedQuantity(amount, qty), price) - fee) + (fees + fee)
      == scale * (b * NextAverage(amount, avp, qty, price)) + (cash - (b - amount) * price * scale)
  {
    hide NextAmount, NextAverage, ClosedQuantity;
    var b, closed := NextAmount(amount, qty), ClosedQuantity(amount, qty);
    CarriedCost(amount, avp, qty, price);
    Rebalance(scale, realized, fees, cash, TradePnl(avp, scale, closed, price), fee,
              (price - avp) * closed, amount * avp, b * NextAverage(amount, avp, qty, price), (b - amount) * price);
  }

  lemma Rebalance(scale: real, realized: real, fees: real, cash: real, pnl: real, fee: real,
                  gain: real, cost: real, cost': real, paid: real)
    requires realized + fees == scale * cost + cash
    requires pnl == gain * scale && gain == cost' - cost - paid
    ensures (realized + pnl - fee) + (fees + fee) == scale * cost' + (cash - paid * scale)
  {
    assert gain * scale == scale * cost' - scale * cost - paid * scale;
  }

  lemma MarkIdentity(p: PositionState, c: CashAccount, mark: real)
    requires Reconciled(p, c)
    ensures CurrentPnl(p, mark) == MarkedValue(c, p.contractSize, mark)
  {
    var held, marked := p.amount * p.avp, p.amount * mark;
    assert (mark - p.avp) * p.amount == marked - held;
    assert (mark - p.avp) * p.amount * p.contractSize == marked * p.contractSize - p.contractSize * held;
  }

  // ---------- profit told from the requested fills ----------

  /** What the requested fills cost, sales counting negative. */
  function Spent(fills: seq<Fill>): real {
    if fills == [] then 0.0
    else Spent(fills[..|fills| - 1]) + Cost(fills[|fills| - 1])
  }

  function Cost(f: Fill): real { f.qty * f.price }

  /** How far the prices of the fills are from the mark, in all. */
  function Spread(fills: seq<Fill>, mark: real): real {
    if fills == [] then 0.0
    else Spread(fills[..|fills| - 1], mark) + Abs(mark - fills[|fills| - 1].price)
  }

  /** No running total of the requested quantities is dust. */
  predicate NoDust(fills: seq<Fill>) {
    fills == [] || (NoDust(fills[..|fills| - 1]) && (RequestedSum(fills) == 0.0 || Abs(RequestedSum(fills)) >= EPSILON))
  }

  lemma SnapIsSmall(amount: real, qty: real)
    ensures Abs(NextAmount(amount, qty) - (amount + qty)) <= EPSILON
  {
  }

  /** The cash account, marked, against what the requested fills are worth. */
  function Deviation(scale: real, mark: real, amount: real, cash: real, sum: real, spent: real): real {
    cash + amount * mark * scale - scale * (mark * sum - spent)
  }

  function Tolerance(scale: real, spread: real): real { EPSILON * Abs(scale) * spread }

  /** The value at the mark of a quantity that a fill left unbooked. */
  function Missed(scale: real, gap: real, quantity: real): real { scale * gap * quantity }

  lemma ValueStep(scale: real, mark: real, price: real, amount: real, b: real, cash: real, cash': real,
                  sum: real, spent: real, spent': real, qty: real)
    requires cash' == cash - (b - amount) * price * scale && spent' == spent + qty * price
    ensures Deviation(scale, mark, b, cash', sum + qty, spent')
         == Deviation(scale, mark, amount, cash, sum, spent) + Missed(scale, mark - price, b - (amount + qty))
  {
    var d := b - amount;
    assert d * price * scale == scale * (d * price) && d * mark * scale == scale * (d * mark);
    assert b * mark * scale == amount * mark * scale + d * mark * scale;
    assert scale * (mark * (sum + qty) - (spent + qty * price))
        == scale * (mark * sum - spent) + scale * (mark * qty - qty * price);
    assert scale * (mark - price) * (d - qty)
        == scale * (d * mark) - scale * (d * price) - scale * (mark * qty - qty * price);
  }

  lemma AbsOfProduct(x: real, y: real)
    ensures Abs(x * y) == Abs(x) * Abs(y) >= 0.0
  {
    if x >= 0.0 {
      assert y >= 0.0 ==> x * y >= 0.0;
      assert y <= 0.0 ==> x * y <= 0.0;
    } else {
      assert y >= 0.0 ==> x * y <= 0.0;
      assert y <= 0.0 ==> x * y >= 0.0;
    }
  }

  lemma Widens(e: real, s: real, spread: real, g: real, m: real, d: real)
    requires m == s * g && m >= 0.0 && d <= e
    ensures e * s * (spread + g) >= e * s * spread + m * d
  {
    assert e * s * (spread + g) == e * s * spread + e * (s * g);
    assert m * d <= m * e;
  }

  lemma MissedIsSmall(scale: real, gap: real, d: real, spread: real)
    requires Abs(d) <= EPSILON
    ensures Tolerance(scale, spread + Abs(gap)) >= Tolerance(scale, spread) + Abs(Missed(scale, gap, d))
    ensures d == 0.0 ==> Missed(scale, gap, d) == 0.0
  {
    hide Abs, Tolerance;
    var g := scale * gap;
    AbsOfProduct(scale, gap);
    AbsOfProduct(g, d);
    assert Missed(scale, gap, d) == g * d;
    Tolerates(scale, Abs(gap), spread, Abs(g), Abs(d));
  }

  lemma Tolerates(scale: real, gap: real, spread: real, m: real, d: real)
    requires m == Abs(scale) * gap && m >= 0.0 && d <= EPSILON
    ensures Tolerance(scale, spread + gap) >= Tolerance(scale, spread) + m * d
  {
    hide Abs;
    Widens(EPSILON, Abs(scale), spread, gap, m, d);
  }

  lemma DeviationStep(scale: real, mark: real, f: Fill, c: CashAccount, sum: real, spent: real, spread: real,
                      feePercent: real)
    requires Abs(Deviation(scale, mark, c.amount, c.cash, sum, spent)) <= Tolerance(scale, spread)
    ensures var d := Settle(c, feePercent, scale, f);
      var after := Deviation(scale, mark, d.amount, d.cash, sum + f.qty, spent + Cost(f));
      && d.amount == NextAmount(c.amount, f.qty)
      && Abs(after) <= Tolerance(scale, spread + Abs(mark - f.price))
      && (d.amount == c.amount + f.qty ==> after == Deviation(scale, mark, c.amount, c.cash, sum, spent))
  {
    hide Deviation, Tolerance, Missed, FeeOf;
    var d := Settle(c, feePercent, scale, f);
    SnapIsSmall(c.amount, f.qty);
    ValueStep(scale, mark, f.price, c.amount, d.amount, c.cash, d.cash, sum, spent, spent + Cost(f), f.qty);
    MissedIsSmall(scale, mark - f.price, d.amount - (c.amount + f.qty), spread);
  }

  lemma NothingDeviates(scale: real, mark: real)
    ensures Deviation(scale, mark, 0.0, 0.0, 0.0, 0.0) == 0.0 == Tolerance(scale, 0.0)
  {
  }

  lemma {:induction false} DeviationIsSmall(fills: seq<Fill>, feePercent: real, contractSize: real, mark: real)
    ensures var c := SettleAll(feePercent, contractSize, fills);
      var deviation := Deviation(contractSize, mark, c.amount, c.cash, RequestedSum(fills), Spent(fills));
      && Abs(deviation) <= Tolerance(contractSize, Spread(fills, mark))
      && (NoDust(fills) ==> deviation == 0.0 && c.amount == RequestedSum(fills))
  {
    if fills == [] {
      NothingDeviates(contractSize, mark);
    } else {
      hide Deviation, Tolerance, Settle, Cost;
      var prev, f := fills[..|fills| - 1], fills[|fills| - 1];
      var c := SettleAll(feePercent, contractSize, prev);
      DeviationIsSmall(prev, feePercent, contractSize, mark);
      DeviationStep(contractSize, mark, f, c, RequestedSum(prev), Spent(prev), Spread(prev, mark), feePercent);
    }
  }

  /** What the requested fills are worth at a mark, less what they cost. */
  function Worth(scale: real, mark: real, sum: real, spent: real): real { scale * (mark * sum - spent) }

  /** Marked PnL is what the requested fills are worth at the mark less what they cost and the fees, up to
      an EPSILON of quantity per fill; exactly so when no running total is dust. */
  lemma PnlIsTradedValue(fills: seq<Fill>, feePercent: real, contractSize: real, mark: real)
    requires Tradable(fills)
    ensures var p := BookAll(NewPosition(feePercent, contractSize), fills);
      var worth := Worth(contractSize, mark, RequestedSum(fills), Spent(fills)) - p.fees;
      && Abs(CurrentPnl(p, mark) - worth) <= Tolerance(contractSize, Spread(fills, mark))
      && (NoDust(fills) ==> CurrentPnl(p, mark) == worth && p.amount == RequestedSum(fills))
  {
    hide BookAll, SettleAll, CurrentPnl, Spread, RequestedSum, Spent, NoDust, Tolerance, MarkedValue, Deviation, Worth;
    PnlIsCashFlow(fills, feePercent, contractSize, mark);
    DeviationIsSmall(fills, feePercent, contractSize, mark);
    var c := SettleAll(feePercent, contractSize, fills);
    WorthIsDeviation(contractSize, mark, c, RequestedSum(fills), Spent(fills));
  }

  lemma WorthIsDeviation(scale: real, mark: real, c: CashAccount, sum: real, spent: real)
    ensures MarkedValue(c, scale, mark) - (Worth(scale, mark, sum, spent) - c.fees)
         == Deviation(scale, mark, c.amount, c.cash, sum, spent)
  {
  }

  /** Marking to market is the worse of valuing at the bid and valuing at the ask. */
  lemma MarkIsTheWorseSide(p: PositionState, bid: real, ask: real)
    requires bid <= ask && p.contractSize >= 0.0
    ensures MarkToMarketPnl(p, bid, ask) == Min(CurrentPnl(p, bid), CurrentPnl(p, ask))
  {
    var low, high := (bid - p.avp) * p.amount, (ask - p.avp) * p.amount;
    assert high - low == (ask - bid) * p.amount;
    if p.amount >= 0.0 {
      assert (ask - bid) * p.amount >= 0.0;
      assert (high - low) * p.contractSize >= 0.0;
    } else {
      assert (ask - bid) * p.amount <= 0.0;
      assert (high - low) * p.contractSize <= 0.0;
    }
    assert (high - low) * p.contractSize == high * p.contractSize - low * p.contractSize;
  }

  // ---------- splitting a trade ----------

  /** Equal in everything but the number of trades. */
  predicate SameButCount(p: PositionState, r: PositionState) {
    p.(tradesCount := 0) == r.(tradesCount := 0)
  }

  /** Checked before trading: what the amount left after the first part must look like. */
  predicate Splittable(p: PositionState, q1: real, q2: real, price: real) {
    var m := p.amount + q1;
    || Abs(m) >= EPSILON
    || (m == 0.0 && Abs(q2) >= EPSILON)
    || (p.amount == 0.0 && Abs(q1 + q2) < EPSILON)
    || (p.amount != 0.0 && Abs(q2) < EPSILON && Abs(m + q2) < EPSILON && p.avp == price)
  }

  /** Trading in two same-side parts at one price gives exactly what the whole trade gives - amount,
      average price, realized PnL, fees and volumes, across a reversal too - if and only if the
      split is a `Splittable` one. */
  lemma SplitTrade(p: PositionState, q1: real, q2: real, price: real)
    requires Sound(p) && price > 0.0 && q1 != 0.0 && q2 != 0.0 && (q1 > 0.0) == (q2 > 0.0)
    ensures SameButCount(Book(Book(p, Fill(q1, price, None)), Fill(q2, price, None)),
                         Book(p, Fill(q1 + q2, price, None)))
            <==> Splittable(p, q1, q2, price)
  {
    var half := Book(p, Fill(q1, price, None));
    var parts, whole := Book(half, Fill(q2, price, None)), Book(p, Fill(q1 + q2, price, None));
    if Splittable(p, q1, q2, price) {
      SplitAverage(p, q1, q2, price);
      SplitRealized(p, q1, q2, price);
      SplitVolumes(p.feePercent, p.contractSize, q1, q2, price);
    } else {
      SplitFails(p, q1, q2, price);
    }
  }

  function Total(parts: seq<real>): real {
    if parts == [] then 0.0 else Total(parts[..|parts| - 1]) + parts[|parts| - 1]
  }

  /** The parts of one trade: all on its side. */
  predicate OneSided(parts: seq<real>) {
    forall i :: 0 <= i < |parts| ==> parts[i] != 0.0 && (parts[i] > 0.0) == (parts[0] > 0.0)
  }

  function BookParts(p: PositionState, parts: seq<real>, price: real): PositionState {
    if parts == [] then p
    else Book(BookParts(p, parts[..|parts| - 1], price), Fill(parts[|parts| - 1], price, None))
  }

  /** After every one of the parts the position is that of one trade of all the parts so far. */
  ghost predicate AddUp(p: PositionState, parts: seq<real>, price: real) {
    forall n :: 0 < n <= |parts| ==>
      SameButCount(BookParts(p, parts[..n], price), Book(p, Fill(Total(parts[..n]), price, None)))
  }

  /** No part is split badly from the parts before it. */
  ghost predicate AllSplittable(p: PositionState, parts: seq<real>, price: real) {
    forall n :: 0 < n < |parts| ==> Splittable(p, Total(parts[..n]), parts[n], price)
  }

  lemma {:induction false} TotalIsOneSided(parts: seq<real>)
    requires parts != [] && OneSided(parts)
    ensures Total(parts) != 0.0 && (Total(parts) > 0.0) == (parts[0] > 0.0)
  {
    if |parts| == 1 {
      assert parts[..0] == [];
    } else {
      TotalIsOneSided(parts[..|parts| - 1]);
    }
  }

  lemma BookSameButCount(p: PositionState, r: PositionState, f: Fill)
    requires SameButCount(p, r)
    ensures SameButCount(Book(p, f), Book(r, f))
  {
    hide NextAmount, NextAverage, ClosedQuantity, TradePnl, FeeOf, QuoteValue;
  }

  lemma SameButCountOrder(p: PositionState, q: PositionState, r: PositionState)
    requires SameButCount(p, q)
    ensures SameButCount(p, r) <==> SameButCount(q, r)
  {
  }

  /** One more part on top of parts that added up. */
  lemma AddUpStep(p: PositionState, q: seq<real>, last: real, price: real)
    requires Sound(p) && price > 0.0 && q != [] && OneSided(q + [last])
    requires SameButCount(BookParts(p, q, price), Book(p, Fill(Total(q), price, None)))
    ensures SameButCount(BookParts(p, q + [last], price), Book(p, Fill(Total(q + [last]), price, None)))
      <==> Splittable(p, Total(q), last, price)
  {
    hide Book, Splittable, SameButCount, Sound;
    assert (q + [last])[..|q|] == q && OneSided(q) && (q + [last])[|q|] == last && (q + [last])[0] == q[0];
    TotalIsOneSided(q);
    var part := Fill(last, price, None);
    BookSameButCount(BookParts(p, q, price), Book(p, Fill(Total(q), price, None)), part);
    SameButCountOrder(BookParts(p, q + [last], price), Book(Book(p, Fill(Total(q), price, None)), part),
                      Book(p, Fill(Total(q) + last, price, None)));
    SplitTrade(p, Total(q), last, price);
  }

  lemma FewPartsAddUp(p: PositionState, parts: seq<real>, price: real)
    requires |parts| <= 1
    ensures AddUp(p, parts, price) && AllSplittable(p, parts, price)
  {
    hide Book, Splittable;
    if |parts| == 1 {
      assert parts[..1] == parts && parts[..|parts| - 1] == [];
      assert Total(parts) == parts[0];
      assert BookParts(p, parts, price) == Book(p, Fill(parts[0], price, None));
    }
  }

  /** Trading in any number of same-side parts at one price gives after every part exactly what one trade
      of the same total gives, if and only if every part is `Splittable` from those before it. */
  lemma {:induction false} SplitIntoParts(p: PositionState, parts: seq<real>, price: real)
    requires Sound(p) && price > 0.0 && OneSided(parts)
    ensures AddUp(p, parts, price) <==> AllSplittable(p, parts, price)
  {
    hide AddUp, AllSplittable, Book, BookParts, Total, Splittable, SameButCount, Sound;
    if |parts| <= 1 {
      FewPartsAddUp(p, parts, price);
    } else {
      var k := |parts| - 1;
      var q := parts[..k];
      assert parts == q + [parts[k]];
      SplitIntoParts(p, q, price);
      OneMorePart(p, q, parts[k], price);
      if AddUp(p, q, price) {
        AddsUp(p, q, price);
        AddUpStep(p, q, parts[k], price);
      }
    }
  }

  lemma AddsUp(p: PositionState, parts: seq<real>, price: real)
    requires AddUp(p, parts, price) && parts != []
    ensures SameButCount(BookParts(p, parts, price), Book(p, Fill(Total(parts), price, None)))
  {
    hide Book, BookParts, Total, SameButCount;
    assert parts[..|parts|] == parts;
  }

  lemma OneMorePart(p: PositionState, q: seq<real>, last: real, price: real)
    ensures AddUp(p, q + [last], price) <==>
      && AddUp(p, q, price)
      && SameButCount(BookParts(p, q + [last], price), Book(p, Fill(Total(q + [last]), price, None)))
    ensures q != [] ==>
      (AllSplittable(p, q + [last], price) <==> AllSplittable(p, q, price) && Splittable(p, Total(q), last, price))
  {
    var parts := q + [last];
    hide BookParts, Book, Total, Splittable, SameButCount;
    assert parts[..|parts|] == parts && parts[..|q|] == q && parts[|q|] == last;
    forall n | 0 <= n <= |q| ensures parts[..n] == q[..n] {
    }
  }

  /** Buying half an EPSILON and then one unit: the first part is snapped away and the split loses it. */
  lemma SplitLosesDust()
    ensures var flat := NewPosition(0.0, 1.0);
      && Book(Book(flat, Fill(EPSILON / 2.0, 1.0, None)), Fill(1.0, 1.0, None)).amount == 1.0
      && Book(flat, Fill(EPSILON / 2.0 + 1.0, 1.0, None)).amount == 1.0 + EPSILON / 2.0
  {
    assert NextAmount(0.0, EPSILON / 2.0) == 0.0;
  }

  lemma SplitFails(p: PositionState, q1: real, q2: real, price: real)
    requires Sound(p) && price > 0.0 && q1 != 0.0 && q2 != 0.0 && (q1 > 0.0) == (q2 > 0.0)
    requires !Splittable(p, q1, q2, price)
    ensures var a := NextAmount(p.amount, q1);
      || NextAmount(a, q2) != NextAmount(p.amount, q1 + q2)
      || NextAverage(a, NextAverage(p.amount, p.avp, q1, price), q2, price)
         != NextAverage(p.amount, p.avp, q1 + q2, price)
  {
  }

  lemma SplitAverage(p: PositionState, q1: real, q2: real, price: real)
    requires Sound(p) && price > 0.0 && q1 != 0.0 && q2 != 0.0 && (q1 > 0.0) == (q2 > 0.0)
    requires Splittable(p, q1, q2, price)
    ensures var a := NextAmount(p.amount, q1);
      && NextAmount(a, q2) == NextAmount(p.amount, q1 + q2)
      && NextAverage(a, NextAverage(p.amount, p.avp, q1, price), q2, price)
         == NextAverage(p.amount, p.avp, q1 + q2, price)
  {
    var m := p.amount + q1;
    if Abs(m) >= EPSILON {
      if p.amount == 0.0 || (p.amount > 0.0) != (m > 0.0) {
        AveragedAtOnePrice(m, q2, price);
      } else if Abs(m) > Abs(p.amount) {
        AveragedTwice(p.amount, p.avp, q1, q2, price);
      }
    }
  }

  /** Adding to a position bought at this very price leaves the average where it is. */
  lemma AveragedAtOnePrice(a: real, q: real, price: real)
    requires Abs(a) >= EPSILON
    ensures WeightedAverage(a, price, q, price) == price
  {
    var x, y := Abs(a), Abs(q);
    assert x * price + price * y == price * (y + x);
  }

  /** Averaging in twice is averaging in once. */
  lemma AveragedTwice(a: real, avp: real, q1: real, q2: real, price: real)
    requires Abs(a) >= EPSILON && (a > 0.0) == (q1 > 0.0) == (q2 > 0.0) && q1 != 0.0 && q2 != 0.0
    ensures WeightedAverage(a + q1, WeightedAverage(a, avp, q1, price), q2, price)
            == WeightedAverage(a, avp, q1 + q2, price)
  {
    var x, y := Abs(q1), Abs(q2);
    assert Abs(a + q1) == Abs(a) + x && Abs(q1 + q2) == x + y;
    hide WeightedAverage, Mean;
    AverageIsMean(a, avp, q1, price);
    AverageIsMean(a + q1, Mean(Abs(a), avp, x, price), q2, price);
    AverageIsMean(a, avp, q1 + q2, price);
    MeanOfMean(Abs(a), avp, x, y, price);
  }

  function Mean(a: real, avp: real, q: real, price: real): real
    requires q + a > 0.0
  {
    (a * avp + price * q) / (q + a)
  }

  lemma AverageIsMean(amount: real, avp: real, qty: real, price: real)
    requires Abs(amount) >= EPSILON
    ensures WeightedAverage(amount, avp, qty, price) == Mean(Abs(amount), avp, Abs(qty), price)
  {
  }

  lemma MeanOfMean(a: real, avp: real, x: real, y: real, price: real)
    requires a > 0.0 && x > 0.0 && y > 0.0
    ensures Mean(a + x, Mean(a, avp, x, price), y, price) == Mean(a, avp, x + y, price)
  {
    Undivided(a * avp + price * x, x + a);
    SameCost(a * avp, price, x, y);
    assert y + (a + x) == (x + y) + a;
  }

  lemma Undivided(n: real, d: real)
    requires d > 0.0
    ensures d * (n / d) == n
  {
  }

  lemma SameCost(cost: real, price: real, x: real, y: real)
    ensures (cost + price * x) + price * y == cost + price * (x + y)
  {
  }

  lemma SplitRealized(p: PositionState, q1: real, q2: real, price: real)
    requires Sound(p) && price > 0.0 && q1 != 0.0 && q2 != 0.0 && (q1 > 0.0) == (q2 > 0.0)
    requires Splittable(p, q1, q2, price)
    ensures var half := Book(p, Fill(q1, price, None));
      TradePnl(p.avp, p.contractSize, ClosedQuantity(p.amount, q1), price)
      + TradePnl(half.avp, p.contractSize, ClosedQuantity(half.amount, q2), price)
      == TradePnl(p.avp, p.contractSize, ClosedQuantity(p.amount, q1 + q2), price)
  {
    var a := NextAmount(p.amount, q1);
    var avp' := NextAverage(p.amount, p.avp, q1, price);
    var c1, c2, c := ClosedQuantity(p.amount, q1), ClosedQuantity(a, q2), ClosedQuantity(p.amount, q1 + q2);
    assert c1 + c2 == c;
    assert c2 == 0.0 || avp' == p.avp;
    SumOfPnl(p.avp, avp', p.contractSize, c1, c2, price);
  }

  lemma SumOfPnl(avp: real, avp': real, contractSize: real, c1: real, c2: real, price: real)
    requires c2 == 0.0 || avp' == avp
    ensures TradePnl(avp, contractSize, c1, price) + TradePnl(avp', contractSize, c2, price)
            == TradePnl(avp, contractSize, c1 + c2, price)
  {
    assert TradePnl(avp', contractSize, c2, price) == TradePnl(avp, contractSize, c2, price);
    assert (price - avp) * (c1 + c2) == (price - avp) * c1 + (price - avp) * c2;
  }

  lemma SplitVolumes(feePercent: real, contractSize: real, q1: real, q2: real, price: real)
    requires (q1 > 0.0) == (q2 > 0.0) && q1 != 0.0 && q2 != 0.0
    ensures Abs(q1) + Abs(q2) == Abs(q1 + q2)
    ensures QuoteValue(contractSize, q1, price) + QuoteValue(contractSize, q2, price)
            == QuoteValue(contractSize, q1 + q2, price)
    ensures BaseFee(feePercent, contractSize, q1, price) + BaseFee(feePercent, contractSize, q2, price)
            == BaseFee(feePercent, contractSize, q1 + q2, price)
  {
    assert Abs(q1) + Abs(q2) == Abs(q1 + q2);
    assert Abs(q1) * price + Abs(q2) * price == Abs(q1 + q2) * price;
    var x, y := Abs(q1), Abs(q2);
    assert feePercent * x + feePercent * y == feePercent * (x + y);
  }
}
