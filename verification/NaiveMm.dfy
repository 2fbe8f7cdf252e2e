/**
 The quoting strategy of src/strats/naive_mm/strategy.rs: one order slot per side, both driven by the
 same reports and responses and by the update pass.
 */
module NaiveMms {
  import opened Common
  import opened Executions
  import opened Quotes

  /** Half away from zero, as `f64::round`. */
  function Round(x: real): int {
    if x >= 0.0 then (x + 0.5).Floor else -((-x + 0.5).Floor)
  }

  /** A tenth: prices are multiples of it. */
  function RoundToTick(price: real): real {
    Round(price / 0.1) as real * 0.1
  }

  function BidTarget(mid: real, spreadBps: real): real { RoundToTick(mid * (1.0 - spreadBps / 10000.0)) }
  function AskTarget(mid: real, spreadBps: real): real { RoundToTick(mid * (1.0 + spreadBps / 10000.0)) }

  /** The nearest integer; of two equally near the one farther from zero. */
  lemma RoundsToNearest(x: real)
    ensures Round(x) as real - 0.5 <= x <= Round(x) as real + 0.5
    ensures x >= 0.0 ==> x < Round(x) as real + 0.5
    ensures x <= 0.0 ==> x > Round(x) as real - 0.5
  {
  }

  predicate OnTick(price: real) { (price * 10.0).Floor as real == price * 10.0 }

  /** Each target is the multiple of the tick nearest to the mid price moved by the spread. */
  lemma TargetsAreNearest(mid: real, spreadBps: real)
    ensures var bid, ask := mid - mid * spreadBps / 10000.0, mid + mid * spreadBps / 10000.0;
      && bid - 0.05 <= BidTarget(mid, spreadBps) <= bid + 0.05
      && ask - 0.05 <= AskTarget(mid, spreadBps) <= ask + 0.05
    ensures OnTick(BidTarget(mid, spreadBps)) && OnTick(AskTarget(mid, spreadBps))
  {
    hide Round;
    RoundsToNearest(mid * (1.0 - spreadBps / 10000.0) / 0.1);
    RoundsToNearest(mid * (1.0 + spreadBps / 10000.0) / 0.1);
    assert mid * (spreadBps / 10000.0) == mid * spreadBps / 10000.0;
  }

  lemma RoundMonotone(x: real, y: real)
    requires x <= y
    ensures Round(x) <= Round(y)
  {
  }

  lemma RoundToTickMonotone(x: real, y: real)
    requires x <= y
    ensures RoundToTick(x) <= RoundToTick(y)
  {
    hide Round;
    assert x / 0.1 <= y / 0.1;
    RoundMonotone(x / 0.1, y / 0.1);
  }

  lemma SpreadIsOrdered(mid: real, spread: real)
    requires mid >= 0.0 && spread >= 0.0
    ensures mid * (1.0 - spread) <= mid * (1.0 + spread)
  {
    assert mid * spread >= 0.0;
  }

  /** Both targets are rounded from one mid price: with a non-negative spread they never cross. */
  lemma TargetsDoNotCross(mid: real, spreadBps: real)
    requires mid >= 0.0 && spreadBps >= 0.0
    ensures BidTarget(mid, spreadBps) <= AskTarget(mid, spreadBps)
  {
    hide RoundToTick;
    SpreadIsOrdered(mid, spreadBps / 10000.0);
    RoundToTickMonotone(mid * (1.0 - spreadBps / 10000.0), mid * (1.0 + spreadBps / 10000.0));
  }

  /** No id was posted on both sides. */
  ghost predicate SeparateIds(a: seq<Request>, b: seq<Request>) {
    forall i, j :: 0 <= i < |a| && 0 <= j < |b| && a[i].Post? && b[j].Post? ==> a[i].id != b[j].id
  }

  /** What one update pass reads from outside: the clock, the channel and ids from the generator. */
  datatype Pass = Pass(now: int, hasTx: bool, bidId: int, bidSent: bool, bidAt: int,
                       askId: int, askSent: bool, askAt: int)

  class NaiveMm {
    const lotSize: real
    const maxPosition: real
    const spreadBps: real
    const displaceBps: real
    var marketId: Option<int>
    var lastMid: Option<real>
    var amount: real
    var ready: bool
    var didInit: bool
    var bidOrder: Option<LiveOrder>
    var askOrder: Option<LiveOrder>
    var pendingCancelBid: bool
    var pendingCancelAsk: bool
    var lastPostBid: Option<int>
    var lastPostAsk: Option<int>
    var lastCancelBid: Option<int>
    var lastCancelAsk: Option<int>
    /** Every request each side has sent, the last id used, and the number of cancel-alls attempted. */
    ghost var bidLog: seq<Request>
    ghost var askLog: seq<Request>
    ghost var lastId: int
    ghost var cancelAlls: nat

    ghost function Bid(): Slot
      reads this
    {
      Slot(bidOrder, pendingCancelBid, lastPostBid, lastCancelBid)
    }

    ghost function Ask(): Slot
      reads this
    {
      Slot(askOrder, pendingCancelAsk, lastPostAsk, lastCancelAsk)
    }

    ghost predicate Valid()
      reads this
    {
      && Inv(Bid(), bidLog, lastId) && Inv(Ask(), askLog, lastId) && SeparateIds(bidLog, askLog)
      && cancelAlls == if didInit then 1 else 0
    }

    constructor (lotSize: real, maxPosition: real, spreadBps: real, displaceBps: real)
      ensures Valid() && Bid() == EMPTY && Ask() == EMPTY && bidLog == [] && askLog == [] && lastId == -1
      ensures this.lotSize == lotSize && this.maxPosition == maxPosition
      ensures this.spreadBps == spreadBps && this.displaceBps == displaceBps
      ensures marketId == None && lastMid == None && amount == 0.0 && !ready && !didInit
    {
      this.lotSize, this.maxPosition, this.spreadBps, this.displaceBps := lotSize, maxPosition, spreadBps, displaceBps;
      marketId, lastMid, amount, ready, didInit := None, None, 0.0, false, false;
      bidOrder, pendingCancelBid, lastPostBid, lastCancelBid := None, false, None, None;
      askOrder, pendingCancelAsk, lastPostAsk, lastCancelAsk := None, false, None, None;
      bidLog, askLog, lastId, cancelAlls := [], [], -1, 0;
    }

    /** The two sides never track the same order. */
    lemma SidesTrackDifferentOrders()
      requires Valid() && bidOrder.Some? && askOrder.Some?
      ensures bidOrder.value.clOrdId != askOrder.value.clOrdId
    {
      var i :| 0 <= i < |bidLog| && bidLog[i].Post? && bidLog[i].id == bidOrder.value.clOrdId;
      var j :| 0 <= j < |askLog| && askLog[j].Post? && askLog[j].id == askOrder.value.clOrdId;
    }

    method OnExecution(x: Execution)
      requires Valid()
      modifies this`bidOrder, this`pendingCancelBid, this`askOrder, this`pendingCancelAsk
      ensures Valid() && Bid() == Executed(old(Bid()), x) && Ask() == Executed(old(Ask()), x)
    {
      ReportKeepsInv(Bid(), bidLog, lastId, x);
      ReportKeepsInv(Ask(), askLog, lastId, x);
      hide Inv;
      if x.clOrdId != -1 {
        if bidOrder.Some? && bidOrder.value.clOrdId == x.clOrdId {
          if x.execType.XOrderCanceled? {
            bidOrder, pendingCancelBid := None, false;
          } else if x.execType.XOrderNew? || x.execType.XOrderReplaced? {
            bidOrder := Some(bidOrder.value.(phase := Live));
          } else if IsAlive(x.ordStatus) {
            bidOrder := Some(bidOrder.value.(phase := Live));
          } else {
            bidOrder, pendingCancelBid := None, false;
          }
        }
        if askOrder.Some? && askOrder.value.clOrdId == x.clOrdId {
          if x.execType.XOrderCanceled? {
            askOrder, pendingCancelAsk := None, false;
          } else if x.execType.XOrderNew? || x.execType.XOrderReplaced? {
            askOrder := Some(askOrder.value.(phase := Live));
          } else if IsAlive(x.ordStatus) {
            askOrder := Some(askOrder.value.(phase := Live));
          } else {
            askOrder, pendingCancelAsk := None, false;
          }
        }
      }
    }

    method OnOrderResponse(r: Response)
      requires Valid()
      modifies this`bidOrder, this`pendingCancelBid, this`lastPostBid
      modifies this`askOrder, this`pendingCancelAsk, this`lastPostAsk
      ensures Valid() && Bid() == Responded(old(Bid()), r) && Ask() == Responded(old(Ask()), r)
    {
      AnswerKeepsInv(Bid(), bidLog, lastId, r);
      AnswerKeepsInv(Ask(), askLog, lastId, r);
      hide Inv;
      if r.clOrdId.Some? {
        var cl := r.clOrdId.value;
        var isBid := bidOrder.Some? && bidOrder.value.clOrdId == cl;
        var isAsk := askOrder.Some? && askOrder.value.clOrdId == cl;
        if r.status.Ok? {
          if isBid {
            if pendingCancelBid { pendingCancelBid, bidOrder := false, None; }
            else { bidOrder := Some(bidOrder.value.(phase := Live)); }
          }
          if isAsk {
            if pendingCancelAsk { pendingCancelAsk, askOrder := false, None; }
            else { askOrder := Some(askOrder.value.(phase := Live)); }
          }
        }
        if r.status.FailedPostOnly? {
          if isBid { bidOrder, lastPostBid := None, None; }
          if isAsk { askOrder, lastPostAsk := None, None; }
        }
        if r.status.FailedOrderNotFound? {
          if isBid { pendingCancelBid, bidOrder := false, None; }
          if isAsk { pendingCancelAsk, askOrder := false, None; }
        }
      }
    }

    method OnPosition(market: int, amount: real)
      requires Valid()
      modifies this`amount, this`marketId, this`ready
      ensures Valid() && this.amount == amount && marketId == Some(market) && ready
    {
      this.amount, marketId, ready := amount, Some(market), true;
    }

    /** A snapshot brings a mid price, or none when a side of it is empty. */
    method OnObs(mid: Option<real>, hasTx: bool)
      requires Valid()
      modifies this`lastMid, this`didInit, this`cancelAlls
      ensures Valid() && lastMid == (if mid.Some? then mid else old(lastMid))
      ensures didInit == (old(didInit) || (ready && hasTx))
    {
      if ready && !didInit && hasTx {
        CancelAll();
      }
      if mid.None? {
        return;
      }
      lastMid := mid;
    }

    /** Sent at most once, whether or not the channel takes it. */
    method CancelAll()
      requires !didInit && cancelAlls == 0
      modifies this`didInit, this`cancelAlls
      ensures didInit && cancelAlls == 1
    {
      didInit, cancelAlls := true, 1;
    }

    function BidQuote(mid: real): (q: Quote)
      reads this
      ensures q.exposure == amount && q.limit == maxPosition && q.lot == lotSize
      ensures 10000.0 * q.threshold == displaceBps * mid
      ensures mid - mid * spreadBps / 10000.0 - 0.05 <= q.target <= mid - mid * spreadBps / 10000.0 + 0.05
    {
      TargetsAreNearest(mid, spreadBps);
      assert 10000.0 * (displaceBps / 10000.0 * mid) == displaceBps * mid;
      Quote(BidTarget(mid, spreadBps), displaceBps / 10000.0 * mid, amount, maxPosition, lotSize)
    }

    function AskQuote(mid: real): (q: Quote)
      reads this
      ensures q.exposure == -amount && q.limit == maxPosition && q.lot == lotSize
      ensures 10000.0 * q.threshold == displaceBps * mid
      ensures mid + mid * spreadBps / 10000.0 - 0.05 <= q.target <= mid + mid * spreadBps / 10000.0 + 0.05
    {
      TargetsAreNearest(mid, spreadBps);
      assert 10000.0 * (displaceBps / 10000.0 * mid) == displaceBps * mid;
      Quote(AskTarget(mid, spreadBps), displaceBps / 10000.0 * mid, -amount, maxPosition, lotSize)
    }

    method ExpireCancels(now: int)
      requires Valid()
      modifies this`bidOrder, this`pendingCancelBid, this`askOrder, this`pendingCancelAsk
      ensures Valid() && Bid() == Expired(old(Bid()), now) && Ask() == Expired(old(Ask()), now)
    {
      ExpiryKeepsInv(Bid(), bidLog, lastId, now);
      ExpiryKeepsInv(Ask(), askLog, lastId, now);
      hide Inv;
      if pendingCancelBid && lastCancelBid.Some? {
        if now - lastCancelBid.value > CANCEL_TTL_US { pendingCancelBid, bidOrder := false, None; }
      }
      if pendingCancelAsk && lastCancelAsk.Some? {
        if now - lastCancelAsk.value > CANCEL_TTL_US { pendingCancelAsk, askOrder := false, None; }
      }
    }

    /** The buy side of the pass: cancel a displaced or excessive order, or post into an empty slot. */
    method QuoteBid(q: Quote, id: int, sent: bool, at: int)
      requires Valid() && id > lastId && q.exposure == amount
      modifies this`bidOrder, this`pendingCancelBid, this`lastPostBid, this`lastCancelBid, this`bidLog, this`lastId
      ensures Valid() && lastId == id
      ensures var (slot, requests) := Decided(old(Bid()), q, id, sent, at);
              Bid() == slot && bidLog == old(bidLog) + requests
    {
      PassKeepsInv(Bid(), bidLog, lastId, q, id, sent, at);
      ghost var requests := Decided(Bid(), q, id, sent, at).1;
      SeparateAfter(bidLog, askLog, lastId, requests, id);
      WiderIds(Ask(), askLog, lastId, id);
      hide Inv, SeparateIds;
      match bidOrder {
        case Some(lo) =>
          if lo.phase.Live? && (Distance(lo.price, q.target) > q.threshold || amount >= q.limit) {
            if !pendingCancelBid && sent {
              lastCancelBid := Some(at);
              pendingCancelBid := true;
              bidOrder := Some(lo.(phase := PendingCancel));
            }
          }
        case None =>
          if amount < q.limit && bidOrder.None? {
            if sent {
              bidOrder := Some(LiveOrder(PendingNew, id, q.target));
              lastPostBid := Some(at);
            }
          }
      }
      bidLog, lastId := bidLog + requests, id;
    }

    method QuoteAsk(q: Quote, id: int, sent: bool, at: int)
      requires Valid() && id > lastId && q.exposure == -amount
      modifies this`askOrder, this`pendingCancelAsk, this`lastPostAsk, this`lastCancelAsk, this`askLog, this`lastId
      ensures Valid() && lastId == id
      ensures var (slot, requests) := Decided(old(Ask()), q, id, sent, at);
              Ask() == slot && askLog == old(askLog) + requests
    {
      PassKeepsInv(Ask(), askLog, lastId, q, id, sent, at);
      ghost var requests := Decided(Ask(), q, id, sent, at).1;
      SeparateAfter(askLog, bidLog, lastId, requests, id);
      WiderIds(Bid(), bidLog, lastId, id);
      hide Inv, SeparateIds;
      match askOrder {
        case Some(lo) =>
          if lo.phase.Live? && (Distance(lo.price, q.target) > q.threshold || -amount >= q.limit) {
            if !pendingCancelAsk && sent {
              lastCancelAsk := Some(at);
              pendingCancelAsk := true;
              askOrder := Some(lo.(phase := PendingCancel));
            }
          }
        case None =>
          if -amount < q.limit && askOrder.None? {
            if sent {
              askOrder := Some(LiveOrder(PendingNew, id, q.target));
              lastPostAsk := Some(at);
            }
          }
      }
      askLog, lastId := askLog + requests, id;
    }

    /** Ready once an order channel exists; the first readiness clears the book of old orders. */
    method BecomeReady(hasTx: bool) returns (go: bool)
      requires Valid()
      modifies this`ready, this`didInit, this`cancelAlls
      ensures Valid() && ready == (old(ready) || hasTx) && go == ready
      ensures didInit == (old(didInit) || (!old(ready) && hasTx))
    {
      if !ready {
        if !hasTx {
          return false;
        }
        ready := true;
        if !didInit {
          CancelAll();
        }
      }
      return true;
    }

    /** Timeouts first, then the buy side, then the sell side. */
    method QuoteBothSides(p: Pass, mid: real)
      requires Valid() && lastId < p.bidId < p.askId
      modifies this`bidOrder, this`pendingCancelBid, this`lastPostBid, this`lastCancelBid, this`bidLog,
               this`askOrder, this`pendingCancelAsk, this`lastPostAsk, this`lastCancelAsk, this`askLog, this`lastId
      ensures Valid() && lastId <= p.askId
      ensures Trace(Bid(), bidLog) == Step(old(Trace(Bid(), bidLog)),
                Quotes.Pass(p.now, p.hasTx, BidQuote(mid), p.bidId, p.bidSent, p.bidAt))
      ensures Trace(Ask(), askLog) == Step(old(Trace(Ask(), askLog)),
                Quotes.Pass(p.now, p.hasTx, AskQuote(mid), p.askId, p.askSent, p.askAt))
    {
      hide Inv, SeparateIds, Expired, Decided, BidTarget, AskTarget;
      ExpireCancels(p.now);
      if p.hasTx {
        QuoteBid(BidQuote(mid), p.bidId, p.bidSent, p.bidAt);
        QuoteAsk(AskQuote(mid), p.askId, p.askSent, p.askAt);
      }
    }

    /** The decision pass. Without a market, a price or a channel nothing is quoted. */
    method Update(p: Pass)
      requires Valid() && lastId < p.bidId < p.askId
      modifies this`ready, this`didInit, this`cancelAlls, this`bidOrder, this`pendingCancelBid, this`lastPostBid,
               this`lastCancelBid, this`bidLog, this`askOrder, this`pendingCancelAsk, this`lastPostAsk,
               this`lastCancelAsk, this`askLog, this`lastId
      ensures Valid() && lastId <= p.askId
      ensures if marketId.None? || lastMid.None? || !(old(ready) || p.hasTx)
              then Bid() == old(Bid()) && Ask() == old(Ask()) && bidLog == old(bidLog) && askLog == old(askLog)
              else
                && Trace(Bid(), bidLog) == Step(old(Trace(Bid(), bidLog)),
                     Quotes.Pass(p.now, p.hasTx, BidQuote(lastMid.value), p.bidId, p.bidSent, p.bidAt))
                && Trace(Ask(), askLog) == Step(old(Trace(Ask(), askLog)),
                     Quotes.Pass(p.now, p.hasTx, AskQuote(lastMid.value), p.askId, p.askSent, p.askAt))
    {
      hide Inv, SeparateIds, Step, BidTarget, AskTarget;
      if marketId.None? || lastMid.None? {
        return;
      }
      var go := BecomeReady(p.hasTx);
      if go {
        QuoteBothSides(p, lastMid.value);
      }
    }
  }

  /** What one side posts is newer than everything the other has posted. */
  lemma SeparateAfter(a: seq<Request>, b: seq<Request>, last: int, requests: seq<Request>, id: int)
    requires SeparateIds(a, b) && IdsUpTo(b, last) && id > last
    requires |requests| <= 1 && (requests != [] && requests[0].Post? ==> requests[0].id == id)
    ensures SeparateIds(a + requests, b) && SeparateIds(b, a + requests)
  {
  }
}
