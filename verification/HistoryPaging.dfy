/**
 Backfill of the trade history: `fetch_historical` of src/exchanges/binance_account.rs, which walks
 seven-day windows and, inside each, pages of a thousand trades. The exchange is a ledger of trades
 in time order; `Page` is what the userTrades endpoint answers.
 */
module HistoryPaging {
  import opened Executions

  const DAY_MS: int := 86_400_000
  const LIMIT: nat := 1000

  /** A trade of the exchange, its fields parsed; `id` is the decimal text of the trade id. */
  datatype UserTrade = UserTrade(id: string, timeMs: int, side: Side, price: real, qty: real, commission: real)

  predicate TimeOrdered(ledger: seq<UserTrade>) {
    forall i, j :: 0 <= i <= j < |ledger| ==> ledger[i].timeMs <= ledger[j].timeMs
  }

  predicate DistinctTimes(ledger: seq<UserTrade>) {
    forall i, j :: 0 <= i < j < |ledger| ==> ledger[i].timeMs < ledger[j].timeMs
  }

  /** n trades are before time t: n is the index where that time begins. */
  predicate Begins(l: seq<UserTrade>, t: int, n: nat) {
    && n <= |l|
    && (forall i :: 0 <= i < n ==> l[i].timeMs < t)
    && (forall i :: n <= i < |l| ==> t <= l[i].timeMs)
  }

  function Below(l: seq<UserTrade>, t: int): (n: nat)
    ensures n <= |l|
  {
    if l == [] || l[|l| - 1].timeMs < t then |l| else Below(l[..|l| - 1], t)
  }

  lemma {:induction false} BelowBegins(l: seq<UserTrade>, t: int)
    requires TimeOrdered(l)
    ensures Begins(l, t, Below(l, t))
  {
    if l != [] && l[|l| - 1].timeMs >= t {
      var prev := l[..|l| - 1];
      BelowBegins(prev, t);
      assert forall i :: 0 <= i < |prev| ==> l[i] == prev[i];
    }
  }

  lemma BelowAt(l: seq<UserTrade>, t: int, k: nat)
    requires TimeOrdered(l) && k < |l|
    ensures k < Below(l, t) <==> l[k].timeMs < t
  {
    BelowBegins(l, t);
  }

  lemma BelowIsMonotone(l: seq<UserTrade>, s: int, t: int)
    requires TimeOrdered(l) && s <= t
    ensures Below(l, s) <= Below(l, t)
  {
    var j := Below(l, t);
    if j < |l| {
      BelowAt(l, t, j);
      BelowAt(l, s, j);
    }
  }

  /** The endpoint's answer: the first LIMIT trades with startTime <= time <= endTime. */
  function Page(ledger: seq<UserTrade>, startTime: int, endTime: int): seq<UserTrade> {
    var i, j := Below(ledger, startTime), Below(ledger, endTime + 1);
    if j <= i then [] else if j - i <= LIMIT then ledger[i..j] else ledger[i..i + LIMIT]
  }

  /** Division of an i64 by a thousand, truncating toward zero. */
  function TruncThousand(x: int): int {
    if x >= 0 then x / 1000 else -((-x) / 1000)
  }

  /** Toward zero: the magnitude is floored and the sign kept. */
  lemma TruncatesTowardZero(x: int)
    ensures x >= 0 ==> 1000 * TruncThousand(x) <= x < 1000 * (TruncThousand(x) + 1)
    ensures x <= 0 ==> 1000 * (TruncThousand(x) - 1) < x <= 1000 * TruncThousand(x)
  {
  }

  function WindowEnd(windowStart: int, nowMs: int): int {
    if windowStart + 7 * DAY_MS - 1 <= nowMs then windowStart + 7 * DAY_MS - 1 else nowMs
  }

  /** A window never reaches beyond now, nor spans more than seven days; and it does one or the other. */
  lemma WindowIsAWeek(windowStart: int, nowMs: int)
    requires windowStart <= nowMs
    ensures var span := WindowEnd(windowStart, nowMs) - windowStart + 1;
      && windowStart <= WindowEnd(windowStart, nowMs) <= nowMs && span <= 604_800_000
      && (WindowEnd(windowStart, nowMs) == nowMs || span == 604_800_000)
  {
  }

  function ToExecution(accountId: int, marketId: int, t: UserTrade): Execution {
    Execution(t.timeMs * 1000, t.timeMs * 1000, marketId, accountId, XTrade, t.side, -1, OStatusFilled,
              t.qty, t.price, t.commission, t.id)
  }

  /** An execution that says of a trade what the exchange says: when, which way, how much, at what price
      and commission, and under which id. */
  predicate Tells(e: Execution, t: UserTrade) {
    && e.execType == XTrade && e.timestamp == e.rcvTimestamp == t.timeMs * 1000 && e.nativeExecutionId == t.id
    && e.side == t.side && e.lastQty == t.qty && e.lastPx == t.price && e.fee == t.commission
    && e.clOrdId == -1 && e.ordStatus == OStatusFilled
  }

  /** The executions of these trades, in the same order. */
  predicate Converted(accountId: int, marketId: int, ts: seq<UserTrade>, es: seq<Execution>) {
    |es| == |ts| && forall i :: 0 <= i < |ts| ==> es[i] == ToExecution(accountId, marketId, ts[i])
  }

  // ---------- what paging collects ----------

  /** The index where the trades later than the i-th begin. */
  function NextMillisecond(l: seq<UserTrade>, i: nat): (n: nat)
    requires TimeOrdered(l) && i < |l|
    ensures i < n <= |l|
  {
    BelowBegins(l, l[i].timeMs + 1);
    Below(l, l[i].timeMs + 1)
  }

  /** The trades collected from ledger[i..j]: after a full page, the next starts a millisecond later. */
  function Paged(l: seq<UserTrade>, i: nat, j: nat): (r: seq<UserTrade>)
    requires TimeOrdered(l) && i <= j <= |l|
    decreases j - i
  {
    if j - i < LIMIT then l[i..j]
    else
      var n := NextMillisecond(l, i + LIMIT - 1);
      l[i..i + LIMIT] + if n <= j then Paged(l, n, j) else []
  }

  function Windowed(l: seq<UserTrade>, start: int, nowMs: int): seq<UserTrade>
    requires TimeOrdered(l)
    decreases nowMs - start
  {
    if start > nowMs then []
    else
      var end := WindowEnd(start, nowMs);
      BelowIsMonotone(l, start, end + 1);
      Paged(l, Below(l, start), Below(l, end + 1)) + Windowed(l, end + 1, nowMs)
  }

  method AppendPage(out: seq<Execution>, ghost done: seq<UserTrade>, accountId: int, marketId: int,
                    trades: seq<UserTrade>)
    returns (r: seq<Execution>)
    requires Converted(accountId, marketId, done, out)
    ensures Converted(accountId, marketId, done + trades, r)
  {
    r := out;
    for i := 0 to |trades|
      invariant Converted(accountId, marketId, done + trades[..i], r)
    {
      r := r + [ToExecution(accountId, marketId, trades[i])];
    }
    assert trades[..|trades|] == trades;
  }

  /** One window: pages are read until one is short, or the window is exhausted. */
  method FetchWindow(out: seq<Execution>, ghost before: seq<UserTrade>,
                     ledger: seq<UserTrade>, accountId: int, marketId: int, windowStart: int, windowEnd: int)
    returns (r: seq<Execution>)
    requires TimeOrdered(ledger) && windowStart <= windowEnd
    requires Converted(accountId, marketId, before, out)
    ensures Below(ledger, windowStart) <= Below(ledger, windowEnd + 1)
    ensures Converted(accountId, marketId,
                      before + Paged(ledger, Below(ledger, windowStart), Below(ledger, windowEnd + 1)), r)
  {
    r := out;
    BelowIsMonotone(ledger, windowStart, windowEnd + 1);
    ghost var j := Below(ledger, windowEnd + 1);
    ghost var all := before + Paged(ledger, Below(ledger, windowStart), j);
    ghost var done := before;
    var pageStart := windowStart;
    var more := true;
    while more
      invariant more ==> pageStart <= windowEnd && Below(ledger, pageStart) <= j
      invariant more ==> Splits(all, done, Paged(ledger, Below(ledger, pageStart), j))
      invariant !more ==> Splits(all, done, [])
      invariant Converted(accountId, marketId, done, r)
      decreases more, windowEnd - pageStart
    {
      var trades := Page(ledger, pageStart, windowEnd);
      NextPage(ledger, pageStart, windowEnd, all, done);
      r := AppendPage(r, done, accountId, marketId, trades);
      done := done + trades;
      if |trades| == LIMIT {
        pageStart := trades[LIMIT - 1].timeMs + 1;
        more := pageStart <= windowEnd;
      } else {
        more := false;
      }
    }
  }

  predicate Splits(all: seq<UserTrade>, a: seq<UserTrade>, b: seq<UserTrade>) {
    all == a + b
  }

  lemma NextPage(l: seq<UserTrade>, pageStart: int, windowEnd: int, all: seq<UserTrade>, done: seq<UserTrade>)
    requires TimeOrdered(l) && pageStart <= windowEnd
    requires Below(l, pageStart) <= Below(l, windowEnd + 1)
    requires Splits(all, done, Paged(l, Below(l, pageStart), Below(l, windowEnd + 1)))
    ensures var trades := Page(l, pageStart, windowEnd);
      && |trades| <= LIMIT
      && (|trades| < LIMIT ==> Splits(all, done + trades, []))
      && (|trades| == LIMIT ==>
            var next := trades[LIMIT - 1].timeMs + 1;
            && pageStart < next && Below(l, next) <= Below(l, windowEnd + 1)
            && Splits(all, done + trades,
                      if next <= windowEnd then Paged(l, Below(l, next), Below(l, windowEnd + 1)) else []))
  {
    var trades := Page(l, pageStart, windowEnd);
    var j := Below(l, windowEnd + 1);
    ShortPage(l, pageStart, windowEnd);
    if |trades| == LIMIT {
      FullPage(l, pageStart, windowEnd);
      var next := trades[LIMIT - 1].timeMs + 1;
      Regroup(all, done, trades, if next <= windowEnd then Paged(l, Below(l, next), j) else []);
    }
  }

  lemma Regroup(all: seq<UserTrade>, a: seq<UserTrade>, b: seq<UserTrade>, c: seq<UserTrade>)
    requires all == a + (b + c) || (all == a + b && c == [])
    ensures all == (a + b) + c
  {
  }

  lemma ShortPage(l: seq<UserTrade>, pageStart: int, windowEnd: int)
    requires TimeOrdered(l) && pageStart <= windowEnd
    ensures var i, j := Below(l, pageStart), Below(l, windowEnd + 1);
      var trades := Page(l, pageStart, windowEnd);
      i <= j && |trades| <= LIMIT && (|trades| < LIMIT ==> Paged(l, i, j) == trades)
  {
    BelowIsMonotone(l, pageStart, windowEnd + 1);
  }

  /** A full page, then what the next start time sees. */
  lemma FullPage(l: seq<UserTrade>, pageStart: int, windowEnd: int)
    requires TimeOrdered(l) && pageStart <= windowEnd && |Page(l, pageStart, windowEnd)| == LIMIT
    ensures var i, j := Below(l, pageStart), Below(l, windowEnd + 1);
      var trades := Page(l, pageStart, windowEnd);
      var next := trades[LIMIT - 1].timeMs + 1;
      && pageStart < next <= windowEnd + 1 && i <= j && Below(l, next) <= j
      && Paged(l, i, j) == trades + Paged(l, Below(l, next), j)
      && (next == windowEnd + 1 ==> Paged(l, i, j) == trades)
  {
    var i, j := Below(l, pageStart), Below(l, windowEnd + 1);
    var last := l[i + LIMIT - 1];
    var trades := Page(l, pageStart, windowEnd);
    assert trades == l[i..i + LIMIT];
    assert trades[LIMIT - 1] == last;
    BelowAt(l, pageStart, i + LIMIT - 1);
    BelowAt(l, windowEnd + 1, i + LIMIT - 1);
    BelowIsMonotone(l, last.timeMs + 1, windowEnd + 1);
    var n := NextMillisecond(l, i + LIMIT - 1);
    assert n == Below(l, last.timeMs + 1) && n <= j;
    var rest := Paged(l, n, j);
    assert Paged(l, i, j) == trades + rest;
    assert n == j ==> rest == [];
  }

  method FetchHistorical(ledger: seq<UserTrade>, accountId: int, marketId: int, gtTs: int, nowMs: int)
    returns (out: seq<Execution>)
    requires TimeOrdered(ledger)
    ensures Converted(accountId, marketId, Windowed(ledger, TruncThousand(gtTs) + 1, nowMs), out)
    ensures var fetched := Windowed(ledger, TruncThousand(gtTs) + 1, nowMs);
      forall k :: 0 <= k < |out| ==>
        Tells(out[k], fetched[k]) && out[k].accountId == accountId && out[k].marketId == marketId
  {
    out := [];
    var windowStart := TruncThousand(gtTs) + 1;
    ghost var all := Windowed(ledger, windowStart, nowMs);
    ghost var done, rest: seq<UserTrade> := [], all;
    while windowStart <= nowMs
      invariant rest == Windowed(ledger, windowStart, nowMs)
      invariant all == done + rest
      invariant Converted(accountId, marketId, done, out)
      decreases nowMs - windowStart
    {
      var windowEnd := WindowEnd(windowStart, nowMs);
      out := FetchWindow(out, done, ledger, accountId, marketId, windowStart, windowEnd);
      WindowStep(ledger, windowStart, nowMs);
      ghost var paged := Paged(ledger, Below(ledger, windowStart), Below(ledger, windowEnd + 1));
      rest := Windowed(ledger, windowEnd + 1, nowMs);
      Regroup(all, done, paged, rest);
      done := done + paged;
      windowStart := windowEnd + 1;
    }
  }

  // ---------- completeness ----------

  /** No page boundary falls inside a millisecond: every thousandth trade is the last of its own. */
  predicate CleanPages(l: seq<UserTrade>, i: nat, j: nat)
    requires i <= j <= |l|
    decreases j - i
  {
    j - i <= LIMIT || (l[i + LIMIT - 1].timeMs < l[i + LIMIT].timeMs && CleanPages(l, i + LIMIT, j))
  }

  predicate CleanWindows(l: seq<UserTrade>, start: int, nowMs: int)
    requires TimeOrdered(l)
    decreases nowMs - start
  {
    start <= nowMs ==>
      var end := WindowEnd(start, nowMs);
      BelowIsMonotone(l, start, end + 1);
      CleanPages(l, Below(l, start), Below(l, end + 1)) && CleanWindows(l, end + 1, nowMs)
  }

  lemma PageAndRest(l: seq<UserTrade>, i: nat, m: nat, n: nat, j: nat, rest: seq<UserTrade>)
    requires i <= m <= n <= j <= |l| && |rest| <= j - n
    ensures |l[i..m] + rest| <= j - i
    ensures |l[i..m] + rest| == j - i <==> n == m && |rest| == j - n
    ensures n == m && rest == l[n..j] ==> l[i..m] + rest == l[i..j]
  {
  }

  /** The millisecond of the trade before m ends at m, or behind it. */
  lemma NextPageStart(l: seq<UserTrade>, m: nat, j: nat)
    requires TimeOrdered(l) && 0 < m <= j <= |l| && (j < |l| ==> l[j - 1].timeMs < l[j].timeMs)
    ensures m <= NextMillisecond(l, m - 1) <= j
    ensures m < j ==> (NextMillisecond(l, m - 1) == m <==> l[m - 1].timeMs < l[m].timeMs)
  {
    BelowBegins(l, l[m - 1].timeMs + 1);
  }

  lemma {:induction false} PagedIsComplete(l: seq<UserTrade>, i: nat, j: nat)
    requires TimeOrdered(l) && i <= j <= |l| && (0 < j < |l| ==> l[j - 1].timeMs < l[j].timeMs)
    ensures |Paged(l, i, j)| <= j - i
    ensures |Paged(l, i, j)| == j - i <==> CleanPages(l, i, j)
    ensures CleanPages(l, i, j) ==> Paged(l, i, j) == l[i..j]
    decreases j - i
  {
    if j - i >= LIMIT {
      hide TimeOrdered, Below, NextMillisecond;
      var m := i + LIMIT;
      var n := NextMillisecond(l, m - 1);
      NextPageStart(l, m, j);
      PagedIsComplete(l, n, j);
      PageAndRest(l, i, m, n, j, Paged(l, n, j));
    }
  }

  /** The windows return no more than lies in them; all of it exactly when no page is cut. */
  ghost predicate AllOrCut(l: seq<UserTrade>, start: int, nowMs: int)
    requires TimeOrdered(l)
  {
    var i, j, w := Below(l, start), Below(l, nowMs + 1), Windowed(l, start, nowMs);
    && i <= j && |w| <= j - i
    && (|w| == j - i <==> CleanWindows(l, start, nowMs))
    && (CleanWindows(l, start, nowMs) ==> w == l[i..j])
  }

  lemma OneMoreWindow(l: seq<UserTrade>, start: int, nowMs: int)
    requires TimeOrdered(l) && start <= nowMs && AllOrCut(l, WindowEnd(start, nowMs) + 1, nowMs)
    ensures AllOrCut(l, start, nowMs)
  {
    hide Paged, CleanPages, Windowed, CleanWindows, Below;
    var end := WindowEnd(start, nowMs);
    var i, j, k := Below(l, start), Below(l, end + 1), Below(l, nowMs + 1);
    WindowStep(l, start, nowMs);
    JoinSlices(l, i, j, k, Paged(l, i, j), Windowed(l, end + 1, nowMs));
  }

  lemma {:induction false} WindowsAreComplete(l: seq<UserTrade>, start: int, nowMs: int)
    requires TimeOrdered(l) && start <= nowMs + 1
    ensures AllOrCut(l, start, nowMs)
    decreases nowMs - start
  {
    if start <= nowMs {
      WindowsAreComplete(l, WindowEnd(start, nowMs) + 1, nowMs);
      OneMoreWindow(l, start, nowMs);
    }
  }

  lemma JoinSlices(l: seq<UserTrade>, i: nat, j: nat, k: nat, p: seq<UserTrade>, r: seq<UserTrade>)
    requires i <= j <= k <= |l| && |p| <= j - i && |r| <= k - j
    ensures |p + r| == k - i <==> |p| == j - i && |r| == k - j
    ensures p == l[i..j] && r == l[j..k] ==> p + r == l[i..k]
  {
  }

  lemma WindowStep(l: seq<UserTrade>, start: int, nowMs: int)
    requires TimeOrdered(l) && start <= nowMs
    ensures var end := WindowEnd(start, nowMs);
      var i, j := Below(l, start), Below(l, end + 1);
      && start <= end <= nowMs && i <= j
      && Windowed(l, start, nowMs) == Paged(l, i, j) + Windowed(l, end + 1, nowMs)
      && (CleanWindows(l, start, nowMs) <==> CleanPages(l, i, j) && CleanWindows(l, end + 1, nowMs))
      && |Paged(l, i, j)| <= j - i
      && (|Paged(l, i, j)| == j - i <==> CleanPages(l, i, j))
      && (CleanPages(l, i, j) ==> Paged(l, i, j) == l[i..j])
  {
    hide Paged, CleanPages, Below;
    var end := WindowEnd(start, nowMs);
    BelowIsMonotone(l, start, end + 1);
    BelowBegins(l, end + 1);
    PagedIsComplete(l, Below(l, start), Below(l, end + 1));
  }

  /** What `fetch_historical` is asked for: strictly after gtTs (microseconds), up to now. */
  predicate Wanted(t: UserTrade, gtTs: int, nowMs: int) {
    t.timeMs * 1000 > gtTs && t.timeMs <= nowMs
  }

  /** The wanted trades are ledger[i..j], and no others. */
  predicate WantedSlice(l: seq<UserTrade>, gtTs: int, nowMs: int, i: nat, j: nat) {
    i <= j <= |l| && forall k :: 0 <= k < |l| ==> (Wanted(l[k], gtTs, nowMs) <==> i <= k < j)
  }

  /** Paging is complete and duplicate-free - it returns exactly the wanted trades, in order, once
      each - if and only if no page boundary cuts a millisecond; a ledger whose trades have distinct
      milliseconds always passes. */
  lemma HistoryIsComplete(ledger: seq<UserTrade>, gtTs: int, nowMs: int, i: nat, j: nat)
    requires TimeOrdered(ledger) && (gtTs >= 0 || forall k :: 0 <= k < |ledger| ==> ledger[k].timeMs > 0)
    requires WantedSlice(ledger, gtTs, nowMs, i, j)
    ensures Windowed(ledger, TruncThousand(gtTs) + 1, nowMs) == ledger[i..j]
            <==> CleanWindows(ledger, TruncThousand(gtTs) + 1, nowMs)
    ensures DistinctTimes(ledger) ==> CleanWindows(ledger, TruncThousand(gtTs) + 1, nowMs)
  {
    var start := TruncThousand(gtTs) + 1;
    forall k | 0 <= k < |ledger| ensures start <= ledger[k].timeMs <= nowMs <==> i <= k < j {
      assert Wanted(ledger[k], gtTs, nowMs) <==> i <= k < j;
    }
    if start <= nowMs + 1 {
      WindowsAreComplete(ledger, start, nowMs);
      SliceIsBelow(ledger, start, nowMs, i, j);
    } else {
      assert i < |ledger| ==> (start <= ledger[i].timeMs <= nowMs <==> i < j);
    }
    if DistinctTimes(ledger) { DistinctIsClean(ledger, start, nowMs); }
  }

  /** A thousand and one trades in one millisecond: the page is full inside it, and the last one is lost. */
  lemma PageCutsMillisecond(t: UserTrade)
    requires t.timeMs == 1
    ensures var ledger := seq(1001, _ => t);
      && TimeOrdered(ledger) && WantedSlice(ledger, 0, 1, 0, 1001)
      && Windowed(ledger, TruncThousand(0) + 1, 1) == ledger[..1000] != ledger
  {
    var ledger := seq(LIMIT + 1, _ => t);
    BelowAt(ledger, 1, 0);
    BelowAt(ledger, 2, LIMIT);
    assert NextMillisecond(ledger, LIMIT - 1) == LIMIT + 1;
    assert Paged(ledger, LIMIT + 1, LIMIT + 1) == [];
    assert Paged(ledger, 0, LIMIT + 1) == ledger[..LIMIT];
  }

  /** Asked for what follows an epoch of 1000 microseconds, the history leaves out a trade at exactly that time. */
  lemma EpochIsNotFetched(t: UserTrade)
    requires t.timeMs * 1000 == 1000
    ensures Windowed([t], TruncThousand(1000) + 1, 2) == []
  {
    BelowAt([t], 2, 0);
    BelowAt([t], 3, 0);
  }

  lemma SliceIsBelow(l: seq<UserTrade>, start: int, nowMs: int, i: nat, j: nat)
    requires TimeOrdered(l) && start <= nowMs + 1 && i <= j <= |l|
    requires forall k :: 0 <= k < |l| ==> (start <= l[k].timeMs <= nowMs <==> i <= k < j)
    ensures Below(l, start) <= Below(l, nowMs + 1)
    ensures l[Below(l, start)..Below(l, nowMs + 1)] == l[i..j]
    ensures Below(l, nowMs + 1) - Below(l, start) == j - i
  {
    var a, b := Below(l, start), Below(l, nowMs + 1);
    BelowBegins(l, start);
    BelowBegins(l, nowMs + 1);
    BelowIsMonotone(l, start, nowMs + 1);
    assert a < b ==> start <= l[a].timeMs <= nowMs && start <= l[b - 1].timeMs <= nowMs;
    assert i < j ==> start <= l[i].timeMs <= nowMs && start <= l[j - 1].timeMs <= nowMs;
    assert a < b || i < j ==> a == i && b == j;
  }

  lemma {:induction false} DistinctIsClean(l: seq<UserTrade>, start: int, nowMs: int)
    requires TimeOrdered(l) && DistinctTimes(l)
    ensures CleanWindows(l, start, nowMs)
    decreases nowMs - start
  {
    if start <= nowMs {
      var end := WindowEnd(start, nowMs);
      BelowIsMonotone(l, start, end + 1);
      DistinctPagesAreClean(l, Below(l, start), Below(l, end + 1));
      DistinctIsClean(l, end + 1, nowMs);
    }
  }

  lemma {:induction false} DistinctPagesAreClean(l: seq<UserTrade>, i: nat, j: nat)
    requires DistinctTimes(l) && i <= j <= |l|
    ensures CleanPages(l, i, j)
    decreases j - i
  {
    if j - i > LIMIT { DistinctPagesAreClean(l, i + LIMIT, j); }
  }

  predicate Sparse(l: seq<UserTrade>) {
    forall i :: 0 <= i < |l| - LIMIT ==> l[i].timeMs + 7 * DAY_MS <= l[i + LIMIT].timeMs
  }

  lemma SparseWindow(l: seq<UserTrade>, s: int, e: int)
    requires TimeOrdered(l) && Sparse(l) && s <= e <= s + 7 * DAY_MS
    ensures Below(l, s) <= Below(l, e) <= Below(l, s) + LIMIT
  {
    BelowBegins(l, s);
    BelowBegins(l, e);
    BelowIsMonotone(l, s, e);
    var i := Below(l, s);
    assert i < |l| - LIMIT ==> l[i].timeMs + 7 * DAY_MS <= l[i + LIMIT].timeMs;
  }

  /** If a thousand and one trades never fall within seven days, no page is ever cut. */
  lemma {:induction false} SparseIsClean(l: seq<UserTrade>, start: int, nowMs: int)
    requires TimeOrdered(l) && Sparse(l)
    ensures CleanWindows(l, start, nowMs)
    decreases nowMs - start
  {
    if start <= nowMs {
      hide Sparse;
      var end := WindowEnd(start, nowMs);
      SparseWindow(l, start, end + 1);
      SparseIsClean(l, end + 1, nowMs);
    }
  }

  // ---------- what the history brings ----------

  /** No page of this fetch ends inside a millisecond. */
  predicate NothingCut(l: seq<UserTrade>, gtTs: int, nowMs: int)
    requires TimeOrdered(l)
  {
    CleanWindows(l, TruncThousand(gtTs) + 1, nowMs)
  }

  lemma InSlice(l: seq<UserTrade>, i: nat, a: nat, b: nat, j: nat, t: UserTrade)
    requires i <= a <= b <= j <= |l| && t in l[a..b]
    ensures t in l[i..j]
  {
    var k :| 0 <= k < b - a && l[a..b][k] == t;
    assert l[i..j][a - i + k] == t;
  }

  lemma {:induction false} PagedMember(l: seq<UserTrade>, i: nat, j: nat, t: UserTrade)
    requires TimeOrdered(l) && i <= j <= |l| && t in Paged(l, i, j)
    ensures t in l[i..j]
    decreases j - i
  {
    if j - i >= LIMIT {
      var n := NextMillisecond(l, i + LIMIT - 1);
      if t in l[i..i + LIMIT] {
        InSlice(l, i, i, i + LIMIT, j, t);
      } else {
        PagedMember(l, n, j, t);
        InSlice(l, i, n, j, j, t);
      }
    }
  }

  lemma SliceTimes(l: seq<UserTrade>, s: int, e: int)
    requires TimeOrdered(l) && s <= e
    ensures Below(l, s) <= Below(l, e)
    ensures forall t :: t in l[Below(l, s)..Below(l, e)] <==> t in l && s <= t.timeMs < e
  {
    BelowIsMonotone(l, s, e);
    BelowBegins(l, s);
    BelowBegins(l, e);
  }

  /** One window: what paging returns of it is in it, and all of it when no page is cut. */
  lemma WindowMember(l: seq<UserTrade>, start: int, end: int, t: UserTrade)
    requires TimeOrdered(l) && start <= end
    ensures var i, j := Below(l, start), Below(l, end + 1);
      && i <= j
      && (t in Paged(l, i, j) ==> t in l && start <= t.timeMs <= end)
      && (CleanPages(l, i, j) && t in l && start <= t.timeMs <= end ==> t in Paged(l, i, j))
  {
    hide Paged, CleanPages, Below;
    var i, j := Below(l, start), Below(l, end + 1);
    SliceTimes(l, start, end + 1);
    BelowBegins(l, end + 1);
    PagedIsComplete(l, i, j);
    if t in Paged(l, i, j) {
      PagedMember(l, i, j, t);
    }
  }

  ghost predicate Brings(l: seq<UserTrade>, start: int, nowMs: int, t: UserTrade)
    requires TimeOrdered(l)
  {
    && (t in Windowed(l, start, nowMs) ==> t in l && start <= t.timeMs <= nowMs)
    && (CleanWindows(l, start, nowMs) && t in l && start <= t.timeMs <= nowMs ==> t in Windowed(l, start, nowMs))
  }

  lemma BringsMore(l: seq<UserTrade>, start: int, nowMs: int, t: UserTrade)
    requires TimeOrdered(l) && start <= nowMs && Brings(l, WindowEnd(start, nowMs) + 1, nowMs, t)
    ensures Brings(l, start, nowMs, t)
  {
    hide Paged, CleanPages, Windowed, CleanWindows, Below;
    var end := WindowEnd(start, nowMs);
    var i, j := Below(l, start), Below(l, end + 1);
    WindowStep(l, start, nowMs);
    WindowMember(l, start, end, t);
    assert t in Windowed(l, start, nowMs) <==> t in Paged(l, i, j) || t in Windowed(l, end + 1, nowMs);
  }

  lemma {:induction false} WindowedMember(l: seq<UserTrade>, start: int, nowMs: int, t: UserTrade)
    requires TimeOrdered(l)
    ensures Brings(l, start, nowMs, t)
    decreases nowMs - start
  {
    if start <= nowMs {
      WindowedMember(l, WindowEnd(start, nowMs) + 1, nowMs, t);
      BringsMore(l, start, nowMs, t);
    }
  }

  lemma WindowedMembers(l: seq<UserTrade>, start: int, nowMs: int)
    requires TimeOrdered(l)
    ensures forall t :: t in Windowed(l, start, nowMs) ==> t in l && start <= t.timeMs <= nowMs
    ensures CleanWindows(l, start, nowMs) ==>
      forall t :: t in l && start <= t.timeMs <= nowMs ==> t in Windowed(l, start, nowMs)
  {
    hide Windowed, CleanWindows;
    forall t
      ensures t in Windowed(l, start, nowMs) ==> t in l && start <= t.timeMs <= nowMs
      ensures CleanWindows(l, start, nowMs) && t in l && start <= t.timeMs <= nowMs ==> t in Windowed(l, start, nowMs)
    {
      WindowedMember(l, start, nowMs, t);
    }
  }

  /** Whatever the pages, only wanted trades come back; and all of them do when nothing is cut. */
  lemma HistoryMembers(ledger: seq<UserTrade>, gtTs: int, nowMs: int)
    requires TimeOrdered(ledger) && (gtTs >= 0 || forall t :: t in ledger ==> t.timeMs > 0)
    ensures var fetched := Windowed(ledger, TruncThousand(gtTs) + 1, nowMs);
      && (forall t :: t in fetched ==> t in ledger && Wanted(t, gtTs, nowMs))
      && (NothingCut(ledger, gtTs, nowMs) ==> forall t :: t in ledger && Wanted(t, gtTs, nowMs) ==> t in fetched)
  {
    hide Windowed, CleanWindows;
    WindowedMembers(ledger, TruncThousand(gtTs) + 1, nowMs);
  }

  /** Two trades in one millisecond: asked for what follows the first, the history leaves out the second. */
  lemma SiblingIsNotFetched(t: UserTrade, u: UserTrade)
    requires t.timeMs == 1 && u.timeMs == 1
    ensures var ledger := [t, u];
      && TimeOrdered(ledger) && NothingCut(ledger, 1000, 2)
      && Windowed(ledger, TruncThousand(1000) + 1, 2) == []
  {
    var ledger := [t, u];
    BelowAt(ledger, 2, 1);
    BelowAt(ledger, 3, 1);
  }
}
