/**
 Latency arbitration of src/md/latency_arb.rs: racing connections deliver the same trades (or depth
 batches), the first copy of each is forwarded and its connection credited with a win, and every
 rotation interval the connection with the fewest recent wins is replaced.
 */
module LatencyArbs {
  import opened Common
  import opened Dedupers
  import opened Arrivals

  const TRADE_CAPACITY: nat := 200_000
  const L2_CAPACITY: nat := 500_000
  /** 300 seconds, in milliseconds. */
  const TTL: nat := 300_000

  function Wins(m: map<nat, nat>, conn: nat): nat {
    if conn in m then m[conn] else 0
  }

  /** How many of the arrivals came from a connection. */
  ghost function CountOf<K, D>(s: seq<Arrival<K, D>>, conn: nat): nat {
    if s == [] then 0 else CountOf(s[..|s| - 1], conn) + if s[|s| - 1].conn == conn then 1 else 0
  }

  /** Every connection's counter is the number of the accepted arrivals that are its own. */
  ghost predicate Tallies<K, D>(m: map<nat, nat>, accepted: seq<Arrival<K, D>>) {
    forall c: nat :: Wins(m, c) == CountOf(accepted, c)
  }

  lemma TallyWin<K, D>(m: map<nat, nat>, accepted: seq<Arrival<K, D>>, a: Arrival<K, D>)
    requires Tallies(m, accepted)
    ensures Tallies(m[a.conn := Wins(m, a.conn) + 1], accepted + [a])
  {
    var t := accepted + [a];
    assert t[..|t| - 1] == accepted && t[|t| - 1] == a;
    forall c: nat ensures Wins(m[a.conn := Wins(m, a.conn) + 1], c) == CountOf(t, c) {
      assert Wins(m, c) == CountOf(accepted, c);
    }
  }

  function TotalWins(m: map<nat, nat>, conns: nat): nat {
    if conns == 0 then 0 else TotalWins(m, conns - 1) + Wins(m, conns - 1)
  }

  ghost function CountBelow<K, D>(s: seq<Arrival<K, D>>, conns: nat): nat {
    if s == [] then 0 else CountBelow(s[..|s| - 1], conns) + if s[|s| - 1].conn < conns then 1 else 0
  }

  lemma {:induction false} CountBelowNext<K, D>(s: seq<Arrival<K, D>>, conns: nat)
    ensures CountBelow(s, conns + 1) == CountBelow(s, conns) + CountOf(s, conns)
    ensures CountBelow(s, 0) == 0
  {
    if s != [] {
      CountBelowNext(s[..|s| - 1], conns);
    }
  }

  lemma {:induction false} CountBelowAll<K, D>(s: seq<Arrival<K, D>>, conns: nat)
    requires forall i :: 0 <= i < |s| ==> s[i].conn < conns
    ensures CountBelow(s, conns) == |s|
  {
    if s != [] {
      CountBelowAll(s[..|s| - 1], conns);
    }
  }

  lemma {:induction false} TotalIsCount<K, D>(m: map<nat, nat>, accepted: seq<Arrival<K, D>>, conns: nat)
    requires Tallies(m, accepted)
    ensures TotalWins(m, conns) == CountBelow(accepted, conns)
  {
    if conns == 0 {
      CountBelowNext(accepted, 0);
    } else {
      TotalIsCount(m, accepted, conns - 1);
      CountBelowNext(accepted, conns - 1);
    }
  }

  /** Conservation: the wins of all connections add up to the number of accepted arrivals. */
  lemma WinsAddUp<K, D>(m: map<nat, nat>, accepted: seq<Arrival<K, D>>, conns: nat)
    requires Tallies(m, accepted) && forall i :: 0 <= i < |accepted| ==> accepted[i].conn < conns
    ensures TotalWins(m, conns) == |accepted|
  {
    TotalIsCount(m, accepted, conns);
    CountBelowAll(accepted, conns);
  }

  /** The arrivals are in order of time, none is later than the clock, and their connections exist. */
  ghost predicate Logged<K, D>(arrivals: seq<Arrival<K, D>>, conns: nat, clock: int) {
    && Chronological(arrivals)
    && forall i :: 0 <= i < |arrivals| ==> arrivals[i].conn < conns && arrivals[i].at <= clock
  }

  /** What is accepted is among what arrived. */
  lemma {:induction false} AcceptedConns<K, D>(s: seq<Arrival<K, D>>, capacity: nat, ttl: nat, conns: nat, i: nat)
    requires forall k :: 0 <= k < |s| ==> s[k].conn < conns
    requires i < |Accepted(s, capacity, ttl)|
    ensures Accepted(s, capacity, ttl)[i].conn < conns
  {
    hide LetsIn;
    var p := s[..|s| - 1];
    assert forall k :: 0 <= k < |p| ==> p[k].conn < conns;
    if i < |Accepted(p, capacity, ttl)| {
      AcceptedConns(p, capacity, ttl, conns, i);
    }
  }

  /** The deduper's history is what was accepted of the arrivals, and the counters tally it. */
  ghost predicate Credited<K, D>(history: seq<Entry<K>>, arrivals: seq<Arrival<K, D>>, wins: map<nat, nat>,
                                 window: map<nat, nat>, mark: nat, capacity: nat, ttl: nat)
  {
    var won := Accepted(arrivals, capacity, ttl);
    && history == Entries(won) && mark <= |won|
    && Tallies(wins, won) && Tallies(window, won[mark..])
  }

  lemma NothingCredited<K, D>(capacity: nat, ttl: nat, conns: nat, clock: int)
    ensures Credited<K, D>([], [], map[], map[], 0, capacity, ttl) && Logged<K, D>([], conns, clock)
  {
  }

  lemma LoggedSnoc<K, D>(s: seq<Arrival<K, D>>, a: Arrival<K, D>, conns: nat, clock: int)
    requires Logged(s, conns, clock) && clock <= a.at && a.conn < conns
    ensures Logged(s + [a], conns, a.at)
  {
  }

  lemma CreditRefused<K, D>(history: seq<Entry<K>>, arrivals: seq<Arrival<K, D>>, a: Arrival<K, D>,
                            wins: map<nat, nat>, window: map<nat, nat>, mark: nat, capacity: nat, ttl: nat)
    requires Credited(history, arrivals, wins, window, mark, capacity, ttl)
    requires Live(history, a.key, capacity, ttl, a.at)
    ensures Credited(history, arrivals + [a], wins, window, mark, capacity, ttl)
    ensures Accepted(arrivals + [a], capacity, ttl) == Accepted(arrivals, capacity, ttl)
  {
    hide Live, Tallies;
    AcceptedSnoc(arrivals, a, capacity, ttl);
  }

  lemma CreditWin<K, D>(history: seq<Entry<K>>, arrivals: seq<Arrival<K, D>>, a: Arrival<K, D>,
                        wins: map<nat, nat>, window: map<nat, nat>, mark: nat, capacity: nat, ttl: nat)
    requires Credited(history, arrivals, wins, window, mark, capacity, ttl)
    requires !Live(history, a.key, capacity, ttl, a.at)
    ensures Credited(history + [Entry(a.key, a.at)], arrivals + [a], wins[a.conn := Wins(wins, a.conn) + 1],
                     window[a.conn := Wins(window, a.conn) + 1], mark, capacity, ttl)
    ensures Accepted(arrivals + [a], capacity, ttl) == Accepted(arrivals, capacity, ttl) + [a]
  {
    hide Live, Tallies;
    var won := Accepted(arrivals, capacity, ttl);
    AcceptedSnoc(arrivals, a, capacity, ttl);
    hide Accepted;
    assert Entries(won + [a]) == Entries(won) + [Entry(a.key, a.at)];
    TallyWin(wins, won, a);
    TallyWin(window, won[mark..], a);
    assert (won + [a])[mark..] == won[mark..] + [a];
  }

  lemma NewWindow<K, D>(history: seq<Entry<K>>, arrivals: seq<Arrival<K, D>>, wins: map<nat, nat>,
                        window: map<nat, nat>, mark: nat, capacity: nat, ttl: nat, zeros: map<nat, nat>)
    requires Credited(history, arrivals, wins, window, mark, capacity, ttl)
    requires forall c :: c in zeros ==> zeros[c] == 0
    ensures Credited(history, arrivals, wins, zeros, |Accepted(arrivals, capacity, ttl)|, capacity, ttl)
  {
    var won := Accepted(arrivals, capacity, ttl);
    assert won[|won|..] == [];
  }

  /** `conn` is the first connection with the least number of wins in the window. */
  ghost predicate Loser(window: map<nat, nat>, conns: nat, conn: nat) {
    && conn < conns
    && (forall c: nat :: c < conns ==> Wins(window, conn) <= Wins(window, c))
    && (forall c: nat :: c < conn ==> Wins(window, conn) < Wins(window, c))
  }

  /** The state the two arbitration loops share: the deduper, the win counters and the connection slots. */
  class Race<K(==), D> {
    const deduper: Deduper<K>
    const conns: nat
    var wins: map<nat, nat>
    var winsWindow: map<nat, nat>
    /** How often each connection slot has been replaced. */
    var restarts: seq<nat>
    /** Every candidate so far, and how many were accepted before the last rotation. */
    ghost var arrivals: seq<Arrival<K, D>>
    ghost var mark: nat

    ghost function Won(): seq<Arrival<K, D>>
      reads this
    {
      Accepted(arrivals, deduper.capacity, deduper.ttl)
    }

    ghost predicate Valid()
      reads this, deduper
    {
      && deduper.Valid() && |restarts| == conns && Logged(arrivals, conns, deduper.clock)
      && Credited(deduper.history, arrivals, wins, winsWindow, mark, deduper.capacity, deduper.ttl)
    }

    constructor (conns: nat, capacity: nat, ttl: nat)
      ensures Valid() && fresh(deduper) && this.conns == conns && deduper.clock == 0
      ensures deduper.capacity == capacity && deduper.ttl == ttl && arrivals == []
      ensures wins == map[] && winsWindow == map[] && mark == 0 && restarts == seq(conns, _ => 0)
    {
      this.conns := conns;
      deduper := new Deduper(capacity, ttl);
      wins, winsWindow := map[], map[];
      restarts := seq(conns, _ => 0);
      arrivals, mark := [], 0;
      new;
      hide Credited, Logged;
      NothingCredited<K, D>(capacity, ttl, conns, 0);
    }

    /** Offer a candidate to the deduper, and credit its connection when it is the first copy. */
    method Offer(key: K, conn: nat, now: int, ghost body: D) returns (isNew: bool)
      requires Valid() && deduper.clock <= now && conn < conns
      modifies this`wins, this`winsWindow, this`arrivals, deduper
      ensures Valid() && deduper.clock == now
      ensures arrivals == old(arrivals) + [Arrival(key, conn, now, body)]
      ensures Won() == if isNew then old(Won()) + [Arrival(key, conn, now, body)] else old(Won())
    {
      hide Live, Credited, Logged, Accepted, Backed, Ordered, Window;
      ghost var a := Arrival(key, conn, now, body);
      ghost var history := deduper.history;
      isNew := deduper.Insert(key, now);
      LoggedSnoc(arrivals, a, conns, old(deduper.clock));
      if isNew {
        CreditWin(history, arrivals, a, wins, winsWindow, mark, deduper.capacity, deduper.ttl);
        wins := wins[conn := Wins(wins, conn) + 1];
        winsWindow := winsWindow[conn := Wins(winsWindow, conn) + 1];
      } else {
        CreditRefused(history, arrivals, a, wins, winsWindow, mark, deduper.capacity, deduper.ttl);
      }
      arrivals := arrivals + [a];
    }

    /** The connection with the fewest wins in the window, the lowest id among equals. */
    method PickLoser() returns (loser: Option<nat>)
      ensures match loser
        case Some(id) => Loser(winsWindow, conns, id)
        case None => forall c: nat :: c < conns ==> Wins(winsWindow, c) >= U64_MAX
    {
      loser := None;
      var low := U64_MAX;
      for id := 0 to conns
        invariant low <= U64_MAX && (forall c: nat :: c < id ==> low <= Wins(winsWindow, c))
        invariant loser.None? ==> low == U64_MAX
        invariant loser.Some? ==> loser.value < id && low == Wins(winsWindow, loser.value)
        invariant loser.Some? ==> forall c: nat :: c < loser.value ==> low < Wins(winsWindow, c)
      {
        var w := Wins(winsWindow, id);
        if w < low {
          low := w;
          loser := Some(id);
        }
      }
    }

    /** Replace the loser and start a new window for everybody; the cumulative wins stay. */
    method Rotate() returns (loser: Option<nat>)
      requires Valid()
      modifies this`winsWindow, this`restarts, this`mark
      ensures Valid()
      ensures match loser
        case Some(id) =>
          && Loser(old(winsWindow), conns, id) && mark == |Won()|
          && restarts == old(restarts)[id := old(restarts)[id] + 1]
        case None =>
          && (forall c: nat :: c < conns ==> Wins(old(winsWindow), c) >= U64_MAX)
          && winsWindow == old(winsWindow) && restarts == old(restarts) && mark == old(mark)
    {
      hide Credited, Logged, Accepted, Backed, Ordered, Window;
      loser := PickLoser();
      if loser.Some? {
        restarts := restarts[loser.value := restarts[loser.value] + 1];
        ghost var before := winsWindow;
        var zeros: map<nat, nat> := map[];
        for cid := 0 to conns
          invariant forall c :: c in zeros ==> zeros[c] == 0
        {
          zeros := zeros[cid := 0];
        }
        winsWindow := zeros;
        NewWindow(deduper.history, arrivals, wins, before, mark, deduper.capacity, deduper.ttl, winsWindow);
        mark := |Won()|;
      }
    }
  }

  type TradeKey = (nat, string, string)
  type L2Key = (int, int)

  datatype Data =
    | Trade(key: TradeKey, price: real)
    | L2(firstUpdateId: int, updateId: int, price: real)
    | Other(text: string)

  /** A datum with the time its dedup check runs; a processed message of one connection, or a rotation tick. */
  datatype Item = Item(data: Data, at: int)
  datatype Event = Message(conn: nat, items: seq<Item>) | Rotation

  /** What each loop looks at: the trades of a message, or its first item if that is a depth update. */
  ghost function TradeArrivals(conn: nat, items: seq<Item>): seq<Arrival<TradeKey, Data>> {
    if items == [] then []
    else
      var before, x := TradeArrivals(conn, items[..|items| - 1]), items[|items| - 1];
      if x.data.Trade? then before + [Arrival(x.data.key, conn, x.at, x.data)] else before
  }

  ghost function L2Arrivals(conn: nat, items: seq<Item>): seq<Arrival<L2Key, seq<Data>>> {
    if items != [] && items[0].data.L2?
    then [Arrival((items[0].data.firstUpdateId, items[0].data.updateId), conn, items[0].at, Datas(items))]
    else []
  }

  function Datas(items: seq<Item>): seq<Data> {
    seq(|items|, i requires 0 <= i < |items| => items[i].data)
  }

  ghost function TradesIn(e: Event): seq<Arrival<TradeKey, Data>> {
    match e
    case Message(conn, items) => TradeArrivals(conn, items)
    case Rotation => []
  }

  ghost function L2In(e: Event): seq<Arrival<L2Key, seq<Data>>> {
    match e
    case Message(conn, items) => L2Arrivals(conn, items)
    case Rotation => []
  }

  ghost function DataIn(e: Event): seq<Data> {
    match e
    case Message(_, items) => Datas(items)
    case Rotation => []
  }

  ghost function AllTrades(events: seq<Event>): seq<Arrival<TradeKey, Data>> {
    if events == [] then [] else AllTrades(events[..|events| - 1]) + TradesIn(events[|events| - 1])
  }

  ghost function AllL2(events: seq<Event>): seq<Arrival<L2Key, seq<Data>>> {
    if events == [] then [] else AllL2(events[..|events| - 1]) + L2In(events[|events| - 1])
  }

  ghost function AllData(events: seq<Event>): seq<Data> {
    if events == [] then [] else AllData(events[..|events| - 1]) + DataIn(events[|events| - 1])
  }

  ghost function Trades(s: seq<Data>): seq<Data> {
    if s == [] then []
    else Trades(s[..|s| - 1]) + if s[|s| - 1].Trade? then [s[|s| - 1]] else []
  }

  ghost function NonTrades(s: seq<Data>): seq<Data> {
    if s == [] then []
    else NonTrades(s[..|s| - 1]) + if s[|s| - 1].Trade? then [] else [s[|s| - 1]]
  }

  ghost function Flatten(s: seq<seq<Data>>): seq<Data> {
    if s == [] then [] else Flatten(s[..|s| - 1]) + s[|s| - 1]
  }

  function End(items: seq<Item>, clock: int): int {
    if items == [] then clock else items[|items| - 1].at
  }

  ghost predicate InOrder(items: seq<Item>, clock: int) {
    && (forall i :: 0 <= i < |items| ==> clock <= items[i].at)
    && (forall i, j :: 0 <= i <= j < |items| ==> items[i].at <= items[j].at)
  }

  /** The clock never runs backwards over a run, and the connections exist. */
  ghost predicate Timely(events: seq<Event>, conns: nat, clock: int) {
    events == [] ||
    match events[0]
    case Message(conn, items) =>
      conn < conns && InOrder(items, clock) && Timely(events[1..], conns, End(items, clock))
    case Rotation => Timely(events[1..], conns, clock)
  }

  /** An arrival that is a trade, under its own key. */
  ghost predicate IsTrade(a: Arrival<TradeKey, Data>) { a.body.Trade? && a.key == a.body.key }

  /** An arrival that is a batch which begins with a depth update, under that update's two ids. */
  ghost predicate IsBatch(a: Arrival<L2Key, seq<Data>>) {
    a.body != [] && a.body[0].L2? && a.key == (a.body[0].firstUpdateId, a.body[0].updateId)
  }

  lemma BodiesConcat<K, D>(a: seq<Arrival<K, D>>, b: seq<Arrival<K, D>>)
    ensures Bodies(a + b) == Bodies(a) + Bodies(b)
  {
  }

  lemma {:induction false} TradesConcat(a: seq<Data>, b: seq<Data>)
    ensures Trades(a + b) == Trades(a) + Trades(b)
  {
    if b == [] {
      assert a + b == a;
    } else {
      TradesConcat(a, b[..|b| - 1]);
      assert (a + b)[..|a + b| - 1] == a + b[..|b| - 1];
    }
  }

  lemma {:induction false} MessageTrades(conn: nat, items: seq<Item>)
    ensures Bodies(TradeArrivals(conn, items)) == Trades(Datas(items))
    ensures forall a :: a in TradeArrivals(conn, items) ==> IsTrade(a) && a.conn == conn && Item(a.body, a.at) in items
  {
    if items != [] {
      var p, x := items[..|items| - 1], items[|items| - 1];
      MessageTrades(conn, p);
      assert Datas(items)[..|items| - 1] == Datas(p);
      if x.data.Trade? {
        BodiesConcat(TradeArrivals(conn, p), [Arrival(x.data.key, conn, x.at, x.data)]);
      }
      assert items == p + [x] && Item(x.data, x.at) == x;
    }
  }

  /** The candidates of the trade arbiter are exactly the trades received, in order, under their own keys. */
  lemma {:induction false} CandidatesAreTrades(events: seq<Event>)
    ensures Bodies(AllTrades(events)) == Trades(AllData(events))
    ensures forall a :: a in AllTrades(events) ==> IsTrade(a)
  {
    if events != [] {
      var p, e := events[..|events| - 1], events[|events| - 1];
      CandidatesAreTrades(p);
      TradesConcat(AllData(p), DataIn(e));
      BodiesConcat(AllTrades(p), TradesIn(e));
      if e.Message? {
        MessageTrades(e.conn, e.items);
      }
    }
  }

  lemma MessageBatch(conn: nat, items: seq<Item>)
    ensures forall a :: a in L2Arrivals(conn, items) ==>
      IsBatch(a) && a.conn == conn && Item(a.body[0], a.at) == items[0]
  {
  }

  /** The messages that begin with a depth update. */
  ghost function Batches(events: seq<Event>): seq<seq<Data>> {
    if events == [] then []
    else
      var p, e := Batches(events[..|events| - 1]), events[|events| - 1];
      if e.Message? && e.items != [] && e.items[0].data.L2? then p + [Datas(e.items)] else p
  }

  /** The candidates of the depth arbiter are exactly those messages, whole and in order. */
  lemma {:induction false} CandidatesAreBatches(events: seq<Event>)
    ensures Bodies(AllL2(events)) == Batches(events)
    ensures forall a :: a in AllL2(events) ==> IsBatch(a)
  {
    if events != [] {
      var p, e := events[..|events| - 1], events[|events| - 1];
      CandidatesAreBatches(p);
      BodiesConcat(AllL2(p), L2In(e));
    }
  }

  lemma ItemsSnoc(conn: nat, items: seq<Item>, i: nat)
    requires i < |items|
    ensures TradeArrivals(conn, items[..i + 1])
         == TradeArrivals(conn, items[..i]) + if items[i].data.Trade?
              then [Arrival(items[i].data.key, conn, items[i].at, items[i].data)] else []
    ensures Datas(items[..i + 1]) == Datas(items[..i]) + [items[i].data]
  {
    assert items[..i + 1][..i] == items[..i];
  }

  lemma DataSnoc(s: seq<Data>, d: Data)
    ensures Trades(s + [d]) == Trades(s) + if d.Trade? then [d] else []
    ensures NonTrades(s + [d]) == NonTrades(s) + if d.Trade? then [] else [d]
  {
    assert (s + [d])[..|s + [d]| - 1] == s;
  }

  /** Sent so far: of the trades the accepted ones, of the rest everything. */
  ghost predicate Routed(output: seq<Data>, received: seq<Data>, won: seq<Arrival<TradeKey, Data>>) {
    Trades(output) == Bodies(won) && NonTrades(output) == NonTrades(received)
  }

  lemma RouteTrade(output: seq<Data>, received: seq<Data>, won: seq<Arrival<TradeKey, Data>>,
                   a: Arrival<TradeKey, Data>)
    requires Routed(output, received, won) && a.body.Trade?
    ensures Routed(output + [a.body], received + [a.body], won + [a])
    ensures Routed(output, received + [a.body], won)
  {
    DataSnoc(output, a.body);
    DataSnoc(received, a.body);
    assert Bodies(won + [a]) == Bodies(won) + [a.body];
  }

  lemma RouteOther(output: seq<Data>, received: seq<Data>, won: seq<Arrival<TradeKey, Data>>, d: Data)
    requires Routed(output, received, won) && !d.Trade?
    ensures Routed(output + [d], received + [d], won)
  {
    DataSnoc(output, d);
    DataSnoc(received, d);
  }

  lemma SentSnoc(sent: seq<Data>, items: seq<Item>, i: nat)
    requires i < |items|
    ensures sent + Datas(items[..i + 1]) == (sent + Datas(items[..i])) + [items[i].data]
  {
  }

  // ---------------------------------------------------------------- rotations over a run

  function Sum(s: seq<nat>): nat {
    if s == [] then 0 else Sum(s[..|s| - 1]) + s[|s| - 1]
  }

  lemma {:induction false} SumOfZeros(n: nat)
    ensures Sum(seq(n, _ => 0)) == 0
  {
    if n > 0 {
      assert seq(n, _ => 0)[..n - 1] == seq(n - 1, _ => 0);
      SumOfZeros(n - 1);
    }
  }

  lemma {:induction false} SumOfOneMore(s: seq<nat>, i: nat)
    requires i < |s|
    ensures Sum(s[i := s[i] + 1]) == Sum(s) + 1
  {
    var t, n := s[i := s[i] + 1], |s| - 1;
    if i < n {
      SumOfOneMore(s[..n], i);
      assert t[..n] == s[..n][i := s[i] + 1];
    } else {
      assert t[..n] == s[..n];
    }
  }

  function Rotations(events: seq<Event>): nat {
    if events == [] then 0
    else Rotations(events[..|events| - 1]) + if events[|events| - 1].Rotation? then 1 else 0
  }

  lemma {:induction false} CountIsShort<K, D>(s: seq<Arrival<K, D>>, conn: nat)
    ensures CountOf(s, conn) <= |s|
  {
    if s != [] { CountIsShort(s[..|s| - 1], conn); }
  }

  lemma {:induction false} AcceptedIsShort<K, D>(s: seq<Arrival<K, D>>, capacity: nat, ttl: nat)
    ensures |Accepted(s, capacity, ttl)| <= |s|
  {
    hide LetsIn;
    if s != [] { AcceptedIsShort(s[..|s| - 1], capacity, ttl); }
  }

  /** No connection has won more often than there were arrivals. */
  lemma WindowIsShort<K, D>(race: Race<K, D>, conn: nat)
    requires race.Valid()
    ensures Wins(race.winsWindow, conn) <= |race.arrivals|
  {
    hide Accepted, Backed, Ordered, Window, Live, Entries, CountOf;
    AcceptedIsShort(race.arrivals, race.deduper.capacity, race.deduper.ttl);
    CountIsShort(race.Won()[race.mark..], conn);
  }

  lemma {:induction false} FewerTrades(events: seq<Event>, i: nat)
    requires i <= |events|
    ensures |AllTrades(events[..i])| <= |AllTrades(events)| && |AllL2(events[..i])| <= |AllL2(events)|
  {
    hide TradesIn, L2In;
    if i == |events| {
      assert events[..i] == events;
    } else {
      var p := events[..|events| - 1];
      FewerTrades(p, i);
      assert p[..i] == events[..i];
    }
  }

  lemma NoEvents(conns: nat)
    ensures Sum(seq(conns, _ => 0)) == 0 && Rotations([]) == 0
    ensures AllTrades([]) == [] && AllL2([]) == [] && AllData([]) == []
  {
    SumOfZeros(conns);
  }

  lemma RotationsSnoc(events: seq<Event>, i: nat)
    requires i < |events|
    ensures Rotations(events[..i + 1]) == Rotations(events[..i]) + if events[i].Rotation? then 1 else 0
  {
    assert events[..i + 1][..i] == events[..i];
  }

  /** One tick: with a connection, and fewer arrivals than a u64 counts, some connection is replaced. */
  method Tick<K(==), D>(race: Race<K, D>)
    requires race.Valid()
    modifies race`winsWindow, race`restarts, race`mark
    ensures race.Valid()
    ensures race.conns > 0 && |race.arrivals| < U64_MAX ==>
      Sum(race.restarts) == Sum(old(race.restarts)) + 1 && race.mark == |race.Won()|
  {
    hide Credited, Logged, Accepted, Backed, Ordered, Window, Loser, Live, Entries;
    WindowIsShort(race, 0);
    var loser := race.Rotate();
    if loser.Some? {
      assert loser.value < race.conns by { LoserExists(old(race.winsWindow), race.conns, loser.value); }
      SumOfOneMore(old(race.restarts), loser.value);
    }
  }

  lemma LoserExists(window: map<nat, nat>, conns: nat, conn: nat)
    requires Loser(window, conns, conn)
    ensures conn < conns
  {
  }

  /** The item loop of the trade arbiter: duplicate trades are skipped, everything else is forwarded. */
  method ForwardTrades(race: Race<TradeKey, Data>, conn: nat, items: seq<Item>, sent: seq<Data>,
                       ghost received: seq<Data>) returns (output: seq<Data>)
    requires race.Valid() && conn < race.conns && InOrder(items, race.deduper.clock)
    requires Routed(sent, received, race.Won())
    modifies race`wins, race`winsWindow, race`arrivals, race.deduper
    ensures race.Valid() && race.deduper.clock <= End(items, old(race.deduper.clock))
    ensures race.arrivals == old(race.arrivals) + TradeArrivals(conn, items)
    ensures Routed(output, received + Datas(items), race.Won())
  {
    hide Credited, Logged, Accepted, Backed, Ordered, Window, Routed, Datas;
    output := sent;
    assert items[..0] == [];
    DatasEmpty(received);
    for i := 0 to |items|
      invariant race.Valid() && race.deduper.clock <= End(items[..i], old(race.deduper.clock))
      invariant race.arrivals == old(race.arrivals) + TradeArrivals(conn, items[..i])
      invariant Routed(output, received + Datas(items[..i]), race.Won())
    {
      var x := items[i];
      ItemsSnoc(conn, items, i);
      SentSnoc(received, items, i);
      if x.data.Trade? {
        ghost var a := Arrival(x.data.key, conn, x.at, x.data);
        RouteTrade(output, received + Datas(items[..i]), race.Won(), a);
        var isNew := race.Offer(x.data.key, conn, x.at, x.data);
        if !isNew { continue; }
      } else {
        RouteOther(output, received + Datas(items[..i]), race.Won(), x.data);
      }
      output := output + [x.data];
    }
    assert items[..|items|] == items;
  }

  lemma DatasEmpty(sent: seq<Data>)
    ensures sent + Datas([]) == sent
  {
  }

  /** `run_arbitrated_trades` over a whole run. */
  method RunTrades(conns: nat, events: seq<Event>) returns (race: Race<TradeKey, Data>, output: seq<Data>)
    requires Timely(events, conns, 0)
    ensures fresh(race) && race.Valid() && race.arrivals == AllTrades(events)
    ensures race.Won() == Accepted(AllTrades(events), 200_000, 300_000)
    ensures race.Won() == FirstArrivals(AllTrades(events)) <==> WithinWindow(AllTrades(events), 200_000, 300_000)
    ensures Trades(output) == Bodies(race.Won())
    ensures NonTrades(output) == NonTrades(AllData(events))
    ensures TotalWins(race.wins, conns) == |Trades(output)|
    ensures conns > 0 && |AllTrades(events)| < U64_MAX ==> Sum(race.restarts) == Rotations(events)
  {
    hide Credited, Logged, Accepted, Backed, Ordered, Window, Datas, Sum, Rotations, AllTrades, AllL2, AllData;
    NoEvents(conns);
    race := new Race(conns, TRADE_CAPACITY, TTL);
    output := [];
    ghost var clock := 0;
    assert events[..0] == [] && events[0..] == events;
    StartRouted(TRADE_CAPACITY, TTL);
    hide Routed;
    for i := 0 to |events|
      invariant fresh(race) && fresh(race.deduper) && race.conns == conns
      invariant race.deduper.capacity == TRADE_CAPACITY && race.deduper.ttl == TTL
      invariant race.Valid() && race.deduper.clock <= clock && Timely(events[i..], conns, clock)
      invariant race.arrivals == AllTrades(events[..i])
      invariant conns > 0 && |AllTrades(events)| < U64_MAX ==> Sum(race.restarts) == Rotations(events[..i])
      invariant Routed(output, AllData(events[..i]), race.Won())
    {
      EventsSnoc(events, i);
      RotationsSnoc(events, i);
      FewerTrades(events, i);
      match events[i]
      case Message(conn, items) =>
        OrderedLater(items, race.deduper.clock, clock);
        output := ForwardTrades(race, conn, items, output, AllData(events[..i]));
        clock := End(items, clock);
      case Rotation =>
        Tick(race);
    }
    assert events[..|events|] == events;
    Finish(race, output, events);
  }

  lemma StartRouted(capacity: nat, ttl: nat)
    ensures Routed([], [], Accepted([], capacity, ttl))
  {
  }

  lemma OrderedLater(items: seq<Item>, clock: int, later: int)
    requires InOrder(items, later) && clock <= later
    ensures InOrder(items, clock) && End(items, clock) <= End(items, later)
  {
  }

  lemma EventsSnoc(events: seq<Event>, i: nat)
    requires i < |events|
    ensures events[i..][0] == events[i] && events[i..][1..] == events[i + 1..]
    ensures AllTrades(events[..i + 1]) == AllTrades(events[..i]) + TradesIn(events[i])
    ensures AllL2(events[..i + 1]) == AllL2(events[..i]) + L2In(events[i])
    ensures AllData(events[..i + 1]) == AllData(events[..i]) + DataIn(events[i])
    ensures events[i].Rotation? ==> AllData(events[..i + 1]) == AllData(events[..i])
  {
    assert events[..i + 1][..i] == events[..i];
  }

  /** The wins of a race add up to what it let through, which is ideal while repeats are prompt. */
  lemma RaceAddsUp<K, D>(race: Race<K, D>)
    requires race.Valid()
    ensures TotalWins(race.wins, race.conns) == |race.Won()|
    ensures race.Won() == FirstArrivals(race.arrivals)
       <==> WithinWindow(race.arrivals, race.deduper.capacity, race.deduper.ttl)
  {
    hide Backed, Ordered, Window, Live, Entries, Tallies, FirstArrivals, WithinWindow;
    OnceEachIffPrompt(race.arrivals, race.deduper.capacity, race.deduper.ttl);
    forall i | 0 <= i < |race.Won()| ensures race.Won()[i].conn < race.conns {
      AcceptedConns(race.arrivals, race.deduper.capacity, race.deduper.ttl, race.conns, i);
    }
    WinsAddUp(race.wins, race.Won(), race.conns);
  }

  lemma Finish(race: Race<TradeKey, Data>, output: seq<Data>, events: seq<Event>)
    requires race.Valid() && Routed(output, AllData(events), race.Won())
    ensures Trades(output) == Bodies(race.Won()) && NonTrades(output) == NonTrades(AllData(events))
    ensures TotalWins(race.wins, race.conns) == |Trades(output)|
    ensures race.Won() == FirstArrivals(race.arrivals)
       <==> WithinWindow(race.arrivals, race.deduper.capacity, race.deduper.ttl)
  {
    hide Accepted, Credited, Logged;
    RaceAddsUp(race);
  }

  /** `run_arbitrated_l2`: a whole batch is forwarded or dropped on the key of its first item. */
  method RunL2(conns: nat, events: seq<Event>) returns (race: Race<L2Key, seq<Data>>, output: seq<Data>)
    requires Timely(events, conns, 0)
    ensures fresh(race) && race.Valid() && race.arrivals == AllL2(events)
    ensures race.Won() == Accepted(AllL2(events), 500_000, 300_000)
    ensures race.Won() == FirstArrivals(AllL2(events)) <==> WithinWindow(AllL2(events), 500_000, 300_000)
    ensures output == Flatten(Bodies(race.Won()))
    ensures TotalWins(race.wins, conns) == |race.Won()|
    ensures conns > 0 && |AllL2(events)| < U64_MAX ==> Sum(race.restarts) == Rotations(events)
  {
    hide Credited, Logged, Accepted, Backed, Ordered, Window, Datas, Bodies, Flatten;
    hide Sum, Rotations, AllTrades, AllL2, AllData;
    NoEvents(conns);
    race := new Race(conns, L2_CAPACITY, TTL);
    output := [];
    ghost var clock := 0;
    assert events[..0] == [] && events[0..] == events;
    StartBatches(L2_CAPACITY, TTL);
    for i := 0 to |events|
      invariant fresh(race) && fresh(race.deduper) && race.conns == conns
      invariant race.deduper.capacity == L2_CAPACITY && race.deduper.ttl == TTL
      invariant race.Valid() && race.deduper.clock <= clock && Timely(events[i..], conns, clock)
      invariant race.arrivals == AllL2(events[..i])
      invariant conns > 0 && |AllL2(events)| < U64_MAX ==> Sum(race.restarts) == Rotations(events[..i])
      invariant output == Flatten(Bodies(race.Won()))
    {
      EventsSnoc(events, i);
      RotationsSnoc(events, i);
      FewerTrades(events, i);
      match events[i]
      case Message(conn, items) =>
        OrderedLater(items, race.deduper.clock, clock);
        if items != [] && items[0].data.L2? {
          var first := items[0];
          ghost var a := L2Arrivals(conn, items)[0];
          ghost var won := race.Won();
          BatchSnoc(won, a);
          var isNew := race.Offer((first.data.firstUpdateId, first.data.updateId), conn, first.at, Datas(items));
          if isNew {
            output := output + Datas(items);
          }
        }
        clock := End(items, clock);
      case Rotation =>
        Tick(race);
    }
    assert events[..|events|] == events;
    RaceAddsUp(race);
  }

  lemma StartBatches(capacity: nat, ttl: nat)
    ensures Flatten(Bodies(Accepted<L2Key, seq<Data>>([], capacity, ttl))) == []
  {
  }

  lemma BatchSnoc(won: seq<Arrival<L2Key, seq<Data>>>, a: Arrival<L2Key, seq<Data>>)
    ensures Flatten(Bodies(won + [a])) == Flatten(Bodies(won)) + a.body
  {
    assert Bodies(won + [a]) == Bodies(won) + [a.body];
    assert (Bodies(won) + [a.body])[..|won|] == Bodies(won);
  }
}
