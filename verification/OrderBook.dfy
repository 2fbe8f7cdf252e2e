/**
 The order book of src/md/orderbook.rs: two ordered maps from price to quantity, loaded from a
 snapshot and patched by updates. The reference is the log of writes itself: what a price shows is
 what was last written to it.
 */
module OrderBooks {
  import opened Common
  import opened Executions

  datatype Level = Level(price: real, qty: real)
  datatype Update = Update(marketId: int, updateId: int, side: Side, price: real, qty: real)
  datatype Snapshot = Snapshot(lastUpdateId: int, bids: seq<Level>, asks: seq<Level>)

  // ---------------------------------------------------------------- an ordered map, ascending in price

  predicate Sorted(b: seq<Level>) {
    |b| <= 1 || (b[0].price < b[1].price && Sorted(b[1..]))
  }

  function Get(b: seq<Level>, price: real): Option<real> {
    if b == [] then None
    else if b[0].price == price then Some(b[0].qty)
    else Get(b[1..], price)
  }

  function Put(b: seq<Level>, price: real, qty: real): (r: seq<Level>)
    ensures r != [] && (Sorted(b) ==> Sorted(r))
    ensures r[0].price == if b == [] || price < b[0].price then price else b[0].price
  {
    if b == [] || price < b[0].price then [Level(price, qty)] + b
    else if b[0].price == price then [Level(price, qty)] + b[1..]
    else [b[0]] + Put(b[1..], price, qty)
  }

  function Remove(b: seq<Level>, price: real): (r: seq<Level>)
    ensures Sorted(b) ==> Sorted(r)
    ensures r != [] && Sorted(b) ==> b != [] && r[0].price >= b[0].price
  {
    if b == [] then []
    else if b[0].price == price then b[1..]
    else [b[0]] + Remove(b[1..], price)
  }

  /** Nothing is found below the lowest price. */
  lemma {:induction false} AbsentBelow(b: seq<Level>, price: real)
    requires Sorted(b) && (b == [] || price < b[0].price)
    ensures Get(b, price) == None
  {
    if b != [] {
      AbsentBelow(b[1..], price);
    }
  }

  lemma {:induction false} GetPut(b: seq<Level>, price: real, qty: real, p: real)
    requires Sorted(b)
    ensures Get(Put(b, price, qty), p) == if p == price then Some(qty) else Get(b, p)
  {
    if b != [] && b[0].price < price {
      GetPut(b[1..], price, qty, p);
    }
  }

  lemma {:induction false} GetRemove(b: seq<Level>, price: real, p: real)
    requires Sorted(b)
    ensures Get(Remove(b, price), p) == if p == price then None else Get(b, p)
  {
    if b != [] {
      if b[0].price == price {
        AbsentBelow(b[1..], price);
      } else {
        GetRemove(b[1..], price, p);
      }
    }
  }

  lemma LowestIsFound(a: seq<Level>, b: seq<Level>)
    requires Sorted(a) && b != [] && Get(a, b[0].price) == Get(b, b[0].price)
    ensures a != [] && a[0].price <= b[0].price
  {
    if a == [] || b[0].price < a[0].price {
      AbsentBelow(a, b[0].price);
    }
  }

  /** The level list is determined by what it maps prices to. */
  lemma {:induction false} Canonical(a: seq<Level>, b: seq<Level>)
    requires Sorted(a) && Sorted(b) && forall p :: Get(a, p) == Get(b, p)
    ensures a == b
  {
    if b != [] {
      LowestIsFound(a, b);
    }
    if a != [] {
      LowestIsFound(b, a);
      AbsentBelow(a[1..], a[0].price);
      AbsentBelow(b[1..], b[0].price);
      forall q ensures Get(a[1..], q) == Get(b[1..], q) {
        assert Get(a, q) == Get(b, q);
      }
      Canonical(a[1..], b[1..]);
    }
  }

  // ---------------------------------------------------------------- the log of writes

  datatype Write = Write(side: Side, price: real, qty: real)

  /** What a price shows: the last write to it, where a zero quantity is a removal. */
  ghost function LastWrite(log: seq<Write>, side: Side, price: real): Option<real> {
    if log == [] then None
    else
      var w := log[|log| - 1];
      if w.side == side && w.price == price then (if w.qty == 0.0 then None else Some(w.qty))
      else LastWrite(log[..|log| - 1], side, price)
  }

  ghost predicate Writes(log: seq<Write>, side: Side, price: real) {
    exists i :: 0 <= i < |log| && log[i].side == side && log[i].price == price
  }

  ghost predicate Mirrors(b: seq<Level>, log: seq<Write>, side: Side) {
    Sorted(b) && forall p :: Get(b, p) == LastWrite(log, side, p)
  }

  /** The snapshot's levels as writes: those without a positive quantity are skipped, not removed. */
  ghost function Loaded(side: Side, levels: seq<Level>): seq<Write> {
    if levels == [] then []
    else
      var l := levels[|levels| - 1];
      Loaded(side, levels[..|levels| - 1]) + if l.qty > 0.0 then [Write(side, l.price, l.qty)] else []
  }

  /** The last of these levels at a price with a positive quantity. */
  ghost predicate LastPositive(levels: seq<Level>, price: real, i: nat) {
    && i < |levels| && levels[i].price == price && levels[i].qty > 0.0
    && forall j :: i < j < |levels| && levels[j].price == price ==> levels[j].qty <= 0.0
  }

  /** What a price shows after these levels were loaded. */
  ghost predicate ShownOf(levels: seq<Level>, price: real, shown: Option<real>) {
    && (shown.None? <==> forall i :: 0 <= i < |levels| && levels[i].price == price ==> levels[i].qty <= 0.0)
    && (shown.Some? ==> exists i: nat :: LastPositive(levels, price, i) && levels[i].qty == shown.value)
  }

  lemma ShownSnoc(levels: seq<Level>, l: Level, price: real, shown: Option<real>)
    requires ShownOf(levels, price, shown)
    ensures ShownOf(levels + [l], price, if l.price == price && l.qty > 0.0 then Some(l.qty) else shown)
  {
    var longer := levels + [l];
    assert longer[|levels|] == l && forall i :: 0 <= i < |levels| ==> longer[i] == levels[i];
    if l.price == price && l.qty > 0.0 {
      assert LastPositive(longer, price, |levels|);
    } else if shown.Some? {
      var i: nat :| LastPositive(levels, price, i) && levels[i].qty == shown.value;
      assert LastPositive(longer, price, i);
    }
  }

  lemma LoadedSnoc(side: Side, levels: seq<Level>, l: Level, price: real)
    ensures LastWrite(Loaded(side, levels + [l]), side, price)
         == if l.price == price && l.qty > 0.0 then Some(l.qty) else LastWrite(Loaded(side, levels), side, price)
    ensures Loaded(side, levels + [l])
         == Loaded(side, levels) + if l.qty > 0.0 then [Write(side, l.price, l.qty)] else []
  {
    var log, w := Loaded(side, levels), Write(side, l.price, l.qty);
    assert (levels + [l])[..|levels|] == levels;
    assert (log + [w])[..|log|] == log && log + [] == log;
  }

  /** A loaded snapshot shows at every price the last positive quantity its levels name there, or nothing. */
  lemma {:induction false} SnapshotShows(levels: seq<Level>, side: Side, price: real)
    ensures ShownOf(levels, price, LastWrite(Loaded(side, levels), side, price))
    ensures forall w :: w in Loaded(side, levels) ==> w.side == side
  {
    if levels != [] {
      hide Loaded, LastWrite, ShownOf;
      var p, l := levels[..|levels| - 1], levels[|levels| - 1];
      SnapshotShows(p, side, price);
      assert levels == p + [l];
      LoadedSnoc(side, p, l, price);
      ShownSnoc(p, l, price, LastWrite(Loaded(side, p), side, price));
    }
  }

  /** Writes to the other side do not show. */
  lemma {:induction false} OtherSide(a: seq<Write>, b: seq<Write>, side: Side, price: real)
    ensures (forall w :: w in b ==> w.side != side) ==> LastWrite(a + b, side, price) == LastWrite(a, side, price)
    ensures (forall w :: w in a ==> w.side != side) ==> LastWrite(a + b, side, price) == LastWrite(b, side, price)
    decreases |b|, |a|
  {
    if b != [] {
      assert (a + b)[..|a + b| - 1] == a + b[..|b| - 1];
      OtherSide(a, b[..|b| - 1], side, price);
      assert b[|b| - 1] in b;
    } else {
      assert a + b == a;
      if a != [] {
        OtherSide(a[..|a| - 1], b, side, price);
        assert a[..|a| - 1] + b == a[..|a| - 1] && a[|a| - 1] in a;
      }
    }
  }

  ghost predicate ShowsSnapshot(b: seq<Level>, levels: seq<Level>) {
    forall price :: ShownOf(levels, price, Get(b, price))
  }

  lemma LoadedBookShows(bids: seq<Level>, asks: seq<Level>, snapshot: Snapshot)
    requires var log := Loaded(Buy, snapshot.bids) + Loaded(Sell, snapshot.asks);
      Mirrors(bids, log, Buy) && Mirrors(asks, log, Sell)
    ensures ShowsSnapshot(bids, snapshot.bids) && ShowsSnapshot(asks, snapshot.asks)
  {
    hide Loaded, LastWrite, ShownOf, Sorted, Get;
    var a, b := Loaded(Buy, snapshot.bids), Loaded(Sell, snapshot.asks);
    forall price
      ensures ShownOf(snapshot.bids, price, Get(bids, price)) && ShownOf(snapshot.asks, price, Get(asks, price))
    {
      SnapshotShows(snapshot.bids, Buy, price);
      SnapshotShows(snapshot.asks, Sell, price);
      OtherSide(a, b, Buy, price);
      OtherSide(a, b, Sell, price);
    }
  }

  lemma MirrorsWrite(b: seq<Level>, log: seq<Write>, w: Write, side: Side)
    requires Mirrors(b, log, side)
    ensures w.side != side ==> Mirrors(b, log + [w], side)
    ensures w.side == side && w.qty == 0.0 ==> Mirrors(Remove(b, w.price), log + [w], side)
    ensures w.side == side && w.qty != 0.0 ==> Mirrors(Put(b, w.price, w.qty), log + [w], side)
  {
    assert (log + [w])[..|log + [w]| - 1] == log;
    forall p
      ensures w.side == side ==> Get(Remove(b, w.price), p) == if p == w.price then None else LastWrite(log, side, p)
      ensures w.side == side ==>
        Get(Put(b, w.price, w.qty), p) == if p == w.price then Some(w.qty) else LastWrite(log, side, p)
    {
      GetRemove(b, w.price, p);
      GetPut(b, w.price, w.qty, p);
    }
  }

  // ---------------------------------------------------------------- updates, one by one

  datatype BookState = BookState(bids: seq<Level>, asks: seq<Level>, lastUpdateId: int, marketId: Option<int>) {
    function Levels(side: Side): seq<Level> {
      match side
      case Buy => bids
      case Sell => asks
      case UnknownSide => []
    }
  }

  predicate SameMarket(b: BookState, u: Update) {
    b.marketId == None || b.marketId == Some(u.marketId)
  }

  /** An update takes effect when it is for this market and not older than the book. */
  predicate TakesEffect(b: BookState, u: Update) {
    SameMarket(b, u) && u.updateId >= b.lastUpdateId
  }

  function Written(levels: seq<Level>, price: real, qty: real): seq<Level> {
    if qty == 0.0 then Remove(levels, price) else Put(levels, price, qty)
  }

  function Applied(b: BookState, u: Update): BookState {
    if !SameMarket(b, u) then b
    else
      var c := b.(marketId := Some(u.marketId));
      if u.updateId < b.lastUpdateId then c
      else match u.side
        case Buy => c.(bids := Written(b.bids, u.price, u.qty), lastUpdateId := u.updateId)
        case Sell => c.(asks := Written(b.asks, u.price, u.qty), lastUpdateId := u.updateId)
        case UnknownSide => c.(lastUpdateId := u.updateId)
  }

  function AppliedAll(b: BookState, us: seq<Update>): BookState {
    if us == [] then b else Applied(AppliedAll(b, us[..|us| - 1]), us[|us| - 1])
  }

  /** Every update takes effect at its turn. */
  predicate AllAccepted(b: BookState, us: seq<Update>) {
    us == [] || (AllAccepted(b, us[..|us| - 1]) && TakesEffect(AppliedAll(b, us[..|us| - 1]), us[|us| - 1]))
  }

  ghost function WritesOf(us: seq<Update>): seq<Write> {
    if us == [] then [] else WritesOf(us[..|us| - 1]) + [Write(us[|us| - 1].side, us[|us| - 1].price, us[|us| - 1].qty)]
  }

  ghost predicate SortedBook(b: BookState) {
    Sorted(b.bids) && Sorted(b.asks)
  }

  /** The levels of one event: updates of one market under one id, which the book has not passed. */
  ghost predicate OneEvent(b: BookState, us: seq<Update>, marketId: int, id: int) {
    && id >= b.lastUpdateId && (b.marketId == None || b.marketId == Some(marketId))
    && forall i :: 0 <= i < |us| ==> us[i].updateId == id && us[i].marketId == marketId
  }

  lemma GetApplied(b: BookState, u: Update, side: Side, p: real)
    requires SortedBook(b) && TakesEffect(b, u)
    ensures SortedBook(Applied(b, u))
    ensures !side.UnknownSide? ==>
      Get(Applied(b, u).Levels(side), p)
        == if u.side == side && u.price == p then (if u.qty == 0.0 then None else Some(u.qty))
           else Get(b.Levels(side), p)
  {
    GetPut(b.bids, u.price, u.qty, p);
    GetPut(b.asks, u.price, u.qty, p);
    GetRemove(b.bids, u.price, p);
    GetRemove(b.asks, u.price, p);
  }

  lemma WritesSnoc(log: seq<Write>, w: Write, side: Side, p: real)
    ensures Writes(log + [w], side, p) <==> Writes(log, side, p) || (w.side == side && w.price == p)
  {
    assert (log + [w])[|log|] == w;
    if Writes(log, side, p) {
      var i :| 0 <= i < |log| && log[i].side == side && log[i].price == p;
      assert (log + [w])[i] == log[i];
    }
  }

  /** An event is accepted level by level. */
  lemma {:induction false} EventIsAccepted(b: BookState, us: seq<Update>, marketId: int, id: int)
    requires SortedBook(b) && OneEvent(b, us, marketId, id)
    ensures var c := AppliedAll(b, us);
      && SortedBook(c)
      && c.lastUpdateId == (if us == [] then b.lastUpdateId else id)
      && c.marketId == (if us == [] then b.marketId else Some(marketId))
    ensures AllAccepted(b, us)
  {
    if us != [] {
      var q, u := us[..|us| - 1], us[|us| - 1];
      assert OneEvent(b, q, marketId, id);
      EventIsAccepted(b, q, marketId, id);
      hide Applied, SortedBook;
      assert TakesEffect(AppliedAll(b, q), u);
      AppliedIds(AppliedAll(b, q), u);
      GetApplied(AppliedAll(b, q), u, Buy, 0.0);
    }
  }

  /** A price the event writes shows its last write there, any other what it showed before. */
  lemma {:induction false} EventShows(b: BookState, us: seq<Update>, marketId: int, id: int, side: Side, p: real)
    requires SortedBook(b) && OneEvent(b, us, marketId, id) && !side.UnknownSide?
    ensures var log := WritesOf(us);
      Get(AppliedAll(b, us).Levels(side), p)
      == if Writes(log, side, p) then LastWrite(log, side, p) else Get(b.Levels(side), p)
  {
    if us != [] {
      var q, u := us[..|us| - 1], us[|us| - 1];
      assert OneEvent(b, q, marketId, id);
      EventShows(b, q, marketId, id, side, p);
      EventIsAccepted(b, us, marketId, id);
      EventIsAccepted(b, q, marketId, id);
      hide Applied, SortedBook, TakesEffect, OneEvent, Get, Writes;
      assert us[..|us| - 1] == q && TakesEffect(AppliedAll(b, us[..|us| - 1]), us[|us| - 1]);
      GetApplied(AppliedAll(b, q), u, side, p);
      WritesSnoc(WritesOf(q), Write(u.side, u.price, u.qty), side, p);
      assert WritesOf(us)[..|WritesOf(us)| - 1] == WritesOf(q);
    }
  }

  /** An update of another market changes nothing, and one older than the book only claims its market; any
      other moves the book on to its id. */
  lemma UpdateIsFollowed(b: BookState, u: Update)
    ensures var c := Applied(b, u);
      && (b.marketId != None && b.marketId != Some(u.marketId) ==> c == b)
      && (b.marketId == None || b.marketId == Some(u.marketId) ==>
            && c.marketId == Some(u.marketId)
            && (u.updateId < b.lastUpdateId ==> c == b.(marketId := Some(u.marketId)))
            && (u.updateId >= b.lastUpdateId ==> c.lastUpdateId == u.updateId)
            && (u.side != Buy ==> c.bids == b.bids) && (u.side != Sell ==> c.asks == b.asks))
  {
  }

  lemma AppliedIds(b: BookState, u: Update)
    requires TakesEffect(b, u)
    ensures Applied(b, u).lastUpdateId == u.updateId && Applied(b, u).marketId == Some(u.marketId)
  {
  }

  /** Applying an event a second time changes nothing, although every one of its updates is accepted again. */
  lemma ReapplyIsIdempotent(b: BookState, us: seq<Update>, marketId: int, id: int)
    requires SortedBook(b) && OneEvent(b, us, marketId, id)
    ensures var once := AppliedAll(b, us);
      && AppliedAll(once, us) == once
      && AllAccepted(once, us)
  {
    var once := AppliedAll(b, us);
    EventIsAccepted(b, us, marketId, id);
    EventIsAccepted(once, us, marketId, id);
    SameAgain(b, us, marketId, id, Buy);
    SameAgain(b, us, marketId, id, Sell);
  }

  lemma SameAgain(b: BookState, us: seq<Update>, marketId: int, id: int, side: Side)
    requires SortedBook(b) && OneEvent(b, us, marketId, id) && !side.UnknownSide?
    ensures AppliedAll(AppliedAll(b, us), us).Levels(side) == AppliedAll(b, us).Levels(side)
  {
    hide AppliedAll, WritesOf, LastWrite, Writes;
    var once := AppliedAll(b, us);
    EventIsAccepted(b, us, marketId, id);
    EventIsAccepted(once, us, marketId, id);
    var twice := AppliedAll(once, us);
    forall p ensures Get(twice.Levels(side), p) == Get(once.Levels(side), p) {
      EventShows(b, us, marketId, id, side, p);
      EventShows(once, us, marketId, id, side, p);
    }
    Canonical(twice.Levels(side), once.Levels(side));
  }

  /** Positive prices and no negative quantities went in. */
  ghost predicate Proper(log: seq<Write>) {
    forall i :: 0 <= i < |log| ==> log[i].price > 0.0 && log[i].qty >= 0.0
  }

  lemma {:induction false} LastWriteIsPositive(log: seq<Write>, side: Side, price: real)
    requires Proper(log) && LastWrite(log, side, price).Some?
    ensures price > 0.0 && LastWrite(log, side, price).value > 0.0
  {
    var w := log[|log| - 1];
    if !(w.side == side && w.price == price) {
      LastWriteIsPositive(log[..|log| - 1], side, price);
    }
  }

  lemma {:induction false} GetAt(b: seq<Level>, i: nat)
    requires Sorted(b) && i < |b|
    ensures Get(b, b[i].price) == Some(b[i].qty)
    ensures i > 0 ==> b[0].price < b[i].price
  {
    if i > 0 {
      GetAt(b[1..], i - 1);
    }
  }

  /** Then no level of the book is empty or has no price. */
  lemma ProperLevels(b: seq<Level>, log: seq<Write>, side: Side)
    requires Proper(log) && Mirrors(b, log, side)
    ensures forall i :: 0 <= i < |b| ==> b[i].price > 0.0 && b[i].qty > 0.0
  {
    forall i | 0 <= i < |b| ensures b[i].price > 0.0 && b[i].qty > 0.0 {
      GetAt(b, i);
      LastWriteIsPositive(log, side, b[i].price);
    }
  }

  // ---------------------------------------------------------------- queries

  lemma {:induction false} SortedPair(b: seq<Level>, i: nat, j: nat)
    requires Sorted(b) && i < j < |b|
    ensures b[i].price < b[j].price
  {
    if i == 0 {
      GetAt(b, j);
    } else {
      SortedPair(b[1..], i - 1, j - 1);
    }
  }

  /** `r` is the `n` highest (lowest) levels of `b`, best first. */
  ghost predicate Best(r: seq<Level>, b: seq<Level>, n: nat, higher: bool) {
    && |r| == (if n < |b| then n else |b|)
    && (forall i :: 0 <= i < |r| ==> r[i] in b)
    && (forall i, j :: 0 <= i < j < |r| ==> if higher then r[i].price > r[j].price else r[i].price < r[j].price)
    && (forall l, i :: l in b && 0 <= i < |r|
          ==> l in r || if higher then l.price < r[i].price else l.price > r[i].price)
  }

  datatype Verdict = Sound | BidOrder | BadBid | AskOrder | BadAsk | Crossed

  ghost predicate AllPositive(b: seq<Level>) {
    forall i :: 0 <= i < |b| ==> b[i].qty > 0.0
  }

  /** The highest bid reaches the lowest ask. */
  ghost predicate Touching(bids: seq<Level>, asks: seq<Level>) {
    bids != [] && asks != [] && asks[0].price <= bids[|bids| - 1].price
  }

  /** On sorted sides: some bid reaches some ask, and every ask has a price. */
  lemma VerdictsMean(bids: seq<Level>, asks: seq<Level>)
    requires Sorted(bids) && Sorted(asks)
    ensures Touching(bids, asks) <==> exists b, a :: b in bids && a in asks && b.price >= a.price
    ensures AsksPriced(asks) <==> forall a :: a in asks ==> a.price > 0.0
    ensures AllPositive(bids) <==> forall b :: b in bids ==> b.qty > 0.0
  {
    if bids != [] && asks != [] {
      var top, low := bids[|bids| - 1], asks[0];
      assert top in bids && low in asks;
      forall b | b in bids ensures b.price <= top.price {
        var i :| 0 <= i < |bids| && bids[i] == b;
        if i < |bids| - 1 { SortedPair(bids, i, |bids| - 1); }
      }
      forall a | a in asks ensures a.price >= low.price {
        var i :| 0 <= i < |asks| && asks[i] == a;
        GetAt(asks, i);
      }
    } else if asks != [] {
      forall a | a in asks ensures a.price >= asks[0].price {
        var i :| 0 <= i < |asks| && asks[i] == a;
        GetAt(asks, i);
      }
    }
    assert asks != [] ==> asks[0] in asks;
  }

  class OrderBookManager {
    var bids: seq<Level>
    var asks: seq<Level>
    var lastUpdateId: int
    var marketId: Option<int>
    /** Every write since the last snapshot began to load. */
    ghost var log: seq<Write>

    ghost predicate Valid()
      reads this
    {
      Mirrors(bids, log, Buy) && Mirrors(asks, log, Sell)
    }

    function Value(): BookState
      reads this
    {
      BookState(bids, asks, lastUpdateId, marketId)
    }

    constructor ()
      ensures Valid() && log == [] && marketId == None && lastUpdateId == 0
    {
      bids, asks, lastUpdateId, marketId := [], [], 0, None;
      log := [];
    }

    method InitializeFromSnapshot(snapshot: Snapshot)
      modifies this`bids, this`asks, this`lastUpdateId, this`log
      ensures Valid() && lastUpdateId == snapshot.lastUpdateId
      ensures log == Loaded(Buy, snapshot.bids) + Loaded(Sell, snapshot.asks)
      ensures ShowsSnapshot(bids, snapshot.bids) && ShowsSnapshot(asks, snapshot.asks)
    {
      bids, asks, log := [], [], [];
      Load(Buy, snapshot.bids);
      Load(Sell, snapshot.asks);
      lastUpdateId := snapshot.lastUpdateId;
      assert log == Loaded(Buy, snapshot.bids) + Loaded(Sell, snapshot.asks);
      LoadedBookShows(bids, asks, snapshot);
    }

    method Load(side: Side, levels: seq<Level>)
      requires Valid()
      modifies this`bids, this`asks, this`log
      ensures Valid() && log == old(log) + Loaded(side, levels)
    {
      hide Mirrors;
      for i := 0 to |levels|
        invariant Valid() && log == old(log) + Loaded(side, levels[..i])
      {
        var level := levels[i];
        assert levels[..i + 1][..i] == levels[..i];
        if level.qty > 0.0 {
          Store(Write(side, level.price, level.qty));
        }
      }
      assert levels[..|levels|] == levels;
    }

    /** `BTreeMap::insert`, or `remove` for a zero quantity, on the map of the write's side. */
    method Store(w: Write)
      requires Valid()
      modifies this`bids, this`asks, this`log
      ensures Valid() && log == old(log) + [w]
      ensures bids == if w.side.Buy? then Written(old(bids), w.price, w.qty) else old(bids)
      ensures asks == if w.side.Sell? then Written(old(asks), w.price, w.qty) else old(asks)
    {
      MirrorsWrite(bids, log, w, Buy);
      MirrorsWrite(asks, log, w, Sell);
      match w.side {
        case Buy => bids := Written(bids, w.price, w.qty);
        case Sell => asks := Written(asks, w.price, w.qty);
        case UnknownSide =>
      }
      log := log + [w];
    }

    /** Updates of another market are an error, and updates older than the book are ignored. */
    method ApplyUpdate(update: Update) returns (ok: bool)
      requires Valid()
      modifies this`bids, this`asks, this`lastUpdateId, this`marketId, this`log
      ensures Valid() && Value() == Applied(old(Value()), update)
      ensures ok <==> SameMarket(old(Value()), update)
      ensures log == if TakesEffect(old(Value()), update) then old(log) + [Write(update.side, update.price, update.qty)]
                     else old(log)
    {
      if marketId.Some? {
        if update.marketId != marketId.value {
          return false;
        }
      } else {
        marketId := Some(update.marketId);
      }
      if update.updateId < lastUpdateId {
        return true;
      }
      Store(Write(update.side, update.price, update.qty));
      lastUpdateId := update.updateId;
      return true;
    }

    /** `rev().take(n)` and `take(n)` over the ordered maps. */
    function TopBids(n: nat): (r: seq<Level>)
      requires Valid()
      reads this
      ensures Best(r, bids, n, true)
    {
      var r := seq(if n < |bids| then n else |bids|, i requires 0 <= i < |bids| reads this => bids[|bids| - 1 - i]);
      BestFromTop(r, bids, n);
      r
    }

    function TopAsks(n: nat): (r: seq<Level>)
      requires Valid()
      reads this
      ensures Best(r, asks, n, false)
    {
      BestFromBottom(asks, n);
      asks[..if n < |asks| then n else |asks|]
    }

    function BestBid(): (r: Option<Level>)
      requires Valid()
      reads this
      ensures if r.None? then bids == [] else Best([r.value], bids, 1, true)
    {
      if bids == [] then None
      else
        BestFromTop([bids[|bids| - 1]], bids, 1);
        Some(bids[|bids| - 1])
    }

    function BestAsk(): (r: Option<Level>)
      requires Valid()
      reads this
      ensures if r.None? then asks == [] else Best([r.value], asks, 1, false)
    {
      if asks == [] then None
      else
        BestFromBottom(asks, 1);
        assert asks[..1] == [asks[0]];
        Some(asks[0])
    }

    /** Never complains about the order of the bids; of the asks only when a price is not positive. */
    method Validate() returns (verdict: Verdict)
      requires Valid()
      ensures verdict == Sound <==> AllPositive(bids) && AllPositive(asks) && AsksPriced(asks) && !Touching(bids, asks)
      ensures verdict == Crossed <==> AllPositive(bids) && AllPositive(asks) && AsksPriced(asks) && Touching(bids, asks)
      ensures verdict == BadBid <==> !AllPositive(bids)
      ensures verdict == AskOrder <==> AllPositive(bids) && !AsksPriced(asks)
      ensures verdict != BidOrder
    {
      var previous: Option<real> := None;  // f64::INFINITY
      for i := 0 to |bids|
        invariant forall k :: |bids| - i <= k < |bids| ==> bids[k].qty > 0.0
        invariant previous == if i == 0 then None else Some(bids[|bids| - i].price)
      {
        var level := bids[|bids| - 1 - i];
        if previous.Some? && level.price >= previous.value {
          SortedPair(bids, |bids| - 1 - i, |bids| - i);
          assert false;
        }
        if level.qty <= 0.0 {
          return BadBid;
        }
        previous := Some(level.price);
      }
      var low := 0.0;
      for i := 0 to |asks|
        invariant forall k :: 0 <= k < i ==> asks[k].qty > 0.0
        invariant low == if i == 0 then 0.0 else asks[i - 1].price
        invariant i > 0 ==> AsksPriced(asks)
      {
        if asks[i].price <= low {
          if i > 0 {
            SortedPair(asks, i - 1, i);
          }
          return AskOrder;
        }
        if asks[i].qty <= 0.0 {
          return BadAsk;
        }
        low := asks[i].price;
      }
      if bids != [] && asks != [] {
        if asks[0].price <= bids[|bids| - 1].price {
          return Crossed;
        }
      }
      return Sound;
    }
  }

  ghost predicate AsksPriced(asks: seq<Level>) {
    asks != [] ==> asks[0].price > 0.0
  }

  lemma BestFromTop(r: seq<Level>, b: seq<Level>, n: nat)
    requires Sorted(b) && |r| == if n < |b| then n else |b|
    requires forall i :: 0 <= i < |r| ==> r[i] == b[|b| - 1 - i]
    ensures Best(r, b, n, true)
  {
    forall i, j | 0 <= i < j < |r| ensures r[i].price > r[j].price {
      SortedPair(b, |b| - 1 - j, |b| - 1 - i);
    }
    forall l, i | l in b && 0 <= i < |r| ensures l in r || l.price < r[i].price {
      var k :| 0 <= k < |b| && b[k] == l;
      if k >= |b| - |r| {
        assert r[|b| - 1 - k] == l;
      } else {
        SortedPair(b, k, |b| - 1 - i);
      }
    }
  }

  lemma BestFromBottom(b: seq<Level>, n: nat)
    requires Sorted(b)
    ensures Best(b[..if n < |b| then n else |b|], b, n, false)
  {
    var r := b[..if n < |b| then n else |b|];
    forall i, j | 0 <= i < j < |r| ensures r[i].price < r[j].price {
      SortedPair(b, i, j);
    }
    forall l, i | l in b && 0 <= i < |r| ensures l in r || l.price > r[i].price {
      var k :| 0 <= k < |b| && b[k] == l;
      if k < |r| {
        assert r[k] == l;
      } else {
        SortedPair(b, i, k);
      }
    }
  }

  /** With proper input the only complaint left is a crossed book. */
  lemma ProperBookOnlyCrosses(bids: seq<Level>, asks: seq<Level>, log: seq<Write>)
    requires Proper(log) && Mirrors(bids, log, Buy) && Mirrors(asks, log, Sell)
    ensures AllPositive(bids) && AllPositive(asks) && AsksPriced(asks)
  {
    ProperLevels(bids, log, Buy);
    ProperLevels(asks, log, Sell);
  }
}
