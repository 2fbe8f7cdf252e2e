/**
 One side of the quoting strategy of src/strats/naive_mm/strategy.rs: a slot for the side's order,
 driven by execution reports, order responses, a timeout and decision passes, and the requests it
 sends. Both sides of the strategy follow these rules.
 */
module Quotes {
  import opened Common
  import opened Executions

  /** Microseconds after which an unanswered cancel is given up. */
  const CANCEL_TTL_US: int := 800_000

  datatype OrderPhase = PendingNew | Live | PendingCancel
  datatype LiveOrder = LiveOrder(phase: OrderPhase, clOrdId: int, price: real)

  datatype Slot = Slot(order: Option<LiveOrder>, pendingCancel: bool, lastPost: Option<int>, lastCancel: Option<int>) {
    predicate Holds(id: int) { order.Some? && order.value.clOrdId == id }
  }

  datatype ResponseStatus =
    | Unknown | Ok | FailedPostOnly | FailedRateLimit | Failed500 | Failed400 | FailedOrderNotFound
  datatype Response = Response(status: ResponseStatus, clOrdId: Option<int>)

  datatype Request = Post(id: int, price: real, qty: real, reduceOnly: bool) | Cancel(id: int)

  /** What a pass wants of one side; `exposure` is the position seen from this side. */
  datatype Quote = Quote(target: real, threshold: real, exposure: real, limit: real, lot: real)

  // ---------------------------------------------------------------- steps

  function Executed(s: Slot, x: Execution): Slot {
    if x.clOrdId == -1 || !s.Holds(x.clOrdId) then s
    else if x.execType.XOrderCanceled? then s.(order := None, pendingCancel := false)
    else if x.execType.XOrderNew? || x.execType.XOrderReplaced? || IsAlive(x.ordStatus)
    then s.(order := Some(s.order.value.(phase := Live)))
    else s.(order := None, pendingCancel := false)
  }

  function Responded(s: Slot, r: Response): Slot {
    if r.clOrdId.None? || !s.Holds(r.clOrdId.value) then s
    else match r.status
      case Ok =>
        if s.pendingCancel then s.(order := None, pendingCancel := false)
        else s.(order := Some(s.order.value.(phase := Live)))
      case FailedPostOnly => s.(order := None, lastPost := None)
      case FailedOrderNotFound => s.(order := None, pendingCancel := false)
      case _ => s
  }

  function Expired(s: Slot, now: int): Slot {
    if s.pendingCancel && s.lastCancel.Some? && now - s.lastCancel.value > CANCEL_TTL_US
    then s.(order := None, pendingCancel := false)
    else s
  }

  function Distance(a: real, b: real): real { if a >= b then a - b else b - a }

  predicate WantsCancel(s: Slot, q: Quote) {
    && s.order.Some? && s.order.value.phase.Live? && !s.pendingCancel
    && (Distance(s.order.value.price, q.target) > q.threshold || q.exposure >= q.limit)
  }

  predicate WantsPost(s: Slot, q: Quote) {
    s.order.None? && q.exposure < q.limit
  }

  function Decided(s: Slot, q: Quote, id: int, sent: bool, at: int): (Slot, seq<Request>) {
    if WantsCancel(s, q) && sent then
      (s.(order := Some(s.order.value.(phase := PendingCancel)), pendingCancel := true, lastCancel := Some(at)),
       [Cancel(s.order.value.clOrdId)])
    else if WantsPost(s, q) && sent then
      (s.(order := Some(LiveOrder(PendingNew, id, q.target)), lastPost := Some(at)),
       [Post(id, q.target, q.lot, q.exposure < 0.0)])
    else (s, [])
  }

  // ---------------------------------------------------------------- what every step keeps

  ghost predicate Posted(log: seq<Request>, id: int) {
    exists i :: 0 <= i < |log| && log[i].Post? && log[i].id == id
  }

  ghost predicate Cancelled(log: seq<Request>, id: int) {
    Cancel(id) in log
  }

  /** No id is posted twice or cancelled twice, and none is cancelled before it was posted. */
  ghost predicate SafeLog(log: seq<Request>) {
    && (forall i, j :: 0 <= i < j < |log| ==> log[i] != log[j])
    && (forall i, j :: 0 <= i < j < |log| && log[i].Post? && log[j].Post? ==> log[i].id != log[j].id)
    && (forall j :: 0 <= j < |log| && log[j].Cancel? ==> Posted(log[..j], log[j].id))
  }

  ghost predicate IdsUpTo(log: seq<Request>, last: int) {
    forall i :: 0 <= i < |log| ==> log[i].id <= last
  }

  /** The tracked order was posted by this side, and if it has been cancelled the flag says so. */
  ghost predicate Tracks(s: Slot, log: seq<Request>) {
    && (s.order.Some? ==>
          && Posted(log, s.order.value.clOrdId)
          && (Cancelled(log, s.order.value.clOrdId) ==> s.pendingCancel))
    && (s.pendingCancel ==> s.lastCancel.Some?)
  }

  ghost predicate Inv(s: Slot, log: seq<Request>, last: int) {
    SafeLog(log) && IdsUpTo(log, last) && Tracks(s, log)
  }

  /** Reports, responses and the timeout send nothing, and every reset of the flag also empties the slot. */
  lemma ReportKeepsInv(s: Slot, log: seq<Request>, last: int, x: Execution)
    requires Inv(s, log, last)
    ensures Inv(Executed(s, x), log, last)
  {
  }

  lemma AnswerKeepsInv(s: Slot, log: seq<Request>, last: int, r: Response)
    requires Inv(s, log, last)
    ensures Inv(Responded(s, r), log, last)
  {
  }

  lemma ExpiryKeepsInv(s: Slot, log: seq<Request>, last: int, now: int)
    requires Inv(s, log, last)
    ensures Inv(Expired(s, now), log, last)
  {
  }

  lemma PassKeepsInv(s: Slot, log: seq<Request>, last: int, q: Quote, id: int, sent: bool, at: int)
    requires Inv(s, log, last) && id > last
    ensures var (t, requests) := Decided(s, q, id, sent, at);
      && Inv(t, log + requests, id) && |requests| <= 1
      && (requests != [] && requests[0].Post? ==> s.order.None? && q.exposure < q.limit)
      && (requests != [] && requests[0].Cancel? ==> s.Holds(requests[0].id) && !Cancelled(log, requests[0].id))
  {
    var (t, requests) := Decided(s, q, id, sent, at);
    if requests == [] {
      assert log + [] == log;
    } else {
      SafeSnoc(log, last, requests[0]);
      assert t.order.Some?;
      PostedSnoc(log, requests[0], t.order.value.clOrdId);
    }
  }

  lemma WiderIds(s: Slot, log: seq<Request>, last: int, later: int)
    requires Inv(s, log, last) && last <= later
    ensures Inv(s, log, later)
  {
  }

  lemma PostedSnoc(log: seq<Request>, r: Request, id: int)
    ensures Posted(log + [r], id) <==> Posted(log, id) || (r.Post? && r.id == id)
    ensures Cancelled(log + [r], id) <==> Cancelled(log, id) || r == Cancel(id)
  {
    assert (log + [r])[|log|] == r;
    if Posted(log, id) {
      var i :| 0 <= i < |log| && log[i].Post? && log[i].id == id;
      assert (log + [r])[i] == log[i];
    }
  }

  lemma SafeSnoc(log: seq<Request>, last: int, r: Request)
    requires SafeLog(log) && IdsUpTo(log, last)
    requires r.Post? ==> r.id > last
    requires r.Cancel? ==> Posted(log, r.id) && !Cancelled(log, r.id)
    ensures SafeLog(log + [r])
  {
    var t := log + [r];
    forall j | 0 <= j < |t| && t[j].Cancel? ensures Posted(t[..j], t[j].id) {
      assert t[..j] == if j < |log| then log[..j] else log;
    }
  }

  // ---------------------------------------------------------------- whole runs

  /** What can happen to one side. */
  datatype Event =
    | Report(x: Execution)
    | Answer(r: Response)
    | Pass(now: int, hasTx: bool, quote: Quote, id: int, sent: bool, at: int)

  datatype Trace = Trace(slot: Slot, log: seq<Request>)

  const EMPTY := Slot(None, false, None, None)

  function Step(t: Trace, e: Event): Trace {
    match e
    case Report(x) => t.(slot := Executed(t.slot, x))
    case Answer(r) => t.(slot := Responded(t.slot, r))
    case Pass(now, hasTx, quote, id, sent, at) =>
      var s := Expired(t.slot, now);
      if hasTx then
        var (s', requests) := Decided(s, quote, id, sent, at);
        Trace(s', t.log + requests)
      else t.(slot := s)
  }

  ghost function Run(events: seq<Event>): Trace {
    if events == [] then Trace(EMPTY, []) else Step(Run(events[..|events| - 1]), events[|events| - 1])
  }

  /** The ids a pass may use come from a generator whose ids strictly increase. */
  ghost predicate FreshIds(events: seq<Event>, last: int) {
    && (forall i :: 0 <= i < |events| && events[i].Pass? ==> events[i].id <= last)
    && (forall i, j :: 0 <= i < j < |events| && events[i].Pass? && events[j].Pass? ==> events[i].id < events[j].id)
  }

  /** Over any run no order is cancelled twice, and only orders this side posted are cancelled. */
  lemma {:induction false} RunIsSafe(events: seq<Event>, last: int)
    requires FreshIds(events, last)
    ensures Inv(Run(events).slot, Run(events).log, last)
  {
    if events != [] {
      var p, e := events[..|events| - 1], events[|events| - 1];
      assert forall i :: 0 <= i < |p| ==> p[i] == events[i];
      var before := if e.Pass? then e.id - 1 else last;
      RunIsSafe(p, before);
      var t := Run(p);
      match e {
        case Report(x) => ReportKeepsInv(t.slot, t.log, before, x);
        case Answer(r) => AnswerKeepsInv(t.slot, t.log, before, r);
        case Pass(now, hasTx, quote, id, sent, at) =>
          ExpiryKeepsInv(t.slot, t.log, before, now);
          PassKeepsInv(Expired(t.slot, now), t.log, before, quote, id, sent, at);
      }
      WiderIds(Run(events).slot, Run(events).log, if e.Pass? then e.id else last, last);
    }
  }

  // ---------------------------------------------------------------- what every event does, in its own fields

  /** A report that its order rests at the exchange: new, replaced, or of an alive status and not cancelled. */
  predicate SaysAlive(x: Execution) {
    || x.execType == XOrderNew || x.execType == XOrderReplaced
    || (x.execType != XOrderCanceled
        && (x.ordStatus == OStatusNew || x.ordStatus == OStatusPartiallyFilled || x.ordStatus == OStatusReplaced))
  }

  /** The slot without its order and without a cancel under way. */
  function Emptied(s: Slot): Slot { Slot(None, false, s.lastPost, s.lastCancel) }

  lemma AfterEvent(p: seq<Event>, e: Event)
    ensures Run(p + [e]) == Step(Run(p), e)
  {
    assert (p + [e])[..|p|] == p;
  }

  /** A report touches only the order it names: alive makes it live, anything else empties the slot. */
  lemma ReportIsFollowed(p: seq<Event>, x: Execution)
    ensures var t, u := Run(p), Run(p + [Report(x)]);
      && u.log == t.log
      && (x.clOrdId == -1 || t.slot.order.None? || t.slot.order.value.clOrdId != x.clOrdId ==> u.slot == t.slot)
      && (x.clOrdId != -1 && t.slot.order.Some? && t.slot.order.value.clOrdId == x.clOrdId ==>
            if SaysAlive(x)
            then u.slot == t.slot.(order := Some(LiveOrder(Live, x.clOrdId, t.slot.order.value.price)))
            else u.slot == Emptied(t.slot))
  {
    AfterEvent(p, Report(x));
  }

  /** So does a response: an acknowledgement is of the cancel when one is under way, and else of the post. */
  lemma AnswerIsFollowed(p: seq<Event>, id: int, status: ResponseStatus)
    ensures var t, u := Run(p), Run(p + [Answer(Response(status, Some(id)))]);
      && u.log == t.log
      && (t.slot.order.None? || t.slot.order.value.clOrdId != id ==> u.slot == t.slot)
      && (t.slot.order.Some? && t.slot.order.value.clOrdId == id ==>
            && (status == Ok && !t.slot.pendingCancel ==>
                  u.slot == t.slot.(order := Some(LiveOrder(Live, id, t.slot.order.value.price))))
            && (status == FailedOrderNotFound || (status == Ok && t.slot.pendingCancel) ==> u.slot == Emptied(t.slot))
            && (status == FailedPostOnly ==> u.slot == Slot(None, t.slot.pendingCancel, None, t.slot.lastCancel))
            && (status != Ok && status != FailedOrderNotFound && status != FailedPostOnly ==> u.slot == t.slot))
    ensures Run(p + [Answer(Response(status, None))]) == Run(p)
  {
    AfterEvent(p, Answer(Response(status, Some(id))));
    AfterEvent(p, Answer(Response(status, None)));
  }

  /** A cancel unanswered for 0.8 s is given up at the next pass. */
  predicate GivesUp(s: Slot, now: int) {
    s.pendingCancel && s.lastCancel.Some? && now > s.lastCancel.value + 800_000
  }

  predicate Displaced(price: real, q: Quote) {
    price > q.target + q.threshold || price < q.target - q.threshold
  }

  /** A pass that reaches the exchange cancels the live order exactly when it is displaced or the limit is
      reached, posts exactly into an empty slot below the limit, and else sends nothing. */
  lemma PassIsFollowed(p: seq<Event>, now: int, hasTx: bool, q: Quote, id: int, sent: bool, at: int)
    ensures var t, u := Run(p), Run(p + [Pass(now, hasTx, q, id, sent, at)]);
      var s := if GivesUp(t.slot, now) then Emptied(t.slot) else t.slot;
      var cancels := && hasTx && sent && s.order.Some? && s.order.value.phase == Live && !s.pendingCancel
                     && (Displaced(s.order.value.price, q) || q.exposure >= q.limit);
      var posts := hasTx && sent && s.order.None? && q.exposure < q.limit;
      && (cancels ==>
            && u.log == t.log + [Cancel(s.order.value.clOrdId)]
            && u.slot == Slot(Some(LiveOrder(PendingCancel, s.order.value.clOrdId, s.order.value.price)), true,
                              s.lastPost, Some(at)))
      && (posts ==>
            && u.log == t.log + [Post(id, q.target, q.lot, q.exposure < 0.0)]
            && u.slot == Slot(Some(LiveOrder(PendingNew, id, q.target)), s.pendingCancel, Some(at), s.lastCancel))
      && (!cancels && !posts ==> u.log == t.log && u.slot == s)
  {
    AfterEvent(p, Pass(now, hasTx, q, id, sent, at));
    assert Run(p).log + [] == Run(p).log;
  }

  // ---------------------------------------------------------------- what a slot holds

  /** The last event of p + [e] posted this order. */
  ghost predicate PostsAt(p: seq<Event>, e: Event, id: int) {
    Posted(Run(p + [e]).log[|Run(p).log|..], id)
  }

  /** An event that ends the order of this id. */
  predicate Ends(s: Slot, e: Event, id: int) {
    match e
    case Report(x) => x.clOrdId == id && id != -1 && !SaysAlive(x)
    case Answer(r) =>
      && r.clOrdId == Some(id)
      && (r.status == FailedPostOnly || r.status == FailedOrderNotFound || (r.status == Ok && s.pendingCancel))
    case Pass(now, _, _, _, _, _) => GivesUp(s, now)
  }

  /** Posted, and not ended since. */
  ghost predicate Standing(events: seq<Event>, id: int) {
    events != [] && (
      var p, e := events[..|events| - 1], events[|events| - 1];
      PostsAt(p, e, id) || (Standing(p, id) && !Ends(Run(p).slot, e, id)))
  }

  lemma StandingStep(p: seq<Event>, e: Event, id: int)
    ensures Run(p).log <= Run(p + [e]).log
    ensures Run(p + [e]).slot.Holds(id) <==> PostsAt(p, e, id) || (Run(p).slot.Holds(id) && !Ends(Run(p).slot, e, id))
  {
    var n := |Run(p).log|;
    match e
    case Report(x) =>
      ReportIsFollowed(p, x);
      assert Run(p + [e]).log[n..] == [];
    case Answer(r) =>
      AnswerIsFollowed(p, r.clOrdId.GetOr(0), r.status);
      assert r == Response(r.status, Some(r.clOrdId.GetOr(0))) || r == Response(r.status, None);
      assert Run(p + [e]).log[n..] == [];
    case Pass(now, hasTx, q, own, sent, at) =>
      PassIsFollowed(p, now, hasTx, q, own, sent, at);
      hide Run;
      var news := Run(p + [e]).log[n..];
      assert news == [] || news == [Run(p + [e]).log[n]];
  }

  /** Over any run the slot holds an order exactly while it stands. */
  lemma {:induction false} HeldIffStanding(events: seq<Event>, id: int)
    ensures Run(events).slot.Holds(id) <==> Standing(events, id)
  {
    if events != [] {
      var p, e := events[..|events| - 1], events[|events| - 1];
      HeldIffStanding(p, id);
      StandingStep(p, e, id);
      assert events == p + [e];
    }
  }

  /** Once an event has ended an order that was posted, the slot never holds it again. */
  lemma {:induction false} EndedStaysOut(events: seq<Event>, last: int, k: nat, id: int)
    requires FreshIds(events, last) && k < |events|
    requires Posted(Run(events[..k]).log, id) && Ends(Run(events[..k]).slot, events[k], id)
    ensures Posted(Run(events).log, id) && !Run(events).slot.Holds(id)
  {
    var n := |events| - 1;
    var p, e := events[..n], events[n];
    assert events == p + [e];
    StandingStep(p, e, id);
    assert forall i :: 0 <= i < n ==> p[i] == events[i];
    if k < n {
      assert p[..k] == events[..k];
      EndedStaysOut(p, last, k, id);
    } else {
      assert p == events[..k];
    }
    RunIsSafe(events, last);
    PostedOnce(Run(p).log, Run(events).log, id);
  }

  lemma PostedOnce(before: seq<Request>, after: seq<Request>, id: int)
    requires before <= after && SafeLog(after) && Posted(before, id)
    ensures Posted(after, id) && !Posted(after[|before|..], id)
  {
    var i :| 0 <= i < |before| && before[i].Post? && before[i].id == id;
    assert after[i] == before[i];
    forall j | 0 <= j < |after| - |before| && after[|before|..][j].Post? ensures after[|before|..][j].id != id {
      assert after[|before|..][j] == after[|before| + j];
    }
  }

  // ---------------------------------------------------------------- the flag that outlives its order

  /** The pending flag speaks of the tracked order: a cancel for it is under way. */
  ghost predicate Clean(t: Trace) {
    t.slot.pendingCancel ==> t.slot.order.Some? && Cancelled(t.log, t.slot.order.value.clOrdId)
  }

  /** A post-only failure for an order that is being cancelled empties the slot and leaves the flag. */
  predicate Strands(s: Slot, e: Event) {
    && e.Answer? && e.r.status.FailedPostOnly? && e.r.clOrdId.Some? && s.Holds(e.r.clOrdId.value)
    && s.pendingCancel
  }

  lemma CleanStep(t: Trace, e: Event)
    requires Clean(t)
    ensures Clean(Step(t, e)) <==> !Strands(t.slot, e)
  {
    if e.Pass? {
      var s := Expired(t.slot, e.now);
      var (s', requests) := Decided(s, e.quote, e.id, e.sent, e.at);
      if requests == [] {
        assert t.log + [] == t.log;
      } else {
        PostedSnoc(t.log, requests[0], requests[0].id);
      }
    }
  }

  lemma StartsClean(events: seq<Event>)
    ensures Clean(Run(events[..0]))
  {
  }

  /** Over a run the flag always speaks of the tracked order iff no such failure ever arrives. */
  lemma {:induction false} CleanIffNeverStranded(events: seq<Event>)
    ensures (forall k :: 0 <= k <= |events| ==> Clean(Run(events[..k])))
       <==> (forall k :: 0 <= k < |events| ==> !Strands(Run(events[..k]).slot, events[k]))
  {
    hide Run, Step, Clean, Strands;
    if forall k :: 0 <= k <= |events| ==> Clean(Run(events[..k])) {
      forall k | 0 <= k < |events| ensures !Strands(Run(events[..k]).slot, events[k]) {
        RunSnoc(events, k);
        assert Clean(Run(events[..k + 1]));
        CleanStep(Run(events[..k]), events[k]);
      }
    }
    if forall k :: 0 <= k < |events| ==> !Strands(Run(events[..k]).slot, events[k]) {
      StartsClean(events);
      for k := 0 to |events|
        invariant forall i :: 0 <= i <= k ==> Clean(Run(events[..i]))
      {
        RunSnoc(events, k);
        CleanStep(Run(events[..k]), events[k]);
      }
    }
  }

  lemma RunSnoc(events: seq<Event>, k: nat)
    requires k < |events|
    ensures Run(events[..k + 1]) == Step(Run(events[..k]), events[k])
  {
    assert events[..k + 1][..k] == events[..k];
  }

  /** Something that makes the order of an id live: its acknowledgement, or a report that it is alive. */
  predicate Enlivens(e: Event, id: int) {
    match e
    case Answer(r) => r.status.Ok? && r.clOrdId == Some(id)
    case Report(x) => x.clOrdId == id && (x.execType.XOrderNew? || x.execType.XOrderReplaced? || IsAlive(x.ordStatus))
    case Pass(_, _, _, _, _, _) => false
  }

  ghost predicate Enlivened(events: seq<Event>, id: int) {
    exists i :: 0 <= i < |events| && Enlivens(events[i], id)
  }

  /** A post-only failure is the one answer its order's post gets: never after the order was alive. */
  ghost predicate FailuresComeFirst(events: seq<Event>) {
    forall j :: 0 <= j < |events| && events[j].Answer?
                && events[j].r.status.FailedPostOnly? && events[j].r.clOrdId.Some?
      ==> !Enlivened(events[..j], events[j].r.clOrdId.value)
  }

  lemma EnlivenedSnoc(p: seq<Event>, e: Event, id: int)
    ensures Enlivened(p + [e], id) <==> Enlivened(p, id) || Enlivens(e, id)
  {
    assert (p + [e])[|p|] == e;
    if Enlivened(p, id) {
      var i :| 0 <= i < |p| && Enlivens(p[i], id);
      assert (p + [e])[i] == p[i];
    }
  }

  /** Only an order that was alive is live or has been cancelled. */
  lemma {:induction false} CancelledWasAlive(events: seq<Event>, id: int)
    ensures Cancelled(Run(events).log, id) ==> Enlivened(events, id)
    ensures Run(events).slot.Holds(id) && Run(events).slot.order.value.phase.Live? ==> Enlivened(events, id)
  {
    if events != [] {
      var p, e := events[..|events| - 1], events[|events| - 1];
      assert events == p + [e];
      CancelledWasAlive(p, id);
      EnlivenedSnoc(p, e, id);
      var t := Run(p);
      if e.Pass? {
        var s := Expired(t.slot, e.now);
        var (s', requests) := Decided(s, e.quote, e.id, e.sent, e.at);
        if requests == [] {
          assert t.log + [] == t.log;
        } else {
          PostedSnoc(t.log, requests[0], id);
        }
      }
    }
  }

  /** With answers as the exchange adapter gives them the flag is never stranded. */
  lemma {:induction false} FlagIsClean(events: seq<Event>)
    requires FailuresComeFirst(events)
    ensures Clean(Run(events))
  {
    if events != [] {
      var n := |events| - 1;
      var p, e := events[..n], events[n];
      assert forall j :: 0 <= j < n ==> p[..j] == events[..j] && p[j] == events[j];
      FlagIsClean(p);
      if Strands(Run(p).slot, e) {
        CancelledWasAlive(p, e.r.clOrdId.value);
      }
      CleanStep(Run(p), e);
    }
  }

  /**
   What a stranded flag would do, if an answer did come late: the next order this side posts is
   forgotten at its own acknowledgement, uncancelled, exactly when it was posted before the
   cancel's timeout.
   */
  lemma StrandedFlagForgetsNextOrder(events: seq<Event>, failure: Event, pass: Event, last: int)
    requires FreshIds(events, last) && Strands(Run(events).slot, failure)
    requires pass.Pass? && pass.hasTx && pass.sent && pass.id > last && pass.quote.exposure < pass.quote.limit
    ensures var t := Run(events);
            var posted := Step(Step(t, failure), pass);
            var acked := Step(posted, Answer(Response(Ok, Some(pass.id))));
            && posted.slot.Holds(pass.id)
            && Posted(acked.log, pass.id) && !Cancelled(acked.log, pass.id)
            && t.slot.lastCancel.Some?
            && (acked.slot.order == None <==> pass.now - t.slot.lastCancel.value <= CANCEL_TTL_US)
  {
    var t := Run(events);
    RunIsSafe(events, last);
    hide Run, FreshIds;
    var posted := Step(Step(t, failure), pass);
    var post := Post(pass.id, pass.quote.target, pass.quote.lot, pass.quote.exposure < 0.0);
    assert posted.log == t.log + [post];
    PostedSnoc(t.log, post, pass.id);
    assert !Cancelled(t.log, pass.id);
  }

  /** The shortest such run: post 1, acknowledge, displace and cancel, fail 1 late, post 2, acknowledge 2. */
  lemma StrandedRun(q: Quote, far: Quote)
    requires q.exposure < q.limit && q.threshold >= 0.0 && far == q.(target := q.target + q.threshold + 1.0)
    ensures var t := Run([Pass(0, true, q, 1, true, 0), Answer(Response(Ok, Some(1))), Pass(0, true, far, 2, true, 0),
                          Answer(Response(FailedPostOnly, Some(1))), Pass(0, true, q, 3, true, 0),
                          Answer(Response(Ok, Some(3)))]);
            && t.slot.order == None
            && t.log == [Post(1, q.target, q.lot, q.exposure < 0.0), Cancel(1),
                         Post(3, q.target, q.lot, q.exposure < 0.0)]
  {
    var a, b, c := Pass(0, true, q, 1, true, 0), Answer(Response(Ok, Some(1))), Pass(0, true, far, 2, true, 0);
    var d, e := Answer(Response(FailedPostOnly, Some(1))), Pass(0, true, q, 3, true, 0);
    var f := Answer(Response(Ok, Some(3)));
    var t := SixSteps(a, b, c, d, e, f);
    hide Run;
    var post := Post(1, q.target, q.lot, q.exposure < 0.0);
    assert Step(Step(Trace(EMPTY, []), a), b)
        == Trace(Slot(Some(LiveOrder(Live, 1, q.target)), false, Some(0), None), [post]);
    assert Distance(q.target, far.target) > far.threshold;
  }

  lemma SixSteps(a: Event, b: Event, c: Event, d: Event, e: Event, f: Event) returns (t: Trace)
    ensures t == Run([a, b, c, d, e, f])
    ensures t == Step(Step(Step(Step(Step(Step(Trace(EMPTY, []), a), b), c), d), e), f)
  {
    hide Step;
    var all := [a, b, c, d, e, f];
    RunSnoc(all, 0);
    RunSnoc(all, 1);
    RunSnoc(all, 2);
    RunSnoc(all, 3);
    RunSnoc(all, 4);
    RunSnoc(all, 5);
    assert all[..6] == all;
    t := Run(all);
  }
}
