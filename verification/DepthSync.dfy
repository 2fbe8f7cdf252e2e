/**
 The depth synchroniser of src/exchanges/binance.rs: updates are buffered until a snapshot is known,
 then let through one by one as long as each names its predecessor.
 */
module DepthSyncs {
  import opened Common

  const MAX_BUFFERED_UPDATES: nat := 50_000

  /** One depth message: `U`, `u` and `pu` of the wire format, and its text. */
  datatype Depth = Depth(first: int, final: int, prev: int, text: string)

  datatype SyncState =
    | Disconnected
    | Connecting
    | BufferingUpdates
    | Synchronizing(last: int)
    | Synchronized(last: int)
    | Resynchronizing
    | TradeStream
  {
    /** A snapshot has been installed and the stream is being followed. */
    predicate Following() { Synchronizing? || Synchronized? }
  }

  // ---------------------------------------------------------------- following a stream

  /** What becomes of one update while following, and the state after it. */
  predicate Emits(s: SyncState, u: Depth)
    requires s.Following()
  {
    match s
    case Synchronizing(last) => u.final > last
    case Synchronized(last) => u.prev == last
  }

  function NextState(s: SyncState, u: Depth): (r: SyncState)
    requires s.Following()
    ensures r.Following()
  {
    if Emits(s, u) then Synchronized(u.final) else s
  }

  ghost function Final(s: SyncState, us: seq<Depth>): (r: SyncState)
    requires s.Following()
    ensures r.Following()
  {
    if us == [] then s else NextState(Final(s, us[..|us| - 1]), us[|us| - 1])
  }

  ghost function Emitted(s: SyncState, us: seq<Depth>): seq<Depth>
    requires s.Following()
  {
    if us == [] then []
    else
      var p, u := us[..|us| - 1], us[|us| - 1];
      if Emits(Final(s, p), u) then Emitted(s, p) + [u] else Emitted(s, p)
  }

  /** Each update names the one before it. */
  ghost predicate Linked(us: seq<Depth>) {
    forall i :: 0 < i < |us| ==> us[i].prev == us[i - 1].final
  }

  ghost predicate Increasing(us: seq<Depth>) {
    forall i, j :: 0 <= i < j < |us| ==> us[i].final < us[j].final
  }

  /** A chain that starts beyond the snapshot. */
  ghost predicate ChainFrom(us: seq<Depth>, snapshot: int) {
    Linked(us) && (us != [] ==> us[0].final > snapshot)
  }

  /** The updates the snapshot does not cover. */
  function Newer(us: seq<Depth>, snapshot: int): seq<Depth> {
    if us == [] then []
    else
      var p, u := Newer(us[..|us| - 1], snapshot), us[|us| - 1];
      if u.final > snapshot then p + [u] else p
  }

  /** Whatever arrives, what is emitted is a chain from the snapshot, and the state remembers its end. */
  lemma {:induction false} EmittedIsChain(snapshot: int, us: seq<Depth>)
    ensures var e, s := Emitted(Synchronizing(snapshot), us), Final(Synchronizing(snapshot), us);
            && ChainFrom(e, snapshot)
            && s == if e == [] then Synchronizing(snapshot) else Synchronized(e[|e| - 1].final)
  {
    if us != [] {
      EmittedIsChain(snapshot, us[..|us| - 1]);
    }
  }

  lemma {:induction false} NewerIsSuffix(us: seq<Depth>, snapshot: int) returns (k: nat)
    requires Increasing(us)
    ensures k <= |us| && Newer(us, snapshot) == us[k..]
    ensures forall i :: 0 <= i < |us| ==> (us[i].final > snapshot <==> k <= i)
  {
    if us == [] {
      k := 0;
    } else {
      var p, u := us[..|us| - 1], us[|us| - 1];
      k := NewerIsSuffix(p, snapshot);
      assert forall i :: 0 <= i < |p| ==> p[i] == us[i];
      if k < |p| {
        assert us[k].final > snapshot && us[k].final < u.final;
        SuffixSnoc(us, k);
      } else {
        k := if u.final > snapshot then |p| else |us|;
      }
    }
  }

  lemma SuffixSnoc(us: seq<Depth>, k: nat)
    requires k < |us|
    ensures us[k..] == us[..|us| - 1][k..] + [us[|us| - 1]]
  {
  }

  /**
   On a stream of increasing final ids, everything newer than the snapshot gets through exactly when
   that part of the stream has no missing link: one lost message costs more than itself.
   */
  lemma {:induction false} DeliveredIffLinked(snapshot: int, us: seq<Depth>)
    requires Increasing(us)
    ensures Emitted(Synchronizing(snapshot), us) == Newer(us, snapshot) <==> Linked(Newer(us, snapshot))
  {
    EmittedIsChain(snapshot, us);
    if Linked(Newer(us, snapshot)) {
      LinkedIsDelivered(snapshot, us);
    }
  }

  lemma {:induction false} LinkedIsDelivered(snapshot: int, us: seq<Depth>)
    requires Increasing(us) && Linked(Newer(us, snapshot))
    ensures Emitted(Synchronizing(snapshot), us) == Newer(us, snapshot)
  {
    if us != [] {
      var p, u := us[..|us| - 1], us[|us| - 1];
      var n := Newer(p, snapshot);
      NewerLinkedPrefix(us, snapshot);
      LinkedIsDelivered(snapshot, p);
      EmittedIsChain(snapshot, p);
      var k := NewerIsSuffix(p, snapshot);
      assert n != [] ==> p[k].final < u.final;
    }
  }

  lemma NewerLinkedPrefix(us: seq<Depth>, snapshot: int)
    requires us != [] && Linked(Newer(us, snapshot))
    ensures var n, u := Newer(us[..|us| - 1], snapshot), us[|us| - 1];
            Linked(n) && (u.final > snapshot && n != [] ==> u.prev == n[|n| - 1].final)
  {
    var n, u := Newer(us[..|us| - 1], snapshot), us[|us| - 1];
    var m := Newer(us, snapshot);
    assert forall i :: 0 <= i < |n| ==> m[i] == n[i];
    assert u.final > snapshot ==> m[|n|] == u;
  }

  /** Whatever comes, nothing gets through exactly as long as nothing names the last emitted update. */
  lemma {:induction false} GapStalls(last: int, us: seq<Depth>)
    ensures Emitted(Synchronized(last), us) == [] <==> forall i :: 0 <= i < |us| ==> us[i].prev != last
    ensures Emitted(Synchronized(last), us) == [] ==> Final(Synchronized(last), us) == Synchronized(last)
  {
    if us != [] {
      var p := us[..|us| - 1];
      GapStalls(last, p);
      assert forall i :: 0 <= i < |p| ==> us[i] == p[i];
    }
  }

  /** One message of the exchange's stream is lost, the one behind the last emitted: whatever part of the
      rest arrives, with however many more losses, nothing gets through. Only a new snapshot helps. */
  lemma LostMessageStalls(stream: seq<Depth>, at: nat, us: seq<Depth>)
    requires Linked(stream) && Increasing(stream) && at < |stream| - 1
    requires forall u :: u in us ==> u in stream[at + 2..]
    ensures Emitted(Synchronized(stream[at].final), us) == []
  {
    forall i | 0 <= i < |us| ensures us[i].prev != stream[at].final {
      assert us[i] in us && us[i] in stream[at + 2..];
      var k :| 0 <= k < |stream| - at - 2 && stream[at + 2..][k] == us[i];
      var x := at + 2 + k;
      assert stream[x].prev == stream[x - 1].final > stream[at].final;
    }
    GapStalls(stream[at].final, us);
  }

  /** Update 2 is lost: of 1, 3 and 4 only the first gets through. */
  lemma OneLostUpdate(a: Depth, c: Depth, d: Depth)
    requires a.final == 1 && c.prev == 2 && c.final == 3 && d.prev == 3 && d.final == 4
    ensures Emitted(Synchronizing(0), [a, c, d]) == [a] && Newer([a, c, d], 0) == [a, c, d]
  {
    OneMoreUpdate(0, [], a);
    OneMoreUpdate(0, [a], c);
    OneMoreUpdate(0, [a, c], d);
    hide Emitted, Final, Newer;
    assert [] + [a] == [a] && [a] + [c] == [a, c] && [a, c] + [d] == [a, c, d];
  }

  lemma OneMoreUpdate(snapshot: int, us: seq<Depth>, u: Depth)
    ensures var s := Final(Synchronizing(snapshot), us);
      && Final(Synchronizing(snapshot), us + [u]) == NextState(s, u)
      && Emitted(Synchronizing(snapshot), us + [u])
         == Emitted(Synchronizing(snapshot), us) + (if Emits(s, u) then [u] else [])
      && Newer(us + [u], snapshot) == Newer(us, snapshot) + (if u.final > snapshot then [u] else [])
      && (us == [] ==>
            s == Synchronizing(snapshot) && Emitted(Synchronizing(snapshot), us) == [] == Newer(us, snapshot))
  {
    assert (us + [u])[..|us|] == us;
  }

  // ---------------------------------------------------------------- the buffer

  function Newest(us: seq<Depth>, limit: nat): (r: seq<Depth>)
    ensures |r| == if |us| <= limit then |us| else limit
    ensures forall j :: 0 <= j < |r| ==> r[j] == us[|us| - |r| + j]
  {
    if |us| <= limit then us else us[|us| - limit..]
  }

  /** What reconciling a buffer with a snapshot comes to. */
  datatype Reconciliation = Replay(updates: seq<Depth>) | Gap

  /** Covers the first update after the snapshot. */
  predicate Straddles(u: Depth, snapshot: int) {
    u.first <= snapshot + 1 <= u.final
  }

  predicate Covers(u: Depth, id: int) { u.first <= id <= u.final }

  /** That is: nothing between the snapshot and this update is missing. */
  lemma StraddlesIffNothingMissing(u: Depth, snapshot: int)
    requires u.final > snapshot
    ensures Straddles(u, snapshot) <==> forall id :: snapshot < id <= u.final ==> Covers(u, id)
  {
    assert Covers(u, snapshot + 1) <==> u.first <= snapshot + 1 <= u.final;
  }

  /**
   Reconciling a chained buffer: what is newer than the snapshot is an end of the buffer and still
   chained; it is replayed when it straddles the snapshot, or is empty, and is a gap otherwise.
   */
  lemma ReconcileChained(buffer: seq<Depth>, snapshot: int)
    requires Linked(buffer) && Increasing(buffer)
    ensures ChainFrom(Newer(buffer, snapshot), snapshot)
    ensures exists k :: 0 <= k <= |buffer| && Newer(buffer, snapshot) == buffer[k..]
                        && forall i :: 0 <= i < |buffer| ==> (buffer[i].final > snapshot <==> k <= i)
  {
    var k := NewerIsSuffix(buffer, snapshot);
    assert Newer(buffer, snapshot) == buffer[k..];
  }

  lemma {:induction false} NewerIsNewer(us: seq<Depth>, snapshot: int)
    ensures forall u :: u in Newer(us, snapshot) <==> u in us && u.final > snapshot
  {
    if us != [] {
      var p := us[..|us| - 1];
      assert us == p + [us[|us| - 1]];
      NewerIsNewer(p, snapshot);
    }
  }

  lemma NewestPush(us: seq<Depth>, u: Depth, limit: nat)
    requires limit > 0
    ensures Newest(us + [u], limit) == Newest(Newest(us, limit) + [u], limit)
  {
  }

  // ---------------------------------------------------------------- the connector

  /** What the WebSocket delivers. A text is a depth update when `U`, `u` and `pu` can be scanned from it. */
  datatype Text = DepthText(update: Depth) | OtherText(text: string)
  datatype Frame = TextFrame(text: Text) | CloseFrame | PingPong | OtherFrame | Broken | EndOfStream

  datatype Outcome =
    | Message(text: Text)      // Ok(Some(raw))
    | Closed                   // Ok(None)
    | Mismatch(update: Depth)  // pu does not name the last update
    | InvalidState(update: Depth)
    | ConnectionError
    | Waiting                  // no frame left to read: the call is still pending

  /** What a frame that ends the call makes it return. */
  predicate Returns(frame: Frame, outcome: Outcome) {
    match frame
    case TextFrame(OtherText(_)) => outcome == Message(frame.text)
    case TextFrame(DepthText(u)) => outcome in {Message(frame.text), Mismatch(u), InvalidState(u)}
    case CloseFrame => outcome == Closed
    case EndOfStream => outcome == Closed
    case Broken => outcome == ConnectionError
    case PingPong => false
    case OtherFrame => false
  }

  /** A frame the loop may go on behind: only a depth update can be buffered or dropped. */
  predicate MayPass(frame: Frame) {
    frame.PingPong? || frame.OtherFrame? || (frame.TextFrame? && frame.text.DepthText?)
  }

  ghost function Depths(frames: seq<Frame>): seq<Depth> {
    if frames == [] then []
    else Depths(frames[..|frames| - 1]) + DepthIn(frames[|frames| - 1])
  }

  /** The updates of a list extended by those of the first `n` frames. */
  ghost function With(before: seq<Depth>, frames: seq<Frame>, n: nat): seq<Depth>
    requires n <= |frames|
  {
    before + Depths(frames[..n])
  }

  class Connector {
    var open: bool
    var state: SyncState
    var buffer: seq<Depth>
    /** The last snapshot, and every update seen and let through since it was installed. */
    ghost var snapshot: int
    ghost var seen: seq<Depth>
    ghost var emitted: seq<Depth>
    /** Every update buffered since the buffer was last reconciled. */
    ghost var backlog: seq<Depth>

    ghost predicate Valid()
      reads this
    {
      && buffer == Newest(backlog, 50_000)
      && emitted == Emitted(Synchronizing(snapshot), seen)
      && (state.Following() ==> state == Final(Synchronizing(snapshot), seen))
    }

    constructor ()
      ensures Valid() && state == Disconnected && !open && emitted == [] && backlog == []
    {
      open, state, buffer := false, Disconnected, [];
      snapshot, seen, emitted, backlog := 0, [], [], [];
    }

    method Connect()
      requires Valid()
      modifies this`state
      ensures Valid() && state == Connecting
    {
      state := Connecting;
    }

    method SubscribeL2()
      requires Valid()
      modifies this`state, this`open
      ensures Valid() && open
      ensures state == if old(state).Disconnected? || old(state).Connecting? then BufferingUpdates else old(state)
    {
      open := true;
      if state.Disconnected? || state.Connecting? {
        state := BufferingUpdates;
      }
    }

    method SubscribeTrades()
      requires Valid()
      modifies this`state, this`open
      ensures Valid() && open && state == TradeStream
    {
      open, state := true, TradeStream;
    }

    method Disconnect()
      requires Valid()
      modifies this`state, this`open
      ensures Valid() && !open && state == Disconnected
    {
      open, state := false, Disconnected;
    }

    /** `prepare_l2_sync`: start following at the snapshot; the buffer is left for later. */
    method PrepareL2Sync(lastUpdateId: int)
      requires Valid()
      modifies this`state, this`snapshot, this`seen, this`emitted
      ensures Valid() && state == Synchronizing(lastUpdateId)
      ensures snapshot == lastUpdateId && seen == [] && emitted == []
    {
      state := Synchronizing(lastUpdateId);
      snapshot, seen, emitted := lastUpdateId, [], [];
    }

    /** The `retain` of `process_buffered_updates`. */
    method Retain(id: int)
      modifies this`buffer
      ensures buffer == Newer(old(buffer), id)
    {
      var kept: seq<Depth> := [];
      for i := 0 to |buffer|
        invariant buffer == old(buffer) && kept == Newer(buffer[..i], id)
      {
        assert buffer[..i + 1][..i] == buffer[..i];
        if buffer[i].final > id {
          kept := kept + [buffer[i]];
        }
      }
      assert buffer[..|buffer|] == buffer;
      buffer := kept;
    }

    /** Reconcile the buffer with a snapshot: everything newer, nothing, or a gap. There is no other outcome. */
    method ProcessBufferedUpdates(id: int) returns (r: Reconciliation)
      requires Valid()
      modifies this`state, this`buffer, this`backlog
      ensures Valid()
      ensures |buffer| <= |old(buffer)| <= 50_000
      ensures var newer := Newer(old(buffer), id);
              if newer == [] || Straddles(newer[0], id)
              then r == Replay(newer) && buffer == [] && state == old(state)
              else r == Gap && buffer == newer && state == Resynchronizing && newer[0].first > id + 1
    {
      var valid: seq<Depth> := [];
      NewerIsNewer(buffer, id);
      Retain(id);
      if buffer != [] {
        var front := buffer[0];
        assert front in Newer(old(buffer), id);
        if front.first <= id + 1 && front.final >= id + 1 {
          valid, buffer := valid + buffer, [];
        } else if front.first > id + 1 {
          state := Resynchronizing;
          backlog := buffer;
          NewerNoLonger(old(buffer), id);
          return Gap;
        }
      }
      backlog := buffer;
      return Replay(valid);
    }

    /**
     Meant to replay the buffered updates; the list the reconciliation returns is dropped and the
     buffer it emptied is drained once more, so that nothing is ever replayed.
     */
    method TakeL2ReplayMessages() returns (r: Option<seq<string>>)
      requires Valid()
      modifies this`state, this`buffer, this`backlog
      ensures Valid() && r == None
      ensures state == old(state) || (old(state).Synchronizing? && state == Resynchronizing)
      ensures old(state).Synchronizing? && state == old(state) ==> buffer == []
    {
      if state.Synchronizing? {
        var reconciled := ProcessBufferedUpdates(state.last);
        if reconciled.Replay? {
          if reconciled.updates == [] && buffer == [] {
            return None;
          }
          var messages := DrainBufferedAsRaw();
          return if messages == [] then None else Some(messages);
        }
      }
      return None;
    }

    method DrainBufferedAsRaw() returns (out: seq<string>)
      requires Valid()
      modifies this`buffer, this`backlog
      ensures Valid() && buffer == []
      ensures |out| == |old(buffer)| && forall i :: 0 <= i < |out| ==> out[i] == old(buffer)[i].text
    {
      out := [];
      ghost var all := buffer;
      while buffer != []
        invariant |out| <= |all| && buffer == all[|out|..]
        invariant forall i :: 0 <= i < |out| ==> out[i] == all[i].text
        decreases |buffer|
      {
        out := out + [buffer[0].text];
        buffer := buffer[1..];
      }
      backlog := [];
    }

    /** One update while buffering: it joins the buffer, which keeps only the newest. */
    method BufferUpdate(u: Depth)
      requires Valid()
      modifies this`buffer, this`backlog
      ensures Valid() && backlog == old(backlog) + [u]
    {
      NewestPush(backlog, u, MAX_BUFFERED_UPDATES);
      buffer := buffer + [u];
      if |buffer| > MAX_BUFFERED_UPDATES {
        var toTrim := |buffer| - MAX_BUFFERED_UPDATES;
        ghost var all := buffer;
        for n := 0 to toTrim
          invariant buffer == all[n..] && backlog == old(backlog)
        {
          buffer := buffer[1..];
        }
      }
      backlog := backlog + [u];
    }

    /** One update while following; `None` drops it silently, otherwise the call returns. */
    method FollowUpdate(u: Depth) returns (outcome: Option<Outcome>)
      requires Valid() && state.Following()
      modifies this`state, this`seen, this`emitted
      ensures Valid() && state.Following() && seen == old(seen) + [u]
      ensures emitted == if outcome == Some(Message(DepthText(u))) then old(emitted) + [u] else old(emitted)
      ensures outcome in {None, Some(Message(DepthText(u))), Some(Mismatch(u))}
      ensures outcome == Some(Mismatch(u)) <==> old(state).Synchronized? && u.prev != old(state).last
    {
      assert (seen + [u])[..|seen|] == seen;
      seen := seen + [u];
      match state {
        case Synchronizing(last) =>
          if u.final <= last {
            return None;
          }
          if u.first > last {
            state := Synchronized(u.final);
          } else if u.first <= last + 1 && u.final >= last + 1 {
            state := Synchronized(u.final);
          } else {
            assert false;  // the "fallback" branch
          }
        case Synchronized(last) =>
          if u.prev != last {
            return Some(Mismatch(u));
          }
          state := Synchronized(u.final);
      }
      emitted := emitted + [u];
      return Some(Message(DepthText(u)));
    }

    method OnText(text: Text) returns (outcome: Option<Outcome>)
      requires Valid()
      modifies this`state, this`seen, this`emitted, this`buffer, this`backlog
      ensures Valid() && state.Following() == old(state).Following()
      ensures !state.Following() ==> state == old(state)
      ensures seen == if state.Following() then old(seen) + DepthOf(text) else old(seen)
      ensures backlog == if state.BufferingUpdates? then old(backlog) + DepthOf(text) else old(backlog)
      ensures emitted == if state.Following() && outcome == Some(Message(text))
                         then old(emitted) + DepthOf(text) else old(emitted)
      ensures outcome.Some? ==> Returns(TextFrame(text), outcome.value)
      ensures text.OtherText? || state.TradeStream? ==> outcome == Some(Message(text))
      ensures state.BufferingUpdates? && text.DepthText? ==> outcome == None
      ensures text.DepthText? && (state.Disconnected? || state.Connecting? || state.Resynchronizing?)
          ==> outcome == Some(InvalidState(text.update))
    {
      if !state.TradeStream? && text.DepthText? {
        if state.BufferingUpdates? {
          BufferUpdate(text.update);
          return None;
        } else if state.Following() {
          outcome := FollowUpdate(text.update);
          return;
        } else {
          return Some(InvalidState(text.update));
        }
      }
      return Some(Message(text));
    }

    /** One frame; `None` when the loop goes on to the next. */
    method OnFrame(frame: Frame) returns (outcome: Option<Outcome>)
      requires Valid()
      modifies this`state, this`seen, this`emitted, this`buffer, this`backlog
      ensures Valid()
      ensures old(state).Following() ==> seen == old(seen) + DepthIn(frame)
      ensures !old(state).Following() ==> seen == old(seen) && emitted == old(emitted)
      ensures backlog == if old(state).BufferingUpdates? then old(backlog) + DepthIn(frame) else old(backlog)
      ensures emitted == if old(state).Following() && outcome.Some? && outcome.value.Message?
                         then old(emitted) + DepthIn(frame) else old(emitted)
      ensures outcome.Some? ==>
        !outcome.value.Waiting? && (outcome.value.Message? ==> frame == TextFrame(outcome.value.text))
      ensures match outcome case Some(o) => Returns(frame, o) case None => MayPass(frame) && state == old(state)
      ensures frame.CloseFrame? ==> state == Disconnected
      ensures !frame.CloseFrame? && !frame.TextFrame? ==> state == old(state)
      ensures state == old(state) || state.Disconnected? || (old(state).Following() && state.Following())
    {
      match frame
      case TextFrame(text) =>
        outcome := OnText(text);
      case CloseFrame =>
        state := Disconnected;
        return Some(Closed);
      case PingPong =>
        return None;
      case OtherFrame =>
        return None;
      case Broken =>
        return Some(ConnectionError);
      case EndOfStream =>
        return Some(Closed);
    }

    /**
     Read frames until one of them ends the call. Everything read while following is accounted for:
     the emitted updates stay a chain from the snapshot, with rejected messages in between or not.
     */
    method NextMessage(frames: seq<Frame>) returns (used: nat, outcome: Outcome)
      requires Valid()
      modifies this`state, this`seen, this`emitted, this`buffer, this`backlog
      ensures Valid() && ChainFrom(emitted, snapshot)
      ensures used <= |frames| && (!open ==> used == 0 && outcome == ConnectionError)
      ensures open && outcome.Waiting? ==> used == |frames| && forall i :: 0 <= i < used ==> MayPass(frames[i])
      ensures open && !outcome.Waiting? ==>
        used > 0 && Returns(frames[used - 1], outcome) && forall i :: 0 <= i < used - 1 ==> MayPass(frames[i])
      ensures open && used > 0 && frames[used - 1].CloseFrame? ==> state == Disconnected
      ensures outcome.Message? ==> used > 0 && frames[used - 1] == TextFrame(outcome.text)
      ensures seen == if old(state).Following() then With(old(seen), frames, used) else old(seen)
      ensures backlog == if old(state).BufferingUpdates? then With(old(backlog), frames, used) else old(backlog)
      ensures emitted == if old(state).Following() && outcome.Message?
                         then old(emitted) + DepthOf(outcome.text) else old(emitted)
      ensures state == old(state) || state.Disconnected? || (old(state).Following() && state.Following())
    {
      hide Emitted, Final, Newest, Linked, With;
      used := 0;
      DepthsNone(frames, seen);
      DepthsNone(frames, backlog);
      EmittedIsChain(snapshot, seen);
      if !open {
        return 0, ConnectionError;
      }
      while used < |frames|
        invariant used <= |frames| && Valid() && state == old(state)
        invariant seen == if old(state).Following() then With(old(seen), frames, used) else old(seen)
        invariant backlog == if old(state).BufferingUpdates? then With(old(backlog), frames, used) else old(backlog)
        invariant emitted == old(emitted) && forall i :: 0 <= i < used ==> MayPass(frames[i])
      {
        DepthsSnoc(frames, used, old(seen));
        DepthsSnoc(frames, used, old(backlog));
        var o := OnFrame(frames[used]);
        used := used + 1;
        if o.Some? {
          EmittedIsChain(snapshot, seen);
          return used, o.value;
        }
      }
      return used, Waiting;
    }
  }

  function DepthOf(text: Text): seq<Depth> {
    match text
    case DepthText(u) => [u]
    case OtherText(_) => []
  }

  function DepthIn(frame: Frame): seq<Depth> {
    if frame.TextFrame? then DepthOf(frame.text) else []
  }

  lemma DepthsNone(frames: seq<Frame>, before: seq<Depth>)
    ensures With(before, frames, 0) == before
  {
  }

  lemma DepthsSnoc(frames: seq<Frame>, i: nat, before: seq<Depth>)
    requires i < |frames|
    ensures With(before, frames, i + 1) == With(before, frames, i) + DepthIn(frames[i])
  {
    assert frames[..i + 1][..i] == frames[..i];
  }

  lemma NewerNoLonger(us: seq<Depth>, snapshot: int)
    ensures |Newer(us, snapshot)| <= |us|
  {
    if us != [] {
      NewerNoLonger(us[..|us| - 1], snapshot);
    }
  }
}
