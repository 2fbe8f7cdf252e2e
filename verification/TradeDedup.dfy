/**
 Trade de-duplication of src/exchanges/binance_account.rs: the exchange announces a fill twice, first
 as a bare TRADE_LITE and then as a full ORDER_TRADE_UPDATE. The placeholder is held back for a while
 and emitted only if the full update stays away.
 */
module TradeDedups {
  import opened Common
  import opened Executions

  const SEEN_LIMIT: nat := 8192
  /** Milliseconds a TRADE_LITE waits for its full update. */
  const HOLD_MS: int := 1500

  /** A parsed text message for our symbol; `at` is the clock when a placeholder is stored. */
  datatype Text =
    | Full(id: int, exec: Execution)
    | Lite(id: int, exec: Execution, at: int)
    | OtherText

  /** With the clock as the flush at the end of the message reads it. The clock may run backwards. */
  datatype Msg = Msg(text: Text, now: int)

  datatype Placeholder = Placeholder(exec: Execution, at: int)
  datatype Emission = Emission(id: int, exec: Execution)

  datatype State = State(seen: set<int>, pending: map<int, Placeholder>)

  /** `continue`: already known in full, so not even the flush runs. */
  predicate Skips(s: State, t: Text) {
    !t.OtherText? && t.id in s.seen
  }

  function Handled(s: State, t: Text): State
    requires !Skips(s, t)
  {
    match t
    case Full(id, _) =>
      var seen := s.seen + {id};
      State(if |seen| > SEEN_LIMIT then {} else seen, s.pending - {id})
    case Lite(id, exec, at) =>
      State(s.seen, if id in s.pending then s.pending else s.pending[id := Placeholder(exec, at)])
    case OtherText => s
  }

  /** The placeholders that have waited long enough. */
  function Ripe(pending: map<int, Placeholder>, now: int): set<int> {
    set id | id in pending && now - pending[id].at >= HOLD_MS
  }

  function Next(s: State, m: Msg): State {
    if Skips(s, m.text) then s
    else
      var h := Handled(s, m.text);
      State(h.seen, h.pending - Ripe(h.pending, m.now))
  }

  /** How often one message causes the trade `id` to be emitted. */
  function Emits(s: State, m: Msg, id: int): nat {
    if Skips(s, m.text) then 0
    else
      (if m.text.Full? && m.text.id == id then 1 else 0)
      + if id in Ripe(Handled(s, m.text).pending, m.now) then 1 else 0
  }

  // ---------------------------------------------------------------- whole runs

  const START := State({}, map[])

  ghost function Run(p: seq<Msg>): State {
    if p == [] then START else Next(Run(p[..|p| - 1]), p[|p| - 1])
  }

  ghost function TimesEmitted(p: seq<Msg>, id: int): nat {
    if p == [] then 0
    else TimesEmitted(p[..|p| - 1], id) + Emits(Run(p[..|p| - 1]), p[|p| - 1], id)
  }

  /** The trades a run has announced in full. */
  ghost function FullIds(p: seq<Msg>): set<int> {
    if p == [] then {}
    else FullIds(p[..|p| - 1]) + if p[|p| - 1].text.Full? then {p[|p| - 1].text.id} else {}
  }

  /** The exchange sends no TRADE_LITE twice. */
  ghost predicate LitesDistinct(p: seq<Msg>) {
    forall i, j :: 0 <= i < j < |p| && p[i].text.Lite? && p[j].text.Lite? ==> p[i].text.id != p[j].text.id
  }

  lemma RunSnoc(q: seq<Msg>, m: Msg)
    ensures Run(q + [m]) == Next(Run(q), m)
    ensures forall id :: TimesEmitted(q + [m], id) == TimesEmitted(q, id) + Emits(Run(q), m, id)
  {
    assert (q + [m])[..|q + [m]| - 1] == q;
  }

  /** Whatever happens, an id known in full has no placeholder. */
  lemma {:induction false} SeenAndPendingDisjoint(p: seq<Msg>)
    ensures Run(p).seen !! Run(p).pending.Keys
  {
    if p != [] {
      SeenAndPendingDisjoint(p[..|p| - 1]);
    }
  }

  /** So a placeholder is emitted only while its trade is not known in full. */
  lemma LiteOnlyWhileUnseen(p: seq<Msg>, m: Msg, id: int)
    requires !Skips(Run(p), m.text)
    requires id in Ripe(Handled(Run(p), m.text).pending, m.now)
    ensures id !in Handled(Run(p), m.text).seen && !(m.text.Full? && m.text.id == id)
  {
    SeenAndPendingDisjoint(p);
  }

  /** While a placeholder is held a further TRADE_LITE of its trade leaves it, time and all, as it was. */
  lemma FirstLiteIsKept(p: seq<Msg>, id: int, exec: Execution, at: int)
    requires id in Run(p).pending
    ensures var lite := Lite(id, exec, at); !Skips(Run(p), lite) && Handled(Run(p), lite) == Run(p)
  {
    SeenAndPendingDisjoint(p);
    assert id in Run(p).pending.Keys;
  }

  // ---------------------------------------------------------------- what is known

  /** The trades known in full, told from the full updates alone: one more than fit empties the set. */
  ghost function Known(p: seq<Msg>): set<int> {
    if p == [] then {}
    else
      var known, t := Known(p[..|p| - 1]), p[|p| - 1].text;
      if !t.Full? || t.id in known then known
      else if |known| == SEEN_LIMIT then {}
      else known + {t.id}
  }

  lemma {:induction false} SeenIsKnown(p: seq<Msg>)
    ensures Run(p).seen == Known(p) && |Known(p)| <= SEEN_LIMIT
  {
    if p != [] {
      var q, m := p[..|p| - 1], p[|p| - 1];
      SeenIsKnown(q);
      SeenAfter(Run(q), m);
    }
  }

  lemma SeenAfter(s: State, m: Msg)
    requires |s.seen| <= SEEN_LIMIT
    ensures var known := Next(s, m).seen;
      if m.text.Full? && m.text.id !in s.seen
      then (if |s.seen| == SEEN_LIMIT then known == {} else known == s.seen + {m.text.id} && |known| == |s.seen| + 1)
      else known == s.seen
  {
    if m.text.Full? && m.text.id !in s.seen {
      assert |s.seen + {m.text.id}| == |s.seen| + 1;
    }
  }

  /** The full update at `k` was not known. */
  ghost predicate AcceptedAt(p: seq<Msg>, k: nat)
    requires k < |p|
  {
    p[k].text.Full? && p[k].text.id !in Known(p[..k])
  }

  /** And it overflowed the set of known trades, which was emptied. */
  ghost predicate ClearedAt(p: seq<Msg>, k: nat)
    requires k < |p|
  {
    AcceptedAt(p, k) && |Known(p[..k])| == SEEN_LIMIT
  }

  /** A clear came at or after the last time the full update of `id` was accepted. */
  ghost predicate ClearedSince(p: seq<Msg>, id: int) {
    exists c :: 0 <= c < |p| && ClearedAt(p, c)
                && forall k :: c < k < |p| ==> !(AcceptedAt(p, k) && p[k].text.id == id)
  }

  ghost function Acceptances(p: seq<Msg>): nat {
    if p == [] then 0 else Acceptances(p[..|p| - 1]) + if AcceptedAt(p, |p| - 1) then 1 else 0
  }

  /** What is left of n acceptances in a set that every 8193rd of them empties. */
  predicate Cycles(n: nat, k: nat) {
    k == n % (SEEN_LIMIT + 1)
  }

  lemma OneMoreCycles(n: nat, k: nat)
    requires Cycles(n, k)
    ensures Cycles(n + 1, if k == SEEN_LIMIT then 0 else k + 1)
  {
  }

  lemma KnownGrows(q: seq<Msg>, m: Msg)
    ensures var p, n := q + [m], |Known(q)|;
      && |Known(p)| == (if !AcceptedAt(p, |q|) then n else if n == SEEN_LIMIT then 0 else n + 1)
      && Acceptances(p) == Acceptances(q) + if AcceptedAt(p, |q|) then 1 else 0
  {
    var p := q + [m];
    assert p[..|q|] == q && p[..|p| - 1] == q;
  }

  lemma StartCycles()
    ensures Cycles(Acceptances([]), |Known([])|)
  {
  }

  lemma {:induction false} KnownCycles(p: seq<Msg>)
    ensures Cycles(Acceptances(p), |Known(p)|)
  {
    hide Cycles, Known, AcceptedAt, Acceptances;
    if p == [] {
      StartCycles();
    } else {
      var q, m := p[..|p| - 1], p[|p| - 1];
      KnownCycles(q);
      assert p == q + [m];
      KnownGrows(q, m);
      OneMoreCycles(Acceptances(q), |Known(q)|);
    }
  }

  /** The set of known trades fills up and is emptied by every 8193rd acceptance. */
  lemma SeenCounts(p: seq<Msg>)
    ensures |Run(p).seen| == Acceptances(p) % 8193
  {
    hide Known, Run, Acceptances;
    SeenIsKnown(p);
    KnownCycles(p);
  }

  lemma {:induction false} KnownWereAnnounced(p: seq<Msg>)
    ensures Known(p) <= FullIds(p)
  {
    if p != [] {
      KnownWereAnnounced(p[..|p| - 1]);
    }
  }

  lemma SubsetFits(a: set<int>, b: set<int>)
    requires a <= b
    ensures |a| <= |b|
  {
    assert b == a + (b - a);
  }

  /** As long as the ids fit, nothing is forgotten. */
  lemma {:induction false} NothingForgotten(p: seq<Msg>)
    requires |FullIds(p)| <= SEEN_LIMIT
    ensures Known(p) == FullIds(p)
  {
    if p != [] {
      var q, m := p[..|p| - 1], p[|p| - 1];
      SubsetFits(FullIds(q), FullIds(p));
      NothingForgotten(q);
      assert m.text.Full? ==> FullIds(q) + {m.text.id} == FullIds(p);
    }
  }

  /** Known are all trades ever announced in full, exactly as long as they fit. */
  lemma NothingForgottenIffFits(p: seq<Msg>)
    ensures Run(p).seen == FullIds(p) <==> |FullIds(p)| <= SEEN_LIMIT
  {
    SeenIsKnown(p);
    if |FullIds(p)| <= SEEN_LIMIT {
      NothingForgotten(p);
    }
  }

  lemma KnownSnoc(q: seq<Msg>, m: Msg)
    ensures var p := q + [m];
      && (AcceptedAt(p, |q|) <==> m.text.Full? && m.text.id !in Known(q))
      && (ClearedAt(p, |q|) <==> AcceptedAt(p, |q|) && |Known(q)| == SEEN_LIMIT)
      && (ClearedAt(p, |q|) ==> Known(p) == {})
      && (AcceptedAt(p, |q|) && !ClearedAt(p, |q|) ==> Known(p) == Known(q) + {m.text.id})
      && (!AcceptedAt(p, |q|) ==> Known(p) == Known(q))
  {
    var p := q + [m];
    assert p[..|q|] == q && p[..|p| - 1] == q;
  }

  lemma ClearedSinceSnoc(q: seq<Msg>, m: Msg, id: int)
    ensures ClearedSince(q + [m], id) <==>
      ClearedAt(q + [m], |q|) || (ClearedSince(q, id) && !(AcceptedAt(q + [m], |q|) && m.text.id == id))
  {
    var p := q + [m];
    forall k | 0 <= k < |q|
      ensures AcceptedAt(p, k) <==> AcceptedAt(q, k)
      ensures ClearedAt(p, k) <==> ClearedAt(q, k)
      ensures p[k] == q[k]
    {
      assert p[..k] == q[..k];
    }
    hide AcceptedAt, ClearedAt;
    if ClearedSince(q, id) {
      var c :| 0 <= c < |q| && ClearedAt(q, c) && forall k :: c < k < |q| ==> !(AcceptedAt(q, k) && q[k].text.id == id);
      assert ClearedAt(p, c);
    }
  }

  /** A trade announced in full is no longer known exactly when a clear came at or after its last acceptance. */
  lemma {:induction false} ForgottenIffCleared(p: seq<Msg>, id: int)
    requires id in FullIds(p)
    ensures id !in Known(p) <==> ClearedSince(p, id)
  {
    var q, m := p[..|p| - 1], p[|p| - 1];
    assert p == q + [m];
    KnownSnoc(q, m);
    KnownWereAnnounced(q);
    ClearedSinceSnoc(q, m, id);
    hide AcceptedAt, ClearedAt, ClearedSince, Known;
    if id in FullIds(q) {
      ForgottenIffCleared(q, id);
    }
  }

  /** So that is exactly when a repeated full update is emitted again, however many trades there were. */
  lemma RepeatIsEmittedIffCleared(p: seq<Msg>, m: Msg)
    requires m.text.Full? && m.text.id in FullIds(p)
    ensures Emits(Run(p), m, m.text.id) == if ClearedSince(p, m.text.id) then 1 else 0
  {
    SeenIsKnown(p);
    ForgottenIffCleared(p, m.text.id);
  }

  // ---------------------------------------------------------------- how often a trade is emitted

  /** How often the full update of a trade was accepted. */
  ghost function TimesAccepted(p: seq<Msg>, id: int): nat {
    if p == [] then 0
    else TimesAccepted(p[..|p| - 1], id) + if AcceptedAt(p, |p| - 1) && p[|p| - 1].text.id == id then 1 else 0
  }

  /** When the TRADE_LITE of a trade came, if it came while the trade was not known and no full update
      has been accepted since. */
  ghost function WaitingSince(p: seq<Msg>, id: int): Option<int> {
    if p == [] then None
    else
      var before, known, t := WaitingSince(p[..|p| - 1], id), Known(p[..|p| - 1]), p[|p| - 1].text;
      if t.OtherText? || t.id != id || id in known then before
      else if t.Full? then None
      else if before.None? then Some(t.at)
      else before
  }

  /** Message `k` is not skipped, and its flush finds the TRADE_LITE of `id` still waiting and old enough. */
  ghost predicate OverdueAt(p: seq<Msg>, k: nat, id: int)
    requires k < |p|
  {
    var since := WaitingSince(p[..k + 1], id);
    && (p[k].text.OtherText? || p[k].text.id !in Known(p[..k]))
    && since.Some? && p[k].now - since.value >= HOLD_MS
  }

  ghost predicate Overdue(p: seq<Msg>, id: int) {
    exists k :: 0 <= k < |p| && OverdueAt(p, k, id)
  }

  lemma OverdueSnoc(p: seq<Msg>, m: Msg, id: int)
    ensures Overdue(p + [m], id) <==> Overdue(p, id) || OverdueAt(p + [m], |p|, id)
  {
    var q := p + [m];
    forall k | 0 <= k < |p| ensures OverdueAt(p, k, id) <==> OverdueAt(q, k, id) {
      assert q[..k] == p[..k] && q[..k + 1] == p[..k + 1];
    }
    if Overdue(p, id) {
      var k :| 0 <= k < |p| && OverdueAt(p, k, id);
      assert OverdueAt(q, k, id);
    }
  }

  lemma {:induction false} NoLiteYet(p: seq<Msg>, id: int)
    requires forall i :: 0 <= i < |p| && p[i].text.Lite? ==> p[i].text.id != id
    ensures WaitingSince(p, id) == None && !Overdue(p, id)
  {
    if p != [] {
      var q := p[..|p| - 1];
      assert p == q + [p[|p| - 1]] && forall i :: 0 <= i < |q| ==> q[i] == p[i];
      NoLiteYet(q, id);
      OverdueSnoc(q, p[|p| - 1], id);
      assert p[..|q| + 1] == p;
    }
  }

  /** A placeholder is held exactly while its full update is waited for and it was not overdue. */
  ghost predicate Tracked(p: seq<Msg>, id: int) {
    && HeldFor(Run(p), id, WaitingSince(p, id), Overdue(p, id))
    && TimesEmitted(p, id) == TimesAccepted(p, id) + if Overdue(p, id) then 1 else 0
  }

  predicate HeldFor(s: State, id: int, since: Option<int>, overdue: bool) {
    && (id in s.pending <==> since.Some? && !overdue)
    && (id in s.pending ==> s.pending[id].at == since.value)
  }

  predicate IsFullOf(t: Text, id: int) { t.Full? && t.id == id }

  predicate IsLiteOf(t: Text, id: int) { t.Lite? && t.id == id }

  /** One message, as the placeholder of one trade sees it. */
  lemma HeldStep(s: State, m: Msg, id: int, since: Option<int>, overdue: bool)
    requires HeldFor(s, id, since, overdue)
    requires IsLiteOf(m.text, id) ==> since.None? && !overdue
    ensures var accepted := IsFullOf(m.text, id) && id !in s.seen;
      var since' := if accepted then None
                    else if IsLiteOf(m.text, id) && id !in s.seen then Some(m.text.at)
                    else since;
      var ripe := !Skips(s, m.text) && since'.Some? && m.now - since'.value >= HOLD_MS;
      && HeldFor(Next(s, m), id, since', overdue || ripe)
      && Emits(s, m, id) == (if accepted then 1 else 0) + if !overdue && ripe then 1 else 0
  {
  }

  /** What one more message does to the facts the count is about. */
  lemma Unfolded(q: seq<Msg>, m: Msg, id: int)
    ensures var p, s, t, since := q + [m], Run(q), m.text, WaitingSince(q, id);
      var accepted := IsFullOf(t, id) && id !in s.seen;
      && Run(p) == Next(s, m)
      && TimesEmitted(p, id) == TimesEmitted(q, id) + Emits(s, m, id)
      && TimesAccepted(p, id) == TimesAccepted(q, id) + (if accepted then 1 else 0)
      && (accepted ==> WaitingSince(p, id) == None)
      && (IsLiteOf(t, id) && id !in s.seen ==> WaitingSince(p, id) == if since.None? then Some(t.at) else since)
      && (!accepted && !(IsLiteOf(t, id) && id !in s.seen) ==> WaitingSince(p, id) == since)
      && (OverdueAt(p, |q|, id) <==>
            !Skips(s, t) && WaitingSince(p, id).Some? && m.now - WaitingSince(p, id).value >= HOLD_MS)
  {
    hide Next, Emits;
    var p := q + [m];
    assert p[..|p| - 1] == q && p[..|q|] == q && p[..|q| + 1] == p;
    SeenIsKnown(q);
  }

  lemma TrackedStep(q: seq<Msg>, m: Msg, id: int)
    requires Tracked(q, id) && (IsLiteOf(m.text, id) ==> WaitingSince(q, id).None? && !Overdue(q, id))
    ensures Tracked(q + [m], id)
  {
    hide Run, Next, Emits, TimesEmitted, TimesAccepted, WaitingSince, Overdue, OverdueAt, HeldFor, Skips;
    Unfolded(q, m, id);
    OverdueSnoc(q, m, id);
    HeldStep(Run(q), m, id, WaitingSince(q, id), Overdue(q, id));
  }

  /**
   The exact count, however many trades there are: a trade is emitted once for every accepted full
   update, and once more if its placeholder was ever overdue.
   */
  lemma {:induction false} EmittedExactly(p: seq<Msg>, id: int)
    requires LitesDistinct(p)
    ensures TimesEmitted(p, id) == TimesAccepted(p, id) + if Overdue(p, id) then 1 else 0
    ensures HeldFor(Run(p), id, WaitingSince(p, id), Overdue(p, id))
  {
    if p == [] {
      assert !Overdue(p, id);
    } else {
      var q, m := p[..|p| - 1], p[|p| - 1];
      assert p == q + [m] && forall i :: 0 <= i < |q| ==> q[i] == p[i];
      EmittedExactly(q, id);
      if IsLiteOf(m.text, id) {
        NoLiteYet(q, id);
      }
      TrackedStep(q, m, id);
    }
  }

  /** A full update of the trade came when a clear had followed the last one accepted. */
  ghost predicate RepeatedAfterClear(p: seq<Msg>, id: int) {
    exists k :: 0 <= k < |p| && IsFullOf(p[k].text, id) && id in FullIds(p[..k]) && ClearedSince(p[..k], id)
  }

  lemma RepeatedSnoc(q: seq<Msg>, m: Msg, id: int)
    ensures RepeatedAfterClear(q + [m], id) <==>
      RepeatedAfterClear(q, id) || (IsFullOf(m.text, id) && id in FullIds(q) && ClearedSince(q, id))
  {
    hide FullIds, ClearedSince;
    var p := q + [m];
    assert p[..|q|] == q && p[|q|] == m;
    forall k | 0 <= k < |q| ensures p[k] == q[k] && p[..k] == q[..k] {
    }
    if RepeatedAfterClear(q, id) {
      var k :| 0 <= k < |q| && IsFullOf(q[k].text, id) && id in FullIds(q[..k]) && ClearedSince(q[..k], id);
      assert IsFullOf(p[k].text, id) && p[..k] == q[..k];
    }
  }

  /** Accepted once for being announced, and again exactly when a clear comes between two full updates. */
  lemma {:induction false} AcceptedAgainIffCleared(p: seq<Msg>, id: int)
    ensures TimesAccepted(p, id) >= 1 <==> id in FullIds(p)
    ensures TimesAccepted(p, id) >= 2 <==> RepeatedAfterClear(p, id)
  {
    if p != [] {
      var q, m := p[..|p| - 1], p[|p| - 1];
      assert p == q + [m];
      AcceptedAgainIffCleared(q, id);
      RepeatedSnoc(q, m, id);
      KnownSnoc(q, m);
      KnownWereAnnounced(q);
      if id in FullIds(q) {
        ForgottenIffCleared(q, id);
      }
      hide AcceptedAt, ClearedSince, RepeatedAfterClear, Known;
    }
  }

  ghost predicate NoRepeats(p: seq<Msg>) {
    forall id :: TimesEmitted(p, id) <= 1
  }

  /** No trade announced in full was overdue as a placeholder, or repeated behind a clear. */
  ghost predicate FullInTime(p: seq<Msg>) {
    forall id :: id in FullIds(p) ==> !Overdue(p, id) && !RepeatedAfterClear(p, id)
  }

  lemma OnceEachIffInTime(p: seq<Msg>)
    requires LitesDistinct(p)
    ensures NoRepeats(p) <==> FullInTime(p)
  {
    hide TimesEmitted, TimesAccepted, Overdue, FullIds, WaitingSince, Run, LitesDistinct, RepeatedAfterClear, HeldFor;
    if NoRepeats(p) {
      forall id | id in FullIds(p) ensures !Overdue(p, id) && !RepeatedAfterClear(p, id) {
        EmittedExactly(p, id);
        AcceptedAgainIffCleared(p, id);
        assert TimesEmitted(p, id) <= 1;
      }
    }
    if FullInTime(p) {
      forall id ensures TimesEmitted(p, id) <= 1 {
        EmittedExactly(p, id);
        AcceptedAgainIffCleared(p, id);
      }
    }
  }

  /** While the announced trades fit there is no clear, and only overdue placeholders repeat. */
  lemma NoClearWhileFits(p: seq<Msg>, id: int)
    requires |FullIds(p)| <= SEEN_LIMIT
    ensures !RepeatedAfterClear(p, id)
  {
    if RepeatedAfterClear(p, id) {
      var k :| 0 <= k < |p| && IsFullOf(p[k].text, id) && id in FullIds(p[..k]) && ClearedSince(p[..k], id);
      FullIdsOfPrefix(p, k);
      SubsetFits(FullIds(p[..k]), FullIds(p));
      NothingForgotten(p[..k]);
      ForgottenIffCleared(p[..k], id);
    }
  }

  lemma {:induction false} FullIdsOfPrefix(p: seq<Msg>, k: nat)
    requires k <= |p|
    ensures FullIds(p[..k]) <= FullIds(p)
  {
    if k == |p| {
      assert p[..k] == p;
    } else {
      assert p[..|p| - 1][..k] == p[..k];
      FullIdsOfPrefix(p[..|p| - 1], k);
    }
  }

  /** A full update that comes after a flush has found its placeholder 1500 ms old is a second emission. */
  lemma LateFullRepeats(exec: Execution)
    ensures TimesEmitted([Msg(Lite(7, exec, 0), 0), Msg(OtherText, 1500), Msg(Full(7, exec), 1500)], 7) == 2
    ensures TimesEmitted([Msg(Lite(7, exec, 0), 0), Msg(OtherText, 1499)], 7) == 0
  {
    var a, b, c := Msg(Lite(7, exec, 0), 0), Msg(OtherText, 1500), Msg(Full(7, exec), 1500);
    RunSnoc([], a);
    RunSnoc([a], b);
    RunSnoc([a, b], c);
    RunSnoc([a], Msg(OtherText, 1499));
    assert [a] + [Msg(OtherText, 1499)] == [a, Msg(OtherText, 1499)];
    assert [] + [a] == [a] && [a] + [b] == [a, b] && [a, b] + [c] == [a, b, c];
    assert Run([a]) == State({}, map[7 := Placeholder(exec, 0)]);
    assert Run([a, b]) == State({}, map[]);
  }

  /** Full updates of the trades 0, 1, ... n - 1. */
  ghost function Fulls(n: nat, exec: Execution): seq<Msg> {
    if n == 0 then [] else Fulls(n - 1, exec) + [Msg(Full(n - 1, exec), 0)]
  }

  lemma {:induction false} FullsRun(n: nat, exec: Execution, id: int)
    requires n <= SEEN_LIMIT && n <= id
    ensures Run(Fulls(n, exec)).pending == map[] && |Run(Fulls(n, exec)).seen| == n
    ensures forall i :: i in Run(Fulls(n, exec)).seen ==> i < n
    ensures TimesEmitted(Fulls(n, exec), id) == 0
  {
    if n > 0 {
      FullsRun(n - 1, exec, id);
      RunSnoc(Fulls(n - 1, exec), Msg(Full(n - 1, exec), 0));
    }
  }

  /** After 8193 different trades the last one is not known: its full update, repeated, is emitted again. */
  lemma OverflowForgets(exec: Execution)
    ensures var p := Fulls(8193, exec);
      && Run(p).seen == {}
      && TimesEmitted(p + [Msg(Full(8192, exec), 0)], 8192) == 2
  {
    var q, m := Fulls(SEEN_LIMIT, exec), Msg(Full(SEEN_LIMIT, exec), 0);
    FullsRun(SEEN_LIMIT, exec, SEEN_LIMIT);
    RunSnoc(q, m);
    RunSnoc(q + [m], m);
    assert Fulls(SEEN_LIMIT + 1, exec) == q + [m];
    assert |Run(q).seen + {SEEN_LIMIT}| == SEEN_LIMIT + 1;
  }

  // ---------------------------------------------------------------- the loop's state

  ghost function TimesSent(out: seq<Emission>, id: int): nat {
    if out == [] then 0 else TimesSent(out[..|out| - 1], id) + if out[|out| - 1].id == id then 1 else 0
  }

  class TradeDedup {
    var seen: set<int>
    var pending: map<int, Placeholder>
    /** What was sent into the channel. */
    var out: seq<Emission>
    /** Every text message so far. */
    ghost var received: seq<Msg>

    ghost predicate Valid()
      reads this
    {
      && Run(received) == State(seen, pending) && seen !! pending.Keys
      && forall id :: TimesSent(out, id) == TimesEmitted(received, id)
    }

    constructor ()
      ensures Valid() && received == [] && out == []
    {
      seen, pending, out, received := {}, map[], [], [];
    }

    /** Emit the placeholders that are old enough, in the map's own order. */
    method Flush(now: int)
      modifies this`pending, this`out
      ensures var ripe := Ripe(old(pending), now);
        && pending == old(pending) - ripe
        && old(out) <= out
        && (forall id :: TimesSent(out, id) == TimesSent(old(out), id) + if id in ripe then 1 else 0)
        && (forall i :: |old(out)| <= i < |out| ==> out[i].id in ripe && out[i].exec == old(pending)[out[i].id].exec)
    {
      var toEmit := Ripe(pending, now);
      while toEmit != {}
        invariant toEmit <= Ripe(old(pending), now)
        invariant pending == old(pending) - (Ripe(old(pending), now) - toEmit)
        invariant old(out) <= out
        invariant forall id :: TimesSent(out, id) == TimesSent(old(out), id)
                                 + if id in Ripe(old(pending), now) - toEmit then 1 else 0
        invariant forall i :: |old(out)| <= i < |out|
                    ==> out[i].id in Ripe(old(pending), now) && out[i].exec == old(pending)[out[i].id].exec
        decreases |toEmit|
      {
        NonEmpty(toEmit);
        var id :| id in toEmit;
        toEmit := toEmit - {id};
        CountSnoc(out, Emission(id, pending[id].exec));
        out := out + [Emission(id, pending[id].exec)];
        pending := pending - {id};
      }
    }

    /** Emits a full update and holds a placeholder back. */
    method Handle(text: Text)
      requires !Skips(State(seen, pending), text)
      modifies this`seen, this`pending, this`out
      ensures State(seen, pending) == Handled(old(State(seen, pending)), text)
      ensures text.Full? ==> out == old(out) + [Emission(text.id, text.exec)]
      ensures !text.Full? ==> out == old(out)
    {
      match text {
        case Full(id, exec) =>
          seen := seen + {id};
          if |seen| > SEEN_LIMIT {
            seen := {};
          }
          pending := pending - {id};
          out := out + [Emission(id, exec)];
        case Lite(id, exec, at) =>
          if id !in pending {
            pending := pending[id := Placeholder(exec, at)];
          }
        case OtherText =>
      }
    }

    /** One text message: skipped, emitted in full or held back; and then the flush runs. */
    method OnText(m: Msg)
      requires Valid()
      modifies this
      ensures Valid() && received == old(received) + [m] && old(out) <= out
      ensures forall i :: |old(out)| <= i < |out| ==> Sent(old(State(seen, pending)), m, out[i])
    {
      hide Run, TimesEmitted, TimesSent, Handled, Ripe;
      ghost var s, sent := State(seen, pending), out;
      RunSnoc(received, m);
      received := received + [m];
      if Skips(State(seen, pending), m.text) {
        return;
      }
      Handle(m.text);
      if m.text.Full? {
        CountSnoc(sent, Emission(m.text.id, m.text.exec));
      }
      Flush(m.now);
      SeenAndPendingDisjoint(received);
    }
  }

  /** Each emission is the message's own full trade, or a placeholder that was ripe at the flush. */
  ghost predicate Sent(s: State, m: Msg, e: Emission) {
    && !Skips(s, m.text)
    && var pending := Handled(s, m.text).pending;
       || (m.text.Full? && e == Emission(m.text.id, m.text.exec))
       || (e.id in Ripe(pending, m.now) && e.exec == pending[e.id].exec)
  }

  lemma NonEmpty(s: set<int>)
    ensures s == {} || exists id :: id in s
  {
    if forall id :: id !in s {
      assert s == {};
    }
  }

  lemma CountSnoc(out: seq<Emission>, e: Emission)
    ensures forall id :: TimesSent(out + [e], id) == TimesSent(out, id) + if id == e.id then 1 else 0
  {
    assert (out + [e])[..|out + [e]| - 1] == out;
  }
}
