/**
 The Snowflake id generator of src/xcommons/monoseq.rs: a packed (millisecond, sequence) word shared
 by all threads and advanced by compare-exchange, under a clock that may run backwards.

 `next` is modelled by its atomic steps - load the word, read the clock, compare-exchange - taken by
 any number of threads in any interleaving; the class runs one call alone, with its waiting loops.
 */
module MonoSeqs {
  import opened Common

  const SEQ_SPAN: nat := 4096          // 12 bits of sequence
  const MACHINE_SPAN: nat := 1024      // 10 bits of machine id
  const TIME_SPAN: nat := 0x200_0000_0000  // 41 bits of milliseconds
  const MAX_SEQ: nat := SEQ_SPAN - 1
  const U64_SPAN: nat := 0x1_0000_0000_0000_0000
  const I64_SPAN: nat := 0x8000_0000_0000_0000

  // ---------- bit layout ----------

  /** `(ms << 12) | seq` in a u64: the shift drops what does not fit. */
  function Pack(ms: nat, seq_: nat): nat
    requires seq_ < SEQ_SPAN
  {
    (ms * SEQ_SPAN) % U64_SPAN + seq_
  }

  function MsOf(word: nat): nat { word / SEQ_SPAN }

  function SeqOf(word: nat): (r: nat)
    ensures r < SEQ_SPAN
  {
    word % SEQ_SPAN
  }

  /** `(ms << 22) | (machine << 12) | seq` in a u64, cast to i64. */
  function ComposeId(ms: nat, machine: nat, seq_: nat): int
    requires machine < MACHINE_SPAN && seq_ < SEQ_SPAN
  {
    var bits := (ms * (MACHINE_SPAN * SEQ_SPAN)) % U64_SPAN + machine * SEQ_SPAN + seq_;
    if bits < I64_SPAN then bits else bits - U64_SPAN
  }

  /** The three fields of an id. */
  function DecodeId(id: nat): (nat, nat, nat) {
    (id / (MACHINE_SPAN * SEQ_SPAN), (id / SEQ_SPAN) % MACHINE_SPAN, id % SEQ_SPAN)
  }

  /** In this layout "or" is addition, because the fields do not overlap. */
  lemma OrIsAddition(ms: bv64, machine: bv64, s: bv64)
    requires machine < 1024 && s < 4096
    ensures (ms << 12) | s == (ms << 12) + s
    ensures (ms << 22) | (machine << 12) | s == (ms << 22) + (machine << 12) + s
  {
  }

  lemma PackFits(ms: nat, s: nat)
    requires ms < TIME_SPAN && s < SEQ_SPAN
    ensures Pack(ms, s) == ms * SEQ_SPAN + s && MsOf(Pack(ms, s)) == ms && SeqOf(Pack(ms, s)) == s
  {
    assert ms * SEQ_SPAN < U64_SPAN;
  }

  /** While milliseconds stay below 2^41 an id is non-negative and decodes to its three fields. */
  lemma IdDecodes(ms: nat, machine: nat, s: nat)
    requires ms < TIME_SPAN && machine < MACHINE_SPAN && s < SEQ_SPAN
    ensures ComposeId(ms, machine, s) >= 0
    ensures DecodeId(ComposeId(ms, machine, s)) == (ms, machine, s)
    ensures ComposeId(ms, machine, s) == (ms * 1024 + machine) * 4096 + s
  {
    assert ms * (MACHINE_SPAN * SEQ_SPAN) < U64_SPAN;
    var upper := ms * MACHINE_SPAN + machine;
    var id := upper * SEQ_SPAN + s;
    assert id / SEQ_SPAN == upper && id % SEQ_SPAN == s;
    assert upper / MACHINE_SPAN == ms && upper % MACHINE_SPAN == machine;
    assert id / (MACHINE_SPAN * SEQ_SPAN) == ms;
  }

  /** The 41-bit bound is exact: the first millisecond beyond it yields a negative id. */
  lemma IdTurnsNegative(machine: nat, s: nat)
    requires machine < MACHINE_SPAN && s < SEQ_SPAN
    ensures ComposeId(0x200_0000_0000, machine, s) < 0
  {
  }

  // ---------- interleaved calls ----------

  /** Where a call to `next` stands. */
  datatype Phase =
    | Idle
    | Retrying
    | Loaded(prev: nat)
    | WaitingBack(prev: nat)
    | WaitingTick(prev: nat)
    | Ready(prev: nat, ms: nat, seq_: nat)

  /** A thread: the phase of its call and the clock readings made in that call. */
  datatype Caller = Caller(phase: Phase, readings: set<nat>)

  datatype Issue = Issue(thread: nat, ms: nat, seq_: nat, id: int, readings: set<nat>)

  datatype State = State(last: nat, callers: map<nat, Caller>, issued: seq<Issue>)

  datatype Action = Load | Read(now: nat) | CompareExchange(spurious: bool)

  datatype Step = Step(thread: nat, action: Action)

  const INITIAL: State := State(0, map[], [])

  function CallerOf(s: State, t: nat): Caller {
    if t in s.callers then s.callers[t] else Caller(Idle, {})
  }

  /** What follows once the clock is not behind the loaded word. */
  function Decide(prev: nat, now: nat): Phase {
    if now == MsOf(prev) then
      if SeqOf(prev) < MAX_SEQ then Ready(prev, now, SeqOf(prev) + 1) else WaitingTick(prev)
    else Ready(prev, now, 0)
  }

  function AfterRead(p: Phase, now: nat): Option<Phase> {
    match p
    case Loaded(prev) => Some(if now < MsOf(prev) then WaitingBack(prev) else Decide(prev, now))
    case WaitingBack(prev) => Some(if now < MsOf(prev) then p else Decide(prev, now))
    case WaitingTick(prev) => Some(if now < MsOf(prev) + 1 then p else Ready(prev, now, 0))
    case _ => None
  }

  /** One atomic step of one thread; None when the thread is not at such a step. */
  function Next(machine: nat, s: State, st: Step): Option<State>
    requires machine < MACHINE_SPAN
  {
    var c := CallerOf(s, st.thread);
    match st.action
    case Load =>
      if c.phase.Idle? || c.phase.Retrying? then
        Some(s.(callers := s.callers[st.thread := Caller(Loaded(s.last), c.readings)]))
      else None
    case Read(now) =>
      (match AfterRead(c.phase, now)
       case None => None
       case Some(p) => Some(s.(callers := s.callers[st.thread := Caller(p, c.readings + {now})])))
    case CompareExchange(spurious) =>
      if !c.phase.Ready? || c.phase.seq_ >= SEQ_SPAN then None
      else if s.last == c.phase.prev && !spurious then
        var id := ComposeId(c.phase.ms, machine, c.phase.seq_);
        var issue := Issue(st.thread, c.phase.ms, c.phase.seq_, id, c.readings);
        Some(State(Pack(c.phase.ms, c.phase.seq_), s.callers[st.thread := Caller(Idle, {})], s.issued + [issue]))
      else Some(s.(callers := s.callers[st.thread := c.(phase := Retrying)]))
  }

  function Run(machine: nat, steps: seq<Step>): Option<State>
    requires machine < MACHINE_SPAN
  {
    if steps == [] then Some(INITIAL)
    else
      var before := Run(machine, steps[..|steps| - 1]);
      if before.None? then None else Next(machine, before.value, steps[|steps| - 1])
  }

  /** The clock may jump either way but stays below 2^41 milliseconds. */
  predicate ClockInRange(steps: seq<Step>) {
    forall i :: 0 <= i < |steps| && steps[i].action.Read? ==> steps[i].action.now < TIME_SPAN
  }

  function Word(i: Issue): nat { i.ms * SEQ_SPAN + i.seq_ }

  predicate GoodIssue(machine: nat, i: Issue)
    requires machine < MACHINE_SPAN
  {
    i.ms < TIME_SPAN && i.seq_ < SEQ_SPAN && i.ms in i.readings && i.id == ComposeId(i.ms, machine, i.seq_)
  }

  /** What a caller knows at each phase; a Ready caller always moves the word strictly up. */
  predicate GoodCaller(c: Caller) {
    match c.phase
    case Idle => true
    case Retrying => true
    case Loaded(prev) => MsOf(prev) < TIME_SPAN
    case WaitingBack(prev) => MsOf(prev) < TIME_SPAN
    case WaitingTick(prev) => MsOf(prev) < TIME_SPAN && SeqOf(prev) == MAX_SEQ
    case Ready(prev, ms, s) => ms < TIME_SPAN && s < SEQ_SPAN && prev < ms * SEQ_SPAN + s && ms in c.readings
  }

  predicate Inv(machine: nat, s: State)
    requires machine < MACHINE_SPAN
  {
    && MsOf(s.last) < TIME_SPAN
    && (forall t :: t in s.callers ==> GoodCaller(s.callers[t]))
    && (forall i :: 0 <= i < |s.issued| ==> GoodIssue(machine, s.issued[i]) && Word(s.issued[i]) <= s.last)
    && (forall i, j :: 0 <= i < j < |s.issued| ==> Word(s.issued[i]) < Word(s.issued[j]))
  }

  lemma ReadKeepsCaller(c: Caller, now: nat)
    requires GoodCaller(c) && now < TIME_SPAN && AfterRead(c.phase, now).Some?
    ensures GoodCaller(Caller(AfterRead(c.phase, now).value, c.readings + {now}))
  {
    var prev := c.phase.prev;
    assert prev == MsOf(prev) * SEQ_SPAN + SeqOf(prev);
    if now > MsOf(prev) { assert now * SEQ_SPAN >= (MsOf(prev) + 1) * SEQ_SPAN; }
  }

  lemma StepKeepsInv(machine: nat, s: State, st: Step)
    requires machine < MACHINE_SPAN && Inv(machine, s) && Next(machine, s, st).Some?
    requires st.action.Read? ==> st.action.now < TIME_SPAN
    ensures Inv(machine, Next(machine, s, st).value)
  {
    var c := CallerOf(s, st.thread);
    match st.action
    case Load =>
    case Read(now) => ReadKeepsCaller(c, now);
    case CompareExchange(spurious) =>
      if s.last == c.phase.prev && !spurious { PackFits(c.phase.ms, c.phase.seq_); }
  }

  lemma {:induction false} RunKeepsInv(machine: nat, steps: seq<Step>)
    requires machine < MACHINE_SPAN && ClockInRange(steps) && Run(machine, steps).Some?
    ensures Inv(machine, Run(machine, steps).value)
  {
    if steps != [] {
      var prev := steps[..|steps| - 1];
      RunKeepsInv(machine, prev);
      StepKeepsInv(machine, Run(machine, prev).value, steps[|steps| - 1]);
    }
  }

  /** Every id issued under any interleaving is non-negative, decodes to its fields and carries a
      millisecond that was read from the clock in that very call. */
  lemma IssuedIdDecodes(machine: nat, steps: seq<Step>, i: nat)
    requires machine < MACHINE_SPAN && ClockInRange(steps) && Run(machine, steps).Some?
    requires i < |Run(machine, steps).value.issued|
    ensures var issue := Run(machine, steps).value.issued[i];
      && issue.id >= 0 && issue.ms in issue.readings
      && DecodeId(issue.id) == (issue.ms, machine, issue.seq_)
  {
    RunKeepsInv(machine, steps);
    var issue := Run(machine, steps).value.issued[i];
    IdDecodes(issue.ms, machine, issue.seq_);
  }

  /** Under every interleaving of any number of threads, and whatever the clock does below 2^41:
      ids strictly increase in the order of their compare-exchanges, so they are unique. */
  lemma IdsStrictlyIncrease(machine: nat, steps: seq<Step>, i: nat, j: nat)
    requires machine < MACHINE_SPAN && ClockInRange(steps) && Run(machine, steps).Some?
    requires i < j < |Run(machine, steps).value.issued|
    ensures var ids := Run(machine, steps).value.issued; 0 <= ids[i].id < ids[j].id
  {
    RunKeepsInv(machine, steps);
    var ids := Run(machine, steps).value.issued;
    var a, b := ids[i], ids[j];
    IdDecodes(a.ms, machine, a.seq_);
    IdDecodes(b.ms, machine, b.seq_);
    assert Word(a) < Word(b);
    if a.ms < b.ms { assert a.ms * MACHINE_SPAN + machine < b.ms * MACHINE_SPAN + machine; }
  }

  lemma {:induction false} WordsSpread(machine: nat, s: State, i: nat, j: nat)
    requires machine < MACHINE_SPAN && Inv(machine, s) && i <= j < |s.issued|
    ensures Word(s.issued[j]) >= Word(s.issued[i]) + (j - i)
    decreases j - i
  {
    if i < j { WordsSpread(machine, s, i, j - 1); }
  }

  /** At most 4096 ids ever share a millisecond. */
  lemma MillisecondHolds4096(machine: nat, steps: seq<Step>, i: nat, j: nat)
    requires machine < MACHINE_SPAN && ClockInRange(steps) && Run(machine, steps).Some?
    requires i <= j < |Run(machine, steps).value.issued|
    requires Run(machine, steps).value.issued[i].ms == Run(machine, steps).value.issued[j].ms
    ensures j - i < 4096
  {
    RunKeepsInv(machine, steps);
    WordsSpread(machine, Run(machine, steps).value, i, j);
  }

  /** Generators with different machine ids never issue the same id. */
  lemma MachinesNeverCollide(m1: nat, steps1: seq<Step>, i: nat, m2: nat, steps2: seq<Step>, j: nat)
    requires m1 < MACHINE_SPAN && m2 < MACHINE_SPAN && m1 != m2
    requires ClockInRange(steps1) && Run(m1, steps1).Some? && i < |Run(m1, steps1).value.issued|
    requires ClockInRange(steps2) && Run(m2, steps2).Some? && j < |Run(m2, steps2).value.issued|
    ensures Run(m1, steps1).value.issued[i].id != Run(m2, steps2).value.issued[j].id
  {
    RunKeepsInv(m1, steps1);
    RunKeepsInv(m2, steps2);
    var a, b := Run(m1, steps1).value.issued[i], Run(m2, steps2).value.issued[j];
    IdDecodes(a.ms, m1, a.seq_);
    IdDecodes(b.ms, m2, b.seq_);
  }

  // ---------- which number is taken ----------

  /** The first word of a millisecond above the word that was loaded. */
  predicate TakesFirst(prev: nat, ms: nat, seq_: nat) {
    prev < ms * SEQ_SPAN + seq_ && (seq_ == 0 || prev == ms * SEQ_SPAN + seq_ - 1)
  }

  /** A millisecond with a word above this one. */
  predicate HasRoom(prev: nat, ms: nat) {
    prev < ms * SEQ_SPAN + MAX_SEQ
  }

  lemma WordParts(word: nat)
    ensures word == MsOf(word) * SEQ_SPAN + SeqOf(word)
  {
  }

  lemma LaterMillisecond(word: nat, ms: nat)
    ensures ms > MsOf(word) ==> word < ms * SEQ_SPAN
    ensures ms < MsOf(word) ==> ms * SEQ_SPAN + MAX_SEQ < word
    ensures ms == MsOf(word) ==> word == ms * SEQ_SPAN + SeqOf(word)
  {
    if ms > MsOf(word) { assert ms * SEQ_SPAN >= (MsOf(word) + 1) * SEQ_SPAN; }
    if ms < MsOf(word) { assert (ms + 1) * SEQ_SPAN <= MsOf(word) * SEQ_SPAN; }
  }

  /** A reading makes a call ready exactly when its millisecond has room, and then the first free word of
      that millisecond is taken. */
  lemma ReadTakesFirst(c: Caller, now: nat)
    requires GoodCaller(c) && AfterRead(c.phase, now).Some?
    ensures var p := AfterRead(c.phase, now).value;
      && p.prev == c.phase.prev
      && (p.Ready? <==> HasRoom(p.prev, now))
      && (p.Ready? ==> p.ms == now && p.seq_ < SEQ_SPAN && TakesFirst(p.prev, now, p.seq_))
      && (!p.Ready? ==> p.WaitingBack? || p.WaitingTick?)
      && (p.WaitingBack? ==> now < MsOf(p.prev))
  {
    LaterMillisecond(c.phase.prev, now);
  }

  function WordBefore(issued: seq<Issue>, k: nat): nat
    requires k <= |issued|
  {
    if k == 0 then 0 else Word(issued[k - 1])
  }

  /** Each issue took the first free word of its millisecond above the issue before. */
  predicate Chained(issued: seq<Issue>) {
    forall k :: 0 <= k < |issued| ==> TakesFirst(WordBefore(issued, k), issued[k].ms, issued[k].seq_)
  }

  predicate HasLoaded(p: Phase) { !p.Idle? && !p.Retrying? }

  ghost predicate WasWord(issued: seq<Issue>, word: nat) {
    exists k :: 0 <= k <= |issued| && WordBefore(issued, k) == word
  }

  ghost predicate Orderly(s: State) {
    && s.last == WordBefore(s.issued, |s.issued|) && Chained(s.issued)
    && (forall t :: t in s.callers && HasLoaded(s.callers[t].phase) ==> WasWord(s.issued, s.callers[t].phase.prev))
    && (forall t :: t in s.callers && s.callers[t].phase.Ready? ==>
          var p := s.callers[t].phase; TakesFirst(p.prev, p.ms, p.seq_))
  }

  lemma StaysWord(issued: seq<Issue>, issue: Issue, word: nat)
    requires WasWord(issued, word)
    ensures WasWord(issued + [issue], word)
  {
    var k :| 0 <= k <= |issued| && WordBefore(issued, k) == word;
    assert WordBefore(issued + [issue], k) == word;
  }

  lemma ChainedSnoc(issued: seq<Issue>, issue: Issue)
    requires Chained(issued) && TakesFirst(WordBefore(issued, |issued|), issue.ms, issue.seq_)
    ensures Chained(issued + [issue]) && WordBefore(issued + [issue], |issued| + 1) == Word(issue)
  {
    hide TakesFirst, Word;
    forall k | 0 <= k < |issued| + 1
      ensures var r := issued + [issue]; TakesFirst(WordBefore(r, k), r[k].ms, r[k].seq_)
    {
      assert WordBefore(issued + [issue], k) == WordBefore(issued, k);
    }
  }

  lemma ExchangeKeepsOrder(machine: nat, s: State, t: nat)
    requires machine < MACHINE_SPAN && Inv(machine, s) && Orderly(s)
    requires CallerOf(s, t).phase.Ready? && s.last == CallerOf(s, t).phase.prev
    ensures var c := CallerOf(s, t);
      c.phase.seq_ < SEQ_SPAN && Orderly(Next(machine, s, Step(t, CompareExchange(false))).value)
  {
    hide TakesFirst;
    var c := CallerOf(s, t);
    var n := Next(machine, s, Step(t, CompareExchange(false))).value;
    var issue := n.issued[|s.issued|];
    assert n.issued == s.issued + [issue];
    PackFits(c.phase.ms, c.phase.seq_);
    ChainedSnoc(s.issued, issue);
    forall u | u in n.callers && HasLoaded(n.callers[u].phase) ensures WasWord(n.issued, n.callers[u].phase.prev) {
      StaysWord(s.issued, issue, s.callers[u].phase.prev);
    }
  }

  lemma StepKeepsOrder(machine: nat, s: State, st: Step)
    requires machine < MACHINE_SPAN && Inv(machine, s) && Orderly(s) && Next(machine, s, st).Some?
    ensures Orderly(Next(machine, s, st).value)
  {
    hide TakesFirst;
    var c := CallerOf(s, st.thread);
    match st.action
    case Load => assert WordBefore(s.issued, |s.issued|) == s.last;
    case Read(now) => ReadTakesFirst(c, now);
    case CompareExchange(spurious) =>
      if s.last == c.phase.prev && !spurious { ExchangeKeepsOrder(machine, s, st.thread); }
  }

  lemma {:induction false} RunKeepsOrder(machine: nat, steps: seq<Step>)
    requires machine < MACHINE_SPAN && ClockInRange(steps) && Run(machine, steps).Some?
    ensures Orderly(Run(machine, steps).value)
  {
    if steps != [] {
      var prev := steps[..|steps| - 1];
      RunKeepsInv(machine, prev);
      RunKeepsOrder(machine, prev);
      StepKeepsOrder(machine, Run(machine, prev).value, steps[|steps| - 1]);
    }
  }

  /** Under every interleaving the issues of one millisecond are numbered consecutively from 0, those of
      millisecond 0 from 1. */
  lemma SequenceIsConsecutive(machine: nat, steps: seq<Step>, k: nat)
    requires machine < MACHINE_SPAN && ClockInRange(steps) && Run(machine, steps).Some?
    requires k < |Run(machine, steps).value.issued|
    ensures var ids := Run(machine, steps).value.issued;
      && (k == 0 ==> ids[0].seq_ == if ids[0].ms == 0 then 1 else 0)
      && (k > 0 && ids[k].ms == ids[k - 1].ms ==> ids[k].seq_ == ids[k - 1].seq_ + 1)
      && (k > 0 && ids[k].ms != ids[k - 1].ms ==> ids[k].ms > ids[k - 1].ms && ids[k].seq_ == 0)
  {
    RunKeepsInv(machine, steps);
    RunKeepsOrder(machine, steps);
    var ids := Run(machine, steps).value.issued;
    assert TakesFirst(WordBefore(ids, k), ids[k].ms, ids[k].seq_);
    if k > 0 { assert Word(ids[k - 1]) < Word(ids[k]); }
  }

  lemma WordFields(i: Issue)
    requires i.seq_ < SEQ_SPAN
    ensures MsOf(Word(i)) == i.ms && SeqOf(Word(i)) == i.seq_ && MsOf(0) == 0 == SeqOf(0)
  {
  }

  lemma TakenFrom(prev: nat, ms: nat, seq_: nat)
    requires TakesFirst(prev, ms, seq_) && 0 < seq_ < SEQ_SPAN
    ensures MsOf(prev) == ms && SeqOf(prev) == seq_ - 1
  {
  }

  /** Below a number of a chain every smaller number of its millisecond was issued before it. */
  lemma {:induction false} IssuedBelow(issued: seq<Issue>, k: nat, q: nat) returns (j: nat)
    requires Chained(issued) && k < |issued| && q <= issued[k].seq_ && (q > 0 || issued[k].ms > 0)
    requires forall i :: 0 <= i < |issued| ==> issued[i].seq_ < SEQ_SPAN
    ensures j <= k && issued[j].ms == issued[k].ms && issued[j].seq_ == q
  {
    hide TakesFirst, Word, MsOf, SeqOf;
    if q == issued[k].seq_ {
      j := k;
    } else {
      TakenFrom(WordBefore(issued, k), issued[k].ms, issued[k].seq_);
      WordFields(issued[if k == 0 then 0 else k - 1]);
      j := IssuedBelow(issued, k - 1, q);
    }
  }

  /** A call waits for the next millisecond only when every number of the one it loaded has been issued. */
  lemma WaitsOnlyWhenFull(machine: nat, steps: seq<Step>, t: nat, q: nat) returns (j: nat)
    requires machine < MACHINE_SPAN && ClockInRange(steps) && Run(machine, steps).Some?
    requires CallerOf(Run(machine, steps).value, t).phase.WaitingTick? && q < SEQ_SPAN
    requires q > 0 || MsOf(CallerOf(Run(machine, steps).value, t).phase.prev) > 0
    ensures var s := Run(machine, steps).value;
      j < |s.issued| && s.issued[j].ms == MsOf(CallerOf(s, t).phase.prev) && s.issued[j].seq_ == q
  {
    hide Run, CallerOf, Inv, Orderly, MsOf;
    RunKeepsInv(machine, steps);
    RunKeepsOrder(machine, steps);
    var k := LoadedWordWasIssued(machine, Run(machine, steps).value, t);
    j := IssuedBelow(Run(machine, steps).value.issued, k, q);
  }

  lemma LoadedWordWasIssued(machine: nat, s: State, t: nat) returns (k: nat)
    requires machine < MACHINE_SPAN && Inv(machine, s) && Orderly(s) && CallerOf(s, t).phase.WaitingTick?
    ensures Chained(s.issued) && forall i :: 0 <= i < |s.issued| ==> s.issued[i].seq_ < SEQ_SPAN
    ensures k < |s.issued| && s.issued[k].seq_ == MAX_SEQ && s.issued[k].ms == MsOf(CallerOf(s, t).phase.prev)
  {
    hide Word, MsOf, SeqOf, ComposeId, Chained;
    assert WasWord(s.issued, CallerOf(s, t).phase.prev);
    var n :| 0 <= n <= |s.issued| && WordBefore(s.issued, n) == CallerOf(s, t).phase.prev;
    WordFields(if n == 0 then Issue(0, 0, 0, 0, {}) else s.issued[n - 1]);
    k := n - 1;
  }

  /** In a run, a clock reading lets its call go on exactly when the millisecond read has a free number,
      and the call then takes the first one. */
  lemma ReadingTakesFirst(machine: nat, steps: seq<Step>, t: nat, now: nat)
    requires machine < MACHINE_SPAN && ClockInRange(steps) && now < TIME_SPAN
    requires Run(machine, steps + [Step(t, Read(now))]).Some?
    ensures var p := CallerOf(Run(machine, steps + [Step(t, Read(now))]).value, t).phase;
      && HasLoaded(p) && (p.Ready? <==> HasRoom(p.prev, now))
      && (p.Ready? ==> p.ms == now && TakesFirst(p.prev, now, p.seq_))
  {
    assert (steps + [Step(t, Read(now))])[..|steps|] == steps;
    RunKeepsInv(machine, steps);
    ReadTakesFirst(CallerOf(Run(machine, steps).value, t), now);
  }

  /** No call is ever stuck: it can load until it has a word, read the clock until it is ready, and then
      exchange. */
  lemma NeverStuck(machine: nat, s: State, t: nat, now: nat, spurious: bool)
    requires machine < MACHINE_SPAN && Inv(machine, s)
    ensures var p := CallerOf(s, t).phase;
      && (Next(machine, s, Step(t, Load)).Some? <==> !HasLoaded(p))
      && (Next(machine, s, Step(t, Read(now))).Some? <==> HasLoaded(p) && !p.Ready?)
      && (Next(machine, s, Step(t, CompareExchange(spurious))).Some? <==> p.Ready?)
  {
  }

  /** No id was issued above this word. */
  predicate Newest(issued: seq<Issue>, word: nat) {
    forall k :: 0 <= k < |issued| ==> Word(issued[k]) <= word
  }

  lemma NewestIsLast(machine: nat, s: State, word: nat)
    requires machine < MACHINE_SPAN && Inv(machine, s) && Orderly(s) && WasWord(s.issued, word)
    ensures word <= s.last && (Newest(s.issued, word) <==> word == s.last)
  {
    var k :| 0 <= k <= |s.issued| && WordBefore(s.issued, k) == word;
    hide Word;
    if k < |s.issued| && k > 0 {
      assert Word(s.issued[k - 1]) < Word(s.issued[k]) <= s.last;
    }
    if k == 0 && s.issued != [] {
      FirstIsAboveZero(s.issued);
    }
  }

  lemma FirstIsAboveZero(issued: seq<Issue>)
    requires Chained(issued) && issued != []
    ensures Word(issued[0]) > 0
  {
    assert TakesFirst(WordBefore(issued, 0), issued[0].ms, issued[0].seq_);
  }

  /** A call loads the newest word. And its exchange issues its number exactly when it does not fail
      spuriously and nothing was issued above the loaded word: a call is only ever held up by another's
      success. */
  lemma ExchangeIssuesUnlessOvertaken(machine: nat, steps: seq<Step>, t: nat, spurious: bool)
    requires machine < MACHINE_SPAN && ClockInRange(steps)
    requires Run(machine, steps + [Step(t, CompareExchange(spurious))]).Some?
    ensures Run(machine, steps).Some?
    ensures var s, n := Run(machine, steps).value, Run(machine, steps + [Step(t, CompareExchange(spurious))]).value;
      var c := CallerOf(s, t);
      && c.phase.Ready?
      && (if !spurious && Newest(s.issued, c.phase.prev)
          then |n.issued| == |s.issued| + 1 && n.issued[..|s.issued|] == s.issued
               && var i := n.issued[|s.issued|]; i.thread == t && i.ms == c.phase.ms && i.seq_ == c.phase.seq_
          else n.issued == s.issued && CallerOf(n, t).phase.Retrying?)
  {
    hide Word, ComposeId, TakesFirst;
    assert (steps + [Step(t, CompareExchange(spurious))])[..|steps|] == steps;
    RunKeepsInv(machine, steps);
    RunKeepsOrder(machine, steps);
    var s := Run(machine, steps).value;
    NewestIsLast(machine, s, CallerOf(s, t).phase.prev);
  }

  lemma LoadsNewest(machine: nat, steps: seq<Step>, t: nat)
    requires machine < MACHINE_SPAN && ClockInRange(steps) && Run(machine, steps + [Step(t, Load)]).Some?
    ensures var n := Run(machine, steps + [Step(t, Load)]).value;
      && CallerOf(n, t).phase.Loaded? && WasWord(n.issued, CallerOf(n, t).phase.prev)
      && Newest(n.issued, CallerOf(n, t).phase.prev)
  {
    hide Word, ComposeId, TakesFirst;
    assert (steps + [Step(t, Load)])[..|steps|] == steps;
    RunKeepsInv(machine, steps);
    RunKeepsOrder(machine, steps);
    var s := Run(machine, steps).value;
    assert WordBefore(s.issued, |s.issued|) == s.last;
  }

  // ---------- one call alone ----------

  /** The phase an attempt is in after the clock readings from k on, until it is ready. */
  function Settled(p: Phase, clock: seq<nat>, k: nat): (q: Phase)
    requires p.Loaded? || p.WaitingBack? || p.WaitingTick? || p.Ready?
    requires k <= |clock|
    ensures (q.Loaded? || q.WaitingBack? || q.WaitingTick? || q.Ready?) && q.prev == p.prev
    decreases |clock| - k
  {
    if k == |clock| || p.Ready? then p else Settled(AfterRead(p, clock[k]).value, clock, k + 1)
  }

  /** Readings short of the awaited millisecond change nothing. */
  lemma {:induction false} KeepsWaiting(p: Phase, clock: seq<nat>, from: nat, at: nat)
    requires p.WaitingBack? || p.WaitingTick?
    requires from <= at <= |clock|
    requires forall k :: from <= k < at ==> clock[k] < MsOf(p.prev) + if p.WaitingTick? then 1 else 0
    ensures Settled(p, clock, from) == Settled(p, clock, at)
    decreases at - from
  {
    if from < at { KeepsWaiting(p, clock, from + 1, at); }
  }

  lemma {:induction false} SettledIsGood(p: Phase, clock: seq<nat>, k: nat, readings: set<nat>)
    requires p.Loaded? || p.WaitingBack? || p.WaitingTick? || p.Ready?
    requires k <= |clock| && GoodCaller(Caller(p, readings))
    requires forall i :: 0 <= i < |clock| ==> clock[i] < TIME_SPAN
    ensures var q := Settled(p, clock, k);
      && (q.Ready? ==> q.ms < TIME_SPAN && q.seq_ < SEQ_SPAN && q.prev < q.ms * SEQ_SPAN + q.seq_)
      && (q.Ready? ==> q.ms in readings || q.ms in clock)
    decreases |clock| - k
  {
    if k < |clock| && !p.Ready? {
      ReadKeepsCaller(Caller(p, readings), clock[k]);
      SettledIsGood(AfterRead(p, clock[k]).value, clock, k + 1, readings + {clock[k]});
    }
  }

  /** The first reading whose millisecond has room above the word. */
  predicate FirstWithRoom(clock: seq<nat>, prev: nat, at: nat) {
    at < |clock| && HasRoom(prev, clock[at]) && forall i :: 0 <= i < at ==> !HasRoom(prev, clock[i])
  }

  /** Alone, a call takes the first free word at the first reading that has one. */
  lemma {:induction false} SettlesAtFirstRoom(p: Phase, clock: seq<nat>, k: nat)
    requires HasLoaded(p) && !p.Ready? && k <= |clock| && GoodCaller(Caller(p, {}))
    requires forall i :: 0 <= i < |clock| ==> clock[i] < TIME_SPAN
    requires forall i :: 0 <= i < k ==> !HasRoom(p.prev, clock[i])
    ensures var q := Settled(p, clock, k);
      && (q.Ready? ==> exists at: nat :: FirstWithRoom(clock, p.prev, at) && q.ms == clock[at])
      && (q.Ready? ==> TakesFirst(p.prev, q.ms, q.seq_))
      && (!q.Ready? ==> forall i :: 0 <= i < |clock| ==> !HasRoom(p.prev, clock[i]))
    decreases |clock| - k
  {
    if k < |clock| {
      ReadKeepsCaller(Caller(p, {}), clock[k]);
      ReadTakesFirst(Caller(p, {}), clock[k]);
      hide HasRoom, TakesFirst;
      var next := AfterRead(p, clock[k]).value;
      if next.Ready? {
        assert FirstWithRoom(clock, p.prev, k);
        assert Settled(next, clock, k + 1) == next;
      } else {
        GoodWithout(next, {clock[k]});
        SettlesAtFirstRoom(next, clock, k + 1);
      }
    }
  }

  lemma GoodWithout(p: Phase, readings: set<nat>)
    requires GoodCaller(Caller(p, {} + readings)) && !p.Ready?
    ensures GoodCaller(Caller(p, {}))
  {
  }

  /** The position of the first reading, from `from` on, that reaches the target. */
  predicate FirstReaching(clock: seq<nat>, from: nat, target: nat, at: nat) {
    from <= at < |clock| && clock[at] >= target && forall k :: from <= k < at ==> clock[k] < target
  }

  class MonoSeq {
    const machineId: nat
    var lastState: nat

    constructor (machineId: nat)
      requires machineId < MACHINE_SPAN
      ensures this.machineId == machineId && lastState == 0
    {
      this.machineId, lastState := machineId, 0;
    }

    /** Reads the clock until it reaches the target; None if these readings never do. */
    static method WaitUntilAtLeast(clock: seq<nat>, from: nat, target: nat) returns (at: Option<nat>)
      requires from <= |clock|
      ensures at.Some? ==> FirstReaching(clock, from, target, at.value)
      ensures at.None? ==> forall k :: from <= k < |clock| ==> clock[k] < target
    {
      var k := from;
      while k < |clock|
        invariant from <= k <= |clock|
        invariant forall i :: from <= i < k ==> clock[i] < target
      {
        if clock[k] >= target {
          return Some(k);
        }
        k := k + 1;
      }
      return None;
    }

    /** One attempt of `next` on a loaded word: what its clock readings make it, waits included. */
    static method Attempt(prev: nat, clock: seq<nat>) returns (p: Phase)
      requires clock != []
      ensures p == Settled(Loaded(prev), clock, 0)
    {
      var at := 0;
      if clock[0] < MsOf(prev) {
        var reached := WaitUntilAtLeast(clock, 1, MsOf(prev));
        KeepsWaiting(WaitingBack(prev), clock, 1, reached.GetOr(|clock|));
        if reached.None? {
          return WaitingBack(prev);
        }
        at := reached.value;
      }
      if clock[at] == MsOf(prev) {
        if SeqOf(prev) < MAX_SEQ {
          return Ready(prev, clock[at], SeqOf(prev) + 1);
        }
        var tick := WaitUntilAtLeast(clock, at + 1, MsOf(prev) + 1);
        KeepsWaiting(WaitingTick(prev), clock, at + 1, tick.GetOr(|clock|));
        if tick.None? {
          return WaitingTick(prev);
        }
        return Ready(prev, clock[tick.value], 0);
      }
      return Ready(prev, clock[at], 0);
    }

    /** One uncontended call of `next` over the readings its clock gives; None while it still waits.
        It takes the phases of the interleaved model, so its id is one the model would issue. */
    method NextId(clock: seq<nat>) returns (id: Option<int>)
      requires machineId < MACHINE_SPAN && clock != [] && MsOf(lastState) < TIME_SPAN
      requires forall k :: 0 <= k < |clock| ==> clock[k] < TIME_SPAN
      modifies this`lastState
      ensures var p := Settled(Loaded(old(lastState)), clock, 0);
        && (id.Some? <==> p.Ready?)
        && (id.None? ==> lastState == old(lastState))
        && (p.Ready? ==>
              && p.seq_ < SEQ_SPAN && p.ms in clock
              && lastState == Pack(p.ms, p.seq_) && old(lastState) < lastState
              && id == Some(ComposeId(p.ms, machineId, p.seq_)))
      ensures id.None? ==> forall k :: 0 <= k < |clock| ==> !HasRoom(old(lastState), clock[k])
      ensures id.Some? ==>
        && (exists at: nat :: FirstWithRoom(clock, old(lastState), at) && MsOf(lastState) == clock[at])
        && TakesFirst(old(lastState), MsOf(lastState), SeqOf(lastState))
    {
      var p := Attempt(lastState, clock);
      SettlesAtFirstRoom(Loaded(lastState), clock, 0);
      SettledIsGood(Loaded(lastState), clock, 0, {});
      if !p.Ready? {
        return None;
      }
      PackFits(p.ms, p.seq_);
      lastState := Pack(p.ms, p.seq_);
      return Some(ComposeId(p.ms, machineId, p.seq_));
    }
  }
}
