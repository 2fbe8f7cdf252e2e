/**
 What a race between connections comes to: the arrivals, in the order the arbiter receives them, and
 which of them a deduper lets through. The answer is compared with the ideal one, in which every key
 gets through exactly once, at its first arrival.
 */
module Arrivals {
  import opened Dedupers

  /** One candidate for forwarding: its dedup key, the connection it came from, the time, the payload. */
  datatype Arrival<K, D> = Arrival(key: K, conn: nat, at: int, body: D)

  ghost function Entries<K, D>(s: seq<Arrival<K, D>>): (q: seq<Entry<K>>)
    ensures |q| == |s|
  {
    seq(|s|, i requires 0 <= i < |s| => Entry(s[i].key, s[i].at))
  }

  ghost function Bodies<K, D>(s: seq<Arrival<K, D>>): seq<D> {
    seq(|s|, i requires 0 <= i < |s| => s[i].body)
  }

  ghost predicate Arrived<K, D>(s: seq<Arrival<K, D>>, key: K) {
    exists i :: 0 <= i < |s| && s[i].key == key
  }

  ghost predicate Distinct<K, D>(s: seq<Arrival<K, D>>) {
    forall i, j :: 0 <= i < j < |s| ==> s[i].key != s[j].key
  }

  ghost predicate Chronological<K, D>(s: seq<Arrival<K, D>>) {
    forall i, j :: 0 <= i <= j < |s| ==> s[i].at <= s[j].at
  }

  /** The deduper lets `a` through after `s`, what it let through before. */
  ghost predicate LetsIn<K, D>(s: seq<Arrival<K, D>>, a: Arrival<K, D>, capacity: nat, ttl: nat) {
    !Live(Entries(s), a.key, capacity, ttl, a.at)
  }

  /** The arrivals a deduper lets through. */
  ghost function Accepted<K, D>(s: seq<Arrival<K, D>>, capacity: nat, ttl: nat): seq<Arrival<K, D>> {
    if s == [] then []
    else
      var before, a := Accepted(s[..|s| - 1], capacity, ttl), s[|s| - 1];
      if LetsIn(before, a, capacity, ttl) then before + [a] else before
  }

  /** The arrivals whose key had not arrived before. */
  ghost function FirstArrivals<K, D>(s: seq<Arrival<K, D>>): seq<Arrival<K, D>> {
    if s == [] then []
    else
      var before, a := FirstArrivals(s[..|s| - 1]), s[|s| - 1];
      if Arrived(before, a.key) then before else before + [a]
  }

  /** If the key of `a` is among the first arrivals `f`, it came at most `ttl` ago and at most `capacity` keys ago. */
  ghost predicate Prompt<K, D>(f: seq<Arrival<K, D>>, a: Arrival<K, D>, capacity: nat, ttl: nat) {
    forall j :: 0 <= j < |f| && f[j].key == a.key ==> |f| - j <= capacity && a.at - f[j].at <= ttl
  }

  /** Every repeat comes promptly after its key's first arrival. */
  ghost predicate WithinWindow<K, D>(s: seq<Arrival<K, D>>, capacity: nat, ttl: nat) {
    forall i :: 0 <= i < |s| ==> Prompt(FirstArrivals(s[..i]), s[i], capacity, ttl)
  }

  lemma AcceptedSnoc<K, D>(s: seq<Arrival<K, D>>, a: Arrival<K, D>, capacity: nat, ttl: nat)
    ensures Accepted(s + [a], capacity, ttl)
         == var acc := Accepted(s, capacity, ttl); if LetsIn(acc, a, capacity, ttl) then acc + [a] else acc
  {
    assert (s + [a])[..|s + [a]| - 1] == s;
  }

  /** A subsequence keeps its source's times. */
  lemma {:induction false} FirstArrivalsChronological<K, D>(s: seq<Arrival<K, D>>, now: int)
    requires Chronological(s) && (s != [] ==> s[|s| - 1].at <= now)
    ensures var f := FirstArrivals(s); Chronological(f) && forall i :: 0 <= i < |f| ==> f[i].at <= now
  {
    if s != [] {
      FirstArrivalsChronological(s[..|s| - 1], s[|s| - 1].at);
    }
  }

  /** With ordered times, being live is being recent enough in both senses. */
  lemma LiveMeansPrompt<K, D>(f: seq<Arrival<K, D>>, a: Arrival<K, D>, capacity: nat, ttl: nat)
    requires Distinct(f) && Chronological(f) && (forall i :: 0 <= i < |f| ==> f[i].at <= a.at)
    requires Arrived(f, a.key)
    ensures !LetsIn(f, a, capacity, ttl) <==> Prompt(f, a, capacity, ttl)
  {
    hide Live;
    var j :| 0 <= j < |f| && f[j].key == a.key;
    assert Entries(f)[j].key == a.key;
    LiveIsRecent(Entries(f), j, capacity, ttl, a.at);
  }

  lemma LiveIsPresent<K, D>(f: seq<Arrival<K, D>>, a: Arrival<K, D>, capacity: nat, ttl: nat)
    requires !LetsIn(f, a, capacity, ttl)
    ensures Arrived(f, a.key)
  {
    hide Live;
    Dedupers.LiveIsPresent(Entries(f), a.key, capacity, ttl, a.at);
    var i :| 0 <= i < |f| && Entries(f)[i].key == a.key;
    assert f[i].key == a.key;
  }

  lemma WithinWindowSnoc<K, D>(s: seq<Arrival<K, D>>, a: Arrival<K, D>, capacity: nat, ttl: nat)
    ensures WithinWindow(s + [a], capacity, ttl)
       <==> WithinWindow(s, capacity, ttl) && Prompt(FirstArrivals(s), a, capacity, ttl)
  {
    var t := s + [a];
    assert forall i :: 0 <= i < |s| ==> t[..i] == s[..i] && t[i] == s[i];
    assert t[..|s|] == s && t[|s|] == a;
  }

  /** The first arrivals hold each key of the input, once. */
  lemma {:induction false} FirstArrivalsAre<K, D>(s: seq<Arrival<K, D>>)
    ensures Distinct(FirstArrivals(s))
    ensures forall key :: Arrived(FirstArrivals(s), key) <==> Arrived(s, key)
  {
    if s != [] {
      var p, a := s[..|s| - 1], s[|s| - 1];
      FirstArrivalsAre(p);
      assert s == p + [a];
      forall key ensures Arrived(FirstArrivals(s), key) <==> Arrived(s, key) {
        ArrivedSnoc(p, a, key);
        ArrivedSnoc(FirstArrivals(p), a, key);
      }
    }
  }

  /** And each of them is the arrival at which its key first occurs. */
  lemma {:induction false} FirstArrivalsAreFirst<K, D>(s: seq<Arrival<K, D>>, i: nat)
    requires i < |s| && !Arrived(s[..i], s[i].key)
    ensures s[i] in FirstArrivals(s)
  {
    var p := s[..|s| - 1];
    if i < |p| {
      assert s[..i] == p[..i];
      FirstArrivalsAreFirst(p, i);
    } else {
      FirstArrivalsAre(p);
    }
  }

  lemma ArrivedSnoc<K, D>(s: seq<Arrival<K, D>>, a: Arrival<K, D>, key: K)
    ensures Arrived(s + [a], key) <==> Arrived(s, key) || key == a.key
  {
    assert (s + [a])[|s|] == a;
    if Arrived(s, key) {
      var i :| 0 <= i < |s| && s[i].key == key;
      assert (s + [a])[i].key == key;
    }
  }

  /** One arrival after an ideal start: still ideal, or the key gets through a second time. */
  lemma IdealStep<K, D>(p: seq<Arrival<K, D>>, a: Arrival<K, D>, capacity: nat, ttl: nat)
    requires Chronological(p + [a])
    ensures var f, s := FirstArrivals(p), p + [a];
            && (Prompt(f, a, capacity, ttl) ==> FirstArrivals(s) == if LetsIn(f, a, capacity, ttl) then f + [a] else f)
            && (!Prompt(f, a, capacity, ttl) ==> LetsIn(f, a, capacity, ttl) && !Distinct(f + [a]))
  {
    hide LetsIn;
    var f := FirstArrivals(p);
    assert (p + [a])[..|p + [a]| - 1] == p;
    assert forall i :: 0 <= i < |p| ==> p[i] == (p + [a])[i] && p[i].at <= (p + [a])[|p|].at;
    FirstArrivalsAre(p);
    FirstArrivalsChronological(p, a.at);
    if Arrived(f, a.key) {
      LiveMeansPrompt(f, a, capacity, ttl);
      RepeatIsSeen(f, a);
    } else if !LetsIn(f, a, capacity, ttl) {
      LiveIsPresent(f, a, capacity, ttl);
    }
  }

  /** Inside the window the deduper is ideal; outside it has let some key through twice. */
  lemma {:induction false} IdealOrRepeats<K, D>(s: seq<Arrival<K, D>>, capacity: nat, ttl: nat)
    requires Chronological(s)
    ensures WithinWindow(s, capacity, ttl) ==> Accepted(s, capacity, ttl) == FirstArrivals(s)
    ensures !WithinWindow(s, capacity, ttl) ==> !Distinct(Accepted(s, capacity, ttl))
  {
    hide LetsIn, Prompt;
    if s == [] {
      assert WithinWindow(s, capacity, ttl);
    } else {
      var p, a := s[..|s| - 1], s[|s| - 1];
      assert s == p + [a];
      IdealOrRepeats(p, capacity, ttl);
      WithinWindowSnoc(p, a, capacity, ttl);
      hide WithinWindow, Distinct, FirstArrivals;
      IdealStep(p, a, capacity, ttl);
      RepeatStays(Accepted(p, capacity, ttl), a);
    }
  }

  lemma RepeatIsSeen<K, D>(f: seq<Arrival<K, D>>, a: Arrival<K, D>)
    requires Arrived(f, a.key)
    ensures !Distinct(f + [a])
  {
    var i :| 0 <= i < |f| && f[i].key == a.key;
    assert (f + [a])[i].key == (f + [a])[|f|].key;
  }

  lemma RepeatStays<K, D>(f: seq<Arrival<K, D>>, a: Arrival<K, D>)
    ensures !Distinct(f) ==> !Distinct(f + [a])
  {
    if !Distinct(f) {
      var i, j :| 0 <= i < j < |f| && f[i].key == f[j].key;
      assert (f + [a])[i].key == (f + [a])[j].key;
    }
  }

  /** The deduper forwards every key exactly once, at its first arrival, iff every repeat is prompt. */
  lemma OnceEachIffPrompt<K, D>(s: seq<Arrival<K, D>>, capacity: nat, ttl: nat)
    requires Chronological(s)
    ensures Accepted(s, capacity, ttl) == FirstArrivals(s) <==> WithinWindow(s, capacity, ttl)
    ensures Distinct(Accepted(s, capacity, ttl)) <==> WithinWindow(s, capacity, ttl)
  {
    IdealOrRepeats(s, capacity, ttl);
    FirstArrivalsAre(s);
  }

  /** A repeat that comes more than ttl after its key is forwarded again. */
  lemma LateRepeatIsForwarded<K, D>(a: Arrival<K, D>, b: Arrival<K, D>, capacity: nat, ttl: nat)
    requires b.key == a.key && b.at > a.at + ttl
    ensures !Distinct(Accepted([a, b], capacity, ttl))
  {
    assert [a, b][..1] == [a] && [a][..0] == [];
    assert FirstArrivals([a]) == [a];
    assert !Prompt(FirstArrivals([a, b][..1]), [a, b][1], capacity, ttl) by {
      assert [a][0].key == b.key;
    }
    OnceEachIffPrompt([a, b], capacity, ttl);
  }

  /** What one connection delivered, in its order. */
  ghost function Stream<K, D>(s: seq<Arrival<K, D>>, conn: nat): seq<K> {
    if s == [] then []
    else
      var before, a := Stream(s[..|s| - 1], conn), s[|s| - 1];
      if a.conn == conn then before + [a.key] else before
  }

  /** Two interleavings of the same per-connection streams. */
  ghost predicate SameStreams<K, D>(a: seq<Arrival<K, D>>, b: seq<Arrival<K, D>>) {
    forall c: nat :: Stream(a, c) == Stream(b, c)
  }

  lemma {:induction false} StreamHolds<K, D>(s: seq<Arrival<K, D>>, i: nat)
    requires i < |s|
    ensures s[i].key in Stream(s, s[i].conn)
  {
    if i < |s| - 1 {
      StreamHolds(s[..|s| - 1], i);
    }
  }

  lemma {:induction false} StreamHoldsOnly<K, D>(s: seq<Arrival<K, D>>, conn: nat, key: K)
    requires key in Stream(s, conn)
    ensures Arrived(s, key)
  {
    if s[|s| - 1].key != key {
      StreamHoldsOnly(s[..|s| - 1], conn, key);
    }
  }

  lemma SameStreamsSameKeys<K, D>(a: seq<Arrival<K, D>>, b: seq<Arrival<K, D>>, key: K)
    requires SameStreams(a, b) && Arrived(a, key)
    ensures Arrived(b, key)
  {
    var i :| 0 <= i < |a| && a[i].key == key;
    StreamHolds(a, i);
    StreamHoldsOnly(b, a[i].conn, key);
  }

  /** The outcome of the race does not depend on who wins it. */
  lemma RaceIndependent<K, D>(a: seq<Arrival<K, D>>, b: seq<Arrival<K, D>>, capacity: nat, ttl: nat, key: K)
    requires Chronological(a) && Chronological(b) && SameStreams(a, b)
    requires WithinWindow(a, capacity, ttl) && WithinWindow(b, capacity, ttl)
    ensures var x, y := Accepted(a, capacity, ttl), Accepted(b, capacity, ttl);
            && Distinct(x) && Distinct(y)
            && (Arrived(x, key) <==> Arrived(y, key)) && (Arrived(x, key) <==> Arrived(a, key))
  {
    hide Accepted, WithinWindow, Arrived, Distinct;
    OnceEachIffPrompt(a, capacity, ttl);
    OnceEachIffPrompt(b, capacity, ttl);
    FirstArrivalsAre(a);
    FirstArrivalsAre(b);
    if Arrived(a, key) {
      SameStreamsSameKeys(a, b, key);
    }
    if Arrived(b, key) {
      SameStreamsSameKeys(b, a, key);
    }
  }
}
