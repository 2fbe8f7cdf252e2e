/**
 File names and their sequence numbers, src/output/file_manager.rs: a name is a stream's key and a
 number; after a restart the counters are recovered from the names found in the directory.
 */
module FileNames {
  import opened Common
  import opened Decimals

  const EXTENSION := ".parquet"

  datatype ExchangeId = BinanceFutures | OkxSwap | OkxSpot | Deribit

  function ExchangeText(e: ExchangeId): string {
    match e
    case BinanceFutures => "BINANCE_FUTURES"
    case OkxSwap => "OKX_SWAP"
    case OkxSpot => "OKX_SPOT"
    case Deribit => "DERIBIT"
  }

  function NormalizeSymbol(symbol: string): string {
    seq(|symbol|, i requires 0 <= i < |symbol| => if symbol[i] == '/' || symbol[i] == '-' then '_' else symbol[i])
  }

  /** The characters a file name should not have become underscores, and no others change. */
  lemma NormalizedSymbol(symbol: string)
    ensures var n := NormalizeSymbol(symbol);
      && |n| == |symbol| && '/' !in n && '-' !in n
      && forall i :: 0 <= i < |n| ==> n[i] == symbol[i] || (symbol[i] in "/-" && n[i] == '_')
  {
  }

  function Key(streamType: string, exchange: ExchangeId, symbol: string): string {
    streamType + "_" + ExchangeText(exchange) + "_" + NormalizeSymbol(symbol)
  }

  function FileName(key: string, sequence: nat): string {
    key + "_" + Padded(sequence) + EXTENSION
  }

  // ---------------------------------------------------------------- split and join

  /** `split('_')`: there is always at least one part. */
  function Split(s: string): (parts: seq<string>)
    ensures parts != []
  {
    if s == [] then [""]
    else
      var parts := Split(s[..|s| - 1]);
      Continue(parts, s[|s| - 1])
  }

  /** A separator begins a new part; any other character extends the last one. */
  function Continue(parts: seq<string>, c: char): (r: seq<string>)
    requires parts != []
    ensures r != []
  {
    if c == '_' then parts + [""] else parts[|parts| - 1 := parts[|parts| - 1] + [c]]
  }

  /** `join("_")`. */
  function Join(parts: seq<string>): string {
    if parts == [] then ""
    else if |parts| == 1 then parts[0]
    else Join(parts[..|parts| - 1]) + "_" + parts[|parts| - 1]
  }

  lemma {:induction false} JoinSplit(s: string)
    ensures Join(Split(s)) == s
  {
    if s != [] {
      JoinSplit(s[..|s| - 1]);
      JoinContinue(Split(s[..|s| - 1]), s[|s| - 1]);
      assert s == s[..|s| - 1] + [s[|s| - 1]];
    }
  }

  lemma JoinContinue(p: seq<string>, c: char)
    requires p != []
    ensures Join(Continue(p, c)) == Join(p) + [c]
  {
    var q := Continue(p, c);
    if c == '_' {
      assert q[..|q| - 1] == p;
    } else {
      assert q[..|q| - 1] == p[..|p| - 1];
    }
  }

  lemma ContinueLater(p: seq<string>, q: seq<string>, c: char)
    requires q != []
    ensures Continue(p + q, c) == p + Continue(q, c)
  {
  }

  lemma SplitSnoc(s: string, c: char)
    ensures Split(s + [c]) == Continue(Split(s), c)
  {
    assert (s + [c])[..|s + [c]| - 1] == s;
  }

  /** Splitting at a separator splits both sides on their own. */
  lemma {:induction false} SplitAt(a: string, b: string)
    ensures Split(a + "_" + b) == Split(a) + Split(b)
  {
    hide Split, Continue;
    if b == [] {
      SplitSnoc(a, '_');
      SplitNothing(Split(a));
      assert a + "_" + b == a + "_";
    } else {
      var p, c := b[..|b| - 1], b[|b| - 1];
      SplitAt(a, p);
      SplitSnoc(a + "_" + p, c);
      SplitSnoc(p, c);
      ContinueLater(Split(a), Split(p), c);
      assert b == p + [c] && a + "_" + b == (a + "_" + p) + [c];
    }
  }

  lemma SplitNothing(p: seq<string>)
    requires p != []
    ensures Continue(p, '_') == p + Split("")
  {
  }

  lemma {:induction false} SplitDigits(s: string)
    requires AllDigits(s)
    ensures Split(s) == [s]
  {
    if s != [] {
      SplitDigits(s[..|s| - 1]);
      assert s[..|s| - 1] + [s[|s| - 1]] == s;
      assert IsDigit(s[|s| - 1]);
    }
  }

  // ---------------------------------------------------------------- parsing a name

  predicate EndsWith(s: string, suffix: string) {
    |s| >= |suffix| && s[|s| - |suffix|..] == suffix
  }

  function ParseFileName(name: string): (r: Option<(nat, string)>)
    ensures r.Some? ==> r.value.0 <= U64_MAX
  {
    if !EndsWith(name, EXTENSION) then None
    else
      var parts := Split(name[..|name| - |EXTENSION|]);
      if |parts| < 4 then None
      else match ParseU64(parts[|parts| - 1])
        case None => None
        case Some(sequence) => Some((sequence, Join(parts[..|parts| - 1])))
  }

  lemma {:induction false} SplitKeepsLast(s: string)
    ensures var parts := Split(s); '_' !in parts[|parts| - 1]
  {
    if s != [] { SplitKeepsLast(s[..|s| - 1]); }
  }

  lemma {:induction false} SplitWhole(s: string)
    requires '_' !in s
    ensures Split(s) == [s]
  {
    if s != [] {
      assert s[|s| - 1] != '_' && forall c :: c in s[..|s| - 1] ==> c in s;
      SplitWhole(s[..|s| - 1]);
      assert s[..|s| - 1] + [s[|s| - 1]] == s;
    }
  }

  lemma NumberHasNoSeparator(d: string)
    requires ParseU64(d).Some?
    ensures '_' !in d
  {
    ParsesDigits(d, ParseU64(d).value);
    var e :| (d == e || d == "+" + e) && AllDigits(e);
    assert forall c :: c in e ==> IsDigit(c);
  }

  /** The parts behind the last separator and before it. */
  lemma SplitLast(s: string)
    requires |Split(s)| >= 2
    ensures var parts := Split(s); s == Join(parts[..|parts| - 1]) + "_" + parts[|parts| - 1]
    ensures var parts := Split(s); Split(Join(parts[..|parts| - 1])) == parts[..|parts| - 1]
  {
    var parts := Split(s);
    var n := |parts| - 1;
    JoinSplit(s);
    SplitKeepsLast(s);
    SplitWhole(parts[n]);
    SplitAt(Join(parts[..n]), parts[n]);
    assert parts == parts[..n] + [parts[n]];
    assert Split(Join(parts[..n])) + [parts[n]] == parts;
    assert (Split(Join(parts[..n])) + [parts[n]])[..n] == Split(Join(parts[..n]));
  }

  /** Exactly the names parse that are a key of at least three parts, a number and the extension. */
  lemma ParsesExactly(name: string, sequence: nat, key: string)
    ensures ParseFileName(name) == Some((sequence, key)) <==>
      exists d :: name == key + "_" + d + EXTENSION && ParseU64(d) == Some(sequence) && |Split(key)| >= 3
  {
    hide Split, ParseU64, Join;
    if ParseFileName(name) == Some((sequence, key)) {
      var stem := name[..|name| - |EXTENSION|];
      var parts := Split(stem);
      SplitLast(stem);
      assert name == stem + EXTENSION;
      assert name == key + "_" + parts[|parts| - 1] + EXTENSION;
    }
    if exists d :: name == key + "_" + d + EXTENSION && ParseU64(d) == Some(sequence) && |Split(key)| >= 3 {
      var d :| name == key + "_" + d + EXTENSION && ParseU64(d) == Some(sequence) && |Split(key)| >= 3;
      var stem := key + "_" + d;
      assert name[..|name| - |EXTENSION|] == stem && name[|name| - |EXTENSION|..] == EXTENSION;
      NumberHasNoSeparator(d);
      SplitWhole(d);
      SplitAt(key, d);
      JoinSplit(key);
      assert (Split(key) + [d])[..|Split(key)|] == Split(key);
    }
  }

  lemma KeyParts(streamType: string, exchange: ExchangeId, symbol: string)
    ensures |Split(Key(streamType, exchange, symbol))| >= 3
  {
    var head := streamType + "_" + ExchangeText(exchange);
    SplitAt(streamType, ExchangeText(exchange));
    SplitAt(head, NormalizeSymbol(symbol));
  }

  lemma NamedParses(key: string, sequence: nat)
    requires |Split(key)| >= 3 && sequence <= U64_MAX
    ensures ParseFileName(FileName(key, sequence)) == Some((sequence, key))
  {
    hide Split, Padded, ParseU64, Join;
    var name, stem := FileName(key, sequence), key + "_" + Padded(sequence);
    assert name[..|name| - |EXTENSION|] == stem && name[|name| - |EXTENSION|..] == EXTENSION;
    SplitAt(key, Padded(sequence));
    SplitDigits(Padded(sequence));
    assert (Split(key) + [Padded(sequence)])[..|Split(key)|] == Split(key);
    JoinSplit(key);
    ParsePadded(sequence);
  }

  /** Every generated name parses back to its own number and key, whatever the stream and symbol are called. */
  lemma RoundTrip(streamType: string, exchange: ExchangeId, symbol: string, sequence: nat)
    requires sequence <= U64_MAX
    ensures ParseFileName(FileName(Key(streamType, exchange, symbol), sequence))
         == Some((sequence, Key(streamType, exchange, symbol)))
  {
    KeyParts(streamType, exchange, symbol);
    NamedParses(Key(streamType, exchange, symbol), sequence);
  }

  /** Keys of the four exchanges. */
  lemma KeyExamples()
    ensures Key("L2", BinanceFutures, "BTCUSDT") == "L2_BINANCE_FUTURES_BTCUSDT"
    ensures Key("TRADES", OkxSwap, "ETHUSDT") == "TRADES_OKX_SWAP_ETHUSDT"
  {
    assert NormalizeSymbol("BTCUSDT") == "BTCUSDT" && NormalizeSymbol("ETHUSDT") == "ETHUSDT";
  }

  lemma MoreKeyExamples()
    ensures Key("OBS", OkxSpot, "ETH-USDT") == "OBS_OKX_SPOT_ETH_USDT"
    ensures Key("OBS", Deribit, "BTC/USD") == "OBS_DERIBIT_BTC_USD"
  {
    assert NormalizeSymbol("ETH-USDT") == "ETH_USDT" && NormalizeSymbol("BTC/USD") == "BTC_USD";
  }

  /** The documented names of two files. */
  lemma DocumentedNames()
    ensures FileName(Key("L2", BinanceFutures, "BTCUSDT"), 1) == "L2_BINANCE_FUTURES_BTCUSDT_000001.parquet"
    ensures FileName(Key("TRADES", OkxSwap, "ETHUSDT"), 123) == "TRADES_OKX_SWAP_ETHUSDT_000123.parquet"
  {
    hide Key, Padded;
    KeyExamples();
    PaddedExamples();
  }

  // ---------------------------------------------------------------- the counters

  function Counter(counters: map<string, nat>, key: string): nat {
    if key in counters then counters[key] else 0
  }

  function Higher(a: nat, b: nat): nat { if a > b then a else b }

  /** The number a name uses for a key, or zero. */
  function Uses(name: string, key: string): (n: nat)
    ensures n <= U64_MAX
  {
    match ParseFileName(name)
    case Some((sequence, k)) => if k == key then sequence else 0
    case None => 0
  }

  /** The highest number a list of names uses for a key, or zero. */
  ghost function Highest(names: seq<string>, key: string): (n: nat)
    ensures n <= U64_MAX
  {
    if names == [] then 0 else Higher(Uses(names[|names| - 1], key), Highest(names[..|names| - 1], key))
  }

  lemma {:induction false} HighestCovers(names: seq<string>, name: string, key: string)
    requires name in names
    ensures Uses(name, key) <= Highest(names, key)
  {
    if name != names[|names| - 1] {
      HighestCovers(names[..|names| - 1], name, key);
    }
  }

  /** No counter is behind a name that is taken, and all counters are u64 values. */
  ghost predicate Ahead(counters: map<string, nat>, taken: set<string>) {
    && (forall key :: Counter(counters, key) <= U64_MAX)
    && (forall name, key :: name in taken ==> Uses(name, key) <= Counter(counters, key))
  }

  /** The counters have taken in a listing. */
  ghost predicate Absorbed(before: map<string, nat>, after: map<string, nat>, listing: seq<string>) {
    forall key :: Counter(after, key) == Higher(Highest(listing, key), Counter(before, key))
  }

  lemma AbsorbName(before: map<string, nat>, counters: map<string, nat>, after: map<string, nat>,
                   listing: seq<string>, i: nat)
    requires i < |listing| && Absorbed(before, counters, listing[..i])
    requires forall key :: Counter(after, key) == Higher(Uses(listing[i], key), Counter(counters, key))
    ensures Absorbed(before, after, listing[..i + 1])
  {
    hide Uses;
    assert listing[..i + 1][..i] == listing[..i];
  }

  lemma AbsorbedIsAhead(before: map<string, nat>, after: map<string, nat>, listing: seq<string>, taken: set<string>)
    requires Ahead(before, taken) && Absorbed(before, after, listing)
    ensures Ahead(after, taken + set name | name in listing)
  {
    hide Uses, Highest;
    forall name, key | name in taken + set n | n in listing ensures Uses(name, key) <= Counter(after, key) {
      if name in listing {
        HighestCovers(listing, name, key);
      }
    }
  }

  lemma NameUses(key: string, sequence: nat, k: string)
    requires |Split(key)| >= 3 && sequence <= U64_MAX
    ensures Uses(FileName(key, sequence), k) == if k == key then sequence else 0
  {
    hide FileName, Split, ParseFileName;
    NamedParses(key, sequence);
  }

  /** A number above the counter gives a name that is not taken; and taking it keeps the counters ahead. */
  lemma NextNameIsNew(counters: map<string, nat>, taken: set<string>, key: string, sequence: nat)
    requires Ahead(counters, taken) && |Split(key)| >= 3 && Counter(counters, key) < sequence <= U64_MAX
    ensures FileName(key, sequence) !in taken
    ensures Ahead(counters[key := sequence], taken + {FileName(key, sequence)})
  {
    hide FileName, ParseFileName, Uses, Split;
    var name, after := FileName(key, sequence), counters[key := sequence];
    forall k ensures Uses(name, k) == if k == key then sequence else 0 {
      NameUses(key, sequence, k);
    }
    assert Uses(name, key) == sequence;
    forall k ensures Counter(after, k) <= U64_MAX {
      assert Counter(counters, k) <= U64_MAX;
    }
    forall n, k | n in taken + {name} ensures Uses(n, k) <= Counter(after, k) {
      if n in taken {
        assert Uses(n, k) <= Counter(counters, k);
      }
    }
  }

  /** `fetch_add(1) + 1` in a release build. */
  function NextSequence(counter: nat): (n: nat)
    requires counter <= U64_MAX
    ensures n <= U64_MAX && (counter < U64_MAX ==> n == counter + 1)
  {
    if counter == U64_MAX then 0 else counter + 1
  }

  /** A directory with the numbers 0 and u64::MAX of one stream: the next name wraps onto the first of them. */
  lemma WrapMeetsExistingName(streamType: string, exchange: ExchangeId, symbol: string)
    ensures var key := Key(streamType, exchange, symbol);
      var listing, counters := [FileName(key, U64_MAX), FileName(key, 0)], map[key := U64_MAX];
      && Absorbed(map[], counters, listing) && Ahead(counters, set name | name in listing)
      && FileName(key, NextSequence(Counter(counters, key))) in listing
  {
    var key := Key(streamType, exchange, symbol);
    KeyParts(streamType, exchange, symbol);
    hide Key, FileName, Split;
    WrapCounters(key);
  }

  lemma WrapCounters(key: string)
    requires |Split(key)| >= 3
    ensures Absorbed(map[], map[key := U64_MAX], [FileName(key, U64_MAX), FileName(key, 0)])
    ensures Ahead(map[key := U64_MAX], set name | name in [FileName(key, U64_MAX), FileName(key, 0)])
  {
    hide FileName, Split, Uses, Highest;
    var top, zero := FileName(key, U64_MAX), FileName(key, 0);
    forall k
      ensures Uses(top, k) == (if k == key then U64_MAX else 0) && Uses(zero, k) == 0
      ensures Highest([top, zero], k) == if k == key then U64_MAX else 0
    {
      NameUses(key, U64_MAX, k);
      NameUses(key, 0, k);
      HighestOfTwo(top, zero, k);
    }
  }

  lemma HighestOfTwo(a: string, b: string, k: string)
    ensures Highest([a, b], k) == Higher(Uses(b, k), Uses(a, k))
  {
    hide Uses;
    assert [a, b][..1] == [a] && [a][..0] == [];
    assert Highest([a], k) == Uses(a, k);
  }

  class FileManager {
    var counters: map<string, nat>
    /** Every name in the directory when it was listed, and every name generated since. */
    ghost var taken: set<string>

    ghost predicate Valid()
      reads this
    {
      Ahead(counters, taken)
    }

    constructor ()
      ensures Valid() && counters == map[] && taken == {}
    {
      counters, taken := map[], {};
    }

    method InitializeFromName(name: string)
      modifies this`counters
      ensures forall key :: Counter(counters, key) == Higher(Uses(name, key), Counter(old(counters), key))
    {
      if EndsWith(name, EXTENSION) {
        var parsed := ParseFileName(name);
        if parsed.Some? {
          var (sequence, key) := parsed.value;
          var current := Counter(counters, key);
          counters := counters[key := current];
          if sequence > current {
            counters := counters[key := sequence];
          }
        }
      }
    }

    /** Counters move to the highest number found, and never back. */
    method InitializeSequencesFromExistingFiles(listing: seq<string>)
      requires Valid()
      modifies this
      ensures Valid() && taken == old(taken) + set name | name in listing
      ensures Absorbed(old(counters), counters, listing)
    {
      hide Highest, ParseFileName;
      assert Absorbed(counters, counters, listing[..0]) by { NothingAbsorbed(counters, listing[..0]); }
      for i := 0 to |listing|
        invariant Absorbed(old(counters), counters, listing[..i])
        invariant taken == old(taken)
      {
        ghost var before := counters;
        InitializeFromName(listing[i]);
        AbsorbName(old(counters), before, counters, listing, i);
      }
      assert listing[..|listing|] == listing;
      AbsorbedIsAhead(old(counters), counters, listing, taken);
      taken := taken + set name | name in listing;
    }

    /** The next name of a stream is new, unless its counter wraps around onto a name that exists. */
    method GenerateFilePath(streamType: string, exchange: ExchangeId, symbol: string) returns (name: string)
      requires Valid()
      modifies this
      ensures var key := Key(streamType, exchange, symbol);
        && (key !in old(counters) ==> name == FileName(key, 1))
        && (key in old(counters) && old(counters)[key] < U64_MAX ==> name == FileName(key, old(counters)[key] + 1))
      ensures var key := Key(streamType, exchange, symbol);
              var counter := Counter(old(counters), key);
        && name == FileName(key, if counter < U64_MAX then counter + 1 else 0)
        && taken == old(taken) + {name}
        && (name !in old(taken) <==> counter < U64_MAX || FileName(key, 0) !in old(taken))
        && (counter < U64_MAX ==> Valid())
    {
      var key := Key(streamType, exchange, symbol);
      KeyParts(streamType, exchange, symbol);
      hide Key, FileName, Split, Ahead;
      var counter := Counter(counters, key);
      if counter < U64_MAX {
        NextNameIsNew(counters, taken, key, counter + 1);
      }
      assert counter <= U64_MAX by { CounterFits(counters, taken, key); }
      var sequence := NextSequence(counter);
      counters := counters[key := sequence];
      name := FileName(key, sequence);
      taken := taken + {name};
    }
  }

  lemma CounterFits(counters: map<string, nat>, taken: set<string>, key: string)
    requires Ahead(counters, taken)
    ensures Counter(counters, key) <= U64_MAX
  {
  }

  lemma NothingAbsorbed(counters: map<string, nat>, none: seq<string>)
    requires none == []
    ensures Absorbed(counters, counters, none)
  {
  }
}
