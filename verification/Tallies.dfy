/** Channel definitions and what a set of them costs
    (llo/protocol/channel_definitions_budget.go). */
module Tallies {
  import opened Collections

  type ChannelID = nat
  type StreamID = nat

  const MAX_CHANNELS: nat := 2000
  const MAX_STREAM_ENTRIES: int := 50_000
  const MAX_OPTS_BYTES: int := 0x10_0000
  const MAX_AGGREGATED_PAIRS: int := 20_000
  const MAX_CALCULATED_STREAMS: int := MAX_AGGREGATED_PAIRS
  const MAX_TWAP_CALLS: int := 64
  const MAX_STREAM_IDS: int := 10_000

  datatype Format = HistoryBackfill | AbiUnpackedExpr | AbiUnpacked | PremiumLegacy | OtherFormat(code: nat)

  datatype Aggregator = Unset | Median | Mode | Quote | Calculated | UnknownAggregator(code: nat)

  datatype Stream = Stream(id: StreamID, aggregator: Aggregator)

  datatype Definition = Definition(
    format: Format, streams: seq<Stream>, opts: seq<byte>, tombstone: bool, source: nat, disableNilStreamValues: bool)

  /** What decoding a definition's opts yields: declared stream IDs and TWAP calls. */
  datatype Facts = Facts(calculatedIDs: seq<StreamID>, twapCalls: nat)

  predicate HasCalculatedStreams(cd: Definition) { cd.format.AbiUnpackedExpr? }

  /** Calculated streams are only looked for on formats that can declare them. */
  function DeriveFacts(decode: Definition -> Facts, cd: Definition): Facts {
    if HasCalculatedStreams(cd) then decode(cd) else Facts([], decode(cd).twapCalls)
  }

  // ------------------------------------------------------------------ tallies

  /** Everything the budget measures of a set, as plain sums and multisets. */
  datatype Tally = Tally(
    entries: int, opts: int, declarations: int, twap: int,
    pairs: multiset<Stream>, ids: multiset<StreamID>, observed: multiset<StreamID>, declared: multiset<StreamID>)

  const ZERO: Tally := Tally(0, 0, 0, 0, multiset{}, multiset{}, multiset{}, multiset{})

  function Add(a: Tally, b: Tally): Tally {
    Tally(a.entries + b.entries, a.opts + b.opts, a.declarations + b.declarations, a.twap + b.twap,
          a.pairs + b.pairs, a.ids + b.ids, a.observed + b.observed, a.declared + b.declared)
  }

  function Subtract(a: Tally, b: Tally): Tally {
    Tally(a.entries - b.entries, a.opts - b.opts, a.declarations - b.declarations, a.twap - b.twap,
          a.pairs - b.pairs, a.ids - b.ids, a.observed - b.observed, a.declared - b.declared)
  }

  predicate Aggregated(s: Stream) { !s.aggregator.Unset? && !s.aggregator.Calculated? }

  function AggregatedStreams(streams: seq<Stream>): seq<Stream> {
    if streams == [] then []
    else
      AggregatedStreams(streams[..|streams| - 1]) +
      if Aggregated(streams[|streams| - 1]) then [streams[|streams| - 1]] else []
  }

  function IDs(streams: seq<Stream>): seq<StreamID> {
    if streams == [] then [] else IDs(streams[..|streams| - 1]) + [streams[|streams| - 1].id]
  }

  function ObservedIDs(streams: seq<Stream>): seq<StreamID> {
    if streams == [] then []
    else
      ObservedIDs(streams[..|streams| - 1]) +
      if !streams[|streams| - 1].aggregator.Calculated? then [streams[|streams| - 1].id] else []
  }

  /** The (stream, aggregator) pairs aggregated on behalf of a definition. */
  function AggregatedPairs(cd: Definition): seq<Stream> {
    if cd.tombstone || cd.format.HistoryBackfill? then [] else AggregatedStreams(cd.streams)
  }

  /** What one definition adds. Tombstones count towards the persisted sizes only. */
  function Cost(decode: Definition -> Facts, cd: Definition): Tally {
    var facts := DeriveFacts(decode, cd);
    if cd.tombstone then ZERO.(entries := |cd.streams|, opts := |cd.opts|)
    else
      Tally(|cd.streams|, |cd.opts|, |facts.calculatedIDs|, facts.twapCalls,
            multiset(AggregatedPairs(cd)), multiset(IDs(cd.streams)),
            multiset(ObservedIDs(cd.streams)), multiset(facts.calculatedIDs))
  }

  /** The cost of a whole set of definitions. */
  ghost function TallyOf(decode: Definition -> Facts, defs: map<ChannelID, Definition>): Tally
    decreases |defs|
  {
    if defs == map[] then ZERO
    else
      var c :| c in defs;
      assert |defs - {c}| < |defs| by { assert (defs - {c}).Keys == defs.Keys - {c}; }
      Add(TallyOf(decode, defs - {c}), Cost(decode, defs[c]))
  }

  lemma AddSwaps(a: Tally, b: Tally, c: Tally)
    ensures Add(Add(a, b), c) == Add(Add(a, c), b)
  {
  }

  lemma SubtractUndoesAdd(a: Tally, b: Tally)
    ensures Subtract(Add(a, b), b) == a
  {
  }

  /** A set costs the same whichever channel is counted last. */
  lemma {:induction false} TallyWithout(decode: Definition -> Facts, defs: map<ChannelID, Definition>, k: ChannelID)
    requires k in defs
    ensures TallyOf(decode, defs) == Add(TallyOf(decode, defs - {k}), Cost(decode, defs[k]))
    decreases |defs|
  {
    hide Add, Cost;
    var c :| c in defs && TallyOf(decode, defs) == Add(TallyOf(decode, defs - {c}), Cost(decode, defs[c]));
    if c != k {
      assert (defs - {c}).Keys == defs.Keys - {c};
      TallyWithout(decode, defs - {c}, k);
      assert (defs - {k}).Keys == defs.Keys - {k};
      TallyWithout(decode, defs - {k}, c);
      assert defs - {c} - {k} == defs - {k} - {c};
      AddSwaps(TallyOf(decode, defs - {c} - {k}), Cost(decode, defs[k]), Cost(decode, defs[c]));
    }
  }

  /** Setting a channel's definition moves the cost by exactly that definition. */
  lemma TallySet(decode: Definition -> Facts, defs: map<ChannelID, Definition>, k: ChannelID, cd: Definition)
    ensures TallyOf(decode, defs[k := cd]) ==
            Add(if k in defs then Subtract(TallyOf(decode, defs), Cost(decode, defs[k])) else TallyOf(decode, defs),
                Cost(decode, cd))
  {
    hide Add, Subtract, Cost, TallyOf;
    TallyWithout(decode, defs[k := cd], k);
    assert defs[k := cd] - {k} == defs - {k};
    if k in defs {
      TallyWithout(decode, defs, k);
      SubtractUndoesAdd(TallyOf(decode, defs - {k}), Cost(decode, defs[k]));
    } else {
      assert defs - {k} == defs;
    }
  }

  // -------------------------------------------- what a set costs, field by field

  /** The sum of a number over some channels. */
  function SumOver(keys: seq<ChannelID>, defs: map<ChannelID, Definition>, f: Definition -> int): int
    requires forall c :: c in keys ==> c in defs
  {
    if keys == [] then 0
    else
      var n := |keys| - 1;
      assert keys[n] in keys && forall c :: c in keys[..n] ==> c in keys;
      SumOver(keys[..n], defs, f) + f(defs[keys[n]])
  }

  lemma {:induction false} SumKeeps(
    keys: seq<ChannelID>, defs: map<ChannelID, Definition>, less: map<ChannelID, Definition>, f: Definition -> int)
    requires forall c :: c in keys ==> c in defs && c in less && defs[c] == less[c]
    ensures SumOver(keys, defs, f) == SumOver(keys, less, f)
  {
    if keys != [] {
      var n := |keys| - 1;
      assert keys[n] in keys && forall c :: c in keys[..n] ==> c in keys;
      SumKeeps(keys[..n], defs, less, f);
    }
  }

  function EntriesOf(cd: Definition): int { |cd.streams| }

  function OptsOf(cd: Definition): int { |cd.opts| }

  function DeclarationsOf(decode: Definition -> Facts): Definition -> int {
    (cd: Definition) => if cd.tombstone || cd.format != AbiUnpackedExpr then 0 else |decode(cd).calculatedIDs|
  }

  function TwapCallsOf(decode: Definition -> Facts): Definition -> int {
    (cd: Definition) => if cd.tombstone then 0 else decode(cd).twapCalls
  }

  /** Stream entries and opts bytes are those of all channels, tombstones included;
      declarations are those of live expression channels, TWAP calls of live channels. */
  lemma {:induction false} TallySums(
    decode: Definition -> Facts, defs: map<ChannelID, Definition>, keys: seq<ChannelID>)
    requires NoDuplicates(keys) && forall c :: c in keys <==> c in defs
    ensures var t := TallyOf(decode, defs);
            && t.entries == SumOver(keys, defs, EntriesOf) && t.opts == SumOver(keys, defs, OptsOf)
            && t.declarations == SumOver(keys, defs, DeclarationsOf(decode))
            && t.twap == SumOver(keys, defs, TwapCallsOf(decode))
    decreases |keys|
  {
    hide Cost, Add, SumOver;
    if keys == [] {
      assert defs == map[];
      SumNone(defs, EntriesOf);
      SumNone(defs, OptsOf);
      SumNone(defs, DeclarationsOf(decode));
      SumNone(defs, TwapCallsOf(decode));
    } else {
      hide TallyOf;
      var n := |keys| - 1;
      var c := keys[n];
      LastKey(keys, defs);
      TallyWithout(decode, defs, c);
      TallySums(decode, defs - {c}, keys[..n]);
      CostNumbers(decode, TallyOf(decode, defs - {c}), defs[c]);
      SumLast(keys, defs, EntriesOf);
      SumLast(keys, defs, OptsOf);
      SumLast(keys, defs, DeclarationsOf(decode));
      SumLast(keys, defs, TwapCallsOf(decode));
    }
  }

  lemma SumNone(defs: map<ChannelID, Definition>, f: Definition -> int)
    ensures SumOver([], defs, f) == 0
  {
  }

  lemma LastKey(keys: seq<ChannelID>, defs: map<ChannelID, Definition>)
    requires keys != [] && NoDuplicates(keys) && forall c :: c in keys <==> c in defs
    ensures keys[|keys| - 1] in defs && NoDuplicates(keys[..|keys| - 1])
    ensures forall k :: k in keys[..|keys| - 1] <==> k in defs && k != keys[|keys| - 1]
  {
    var n := |keys| - 1;
    NextUnseen(keys, n);
    assert keys[n] in keys && forall k :: k in keys[..n] ==> k in keys;
    forall k | k in keys && k != keys[n] ensures k in keys[..n] {
      var i :| 0 <= i < |keys| && keys[i] == k;
      assert keys[..n][i] == k;
    }
  }

  lemma SumLast(keys: seq<ChannelID>, defs: map<ChannelID, Definition>, f: Definition -> int)
    requires keys != [] && forall c :: c in keys ==> c in defs
    requires forall k :: k in keys[..|keys| - 1] <==> k in defs && k != keys[|keys| - 1]
    ensures keys[|keys| - 1] in keys
    ensures SumOver(keys, defs, f) ==
            SumOver(keys[..|keys| - 1], defs - {keys[|keys| - 1]}, f) + f(defs[keys[|keys| - 1]])
  {
    var n := |keys| - 1;
    assert keys[n] in keys && forall k :: k in keys[..n] ==> k in keys;
    SumKeeps(keys[..n], defs, defs - {keys[n]}, f);
  }

  lemma CostNumbers(decode: Definition -> Facts, t: Tally, cd: Definition)
    ensures var more := Add(t, Cost(decode, cd));
            && more.entries == t.entries + EntriesOf(cd) && more.opts == t.opts + OptsOf(cd)
            && more.declarations == t.declarations + DeclarationsOf(decode)(cd)
            && more.twap == t.twap + TwapCallsOf(decode)(cd)
  {
  }

  lemma {:induction false} AggregatedMembers(streams: seq<Stream>, s: Stream)
    ensures s in AggregatedStreams(streams) <==>
            s in streams && s.aggregator != Unset && s.aggregator != Calculated
  {
    if streams != [] {
      AggregatedMembers(streams[..|streams| - 1], s);
      assert streams == streams[..|streams| - 1] + [streams[|streams| - 1]];
    }
  }

  lemma {:induction false} IDMembers(streams: seq<Stream>, id: StreamID)
    ensures id in IDs(streams) <==> exists s :: s in streams && s.id == id
    ensures id in ObservedIDs(streams) <==> exists s :: s in streams && s.id == id && s.aggregator != Calculated
  {
    if streams != [] {
      var n := |streams| - 1;
      IDMembers(streams[..n], id);
      assert streams == streams[..n] + [streams[n]];
      assert streams[n] in streams;
      if s :| s in streams && s.id == id && s.aggregator != Calculated {
        assert s in streams[..n] || s == streams[n];
      }
    }
  }

  predicate AggregatesFor(cd: Definition, s: Stream) {
    && !cd.tombstone && cd.format != HistoryBackfill
    && s in cd.streams && s.aggregator != Unset && s.aggregator != Calculated
  }

  predicate Lists(cd: Definition, id: StreamID) { !cd.tombstone && exists s :: s in cd.streams && s.id == id }

  predicate ListsObserved(cd: Definition, id: StreamID) {
    !cd.tombstone && exists s :: s in cd.streams && s.id == id && s.aggregator != Calculated
  }

  predicate DeclaresStream(decode: Definition -> Facts, cd: Definition, id: StreamID) {
    !cd.tombstone && cd.format == AbiUnpackedExpr && id in decode(cd).calculatedIDs
  }

  lemma CostMembers(decode: Definition -> Facts, t: Tally, cd: Definition, s: Stream, id: StreamID)
    ensures s in Add(t, Cost(decode, cd)).pairs <==> s in t.pairs || AggregatesFor(cd, s)
    ensures id in Add(t, Cost(decode, cd)).ids <==> id in t.ids || Lists(cd, id)
    ensures id in Add(t, Cost(decode, cd)).observed <==> id in t.observed || ListsObserved(cd, id)
    ensures id in Add(t, Cost(decode, cd)).declared <==> id in t.declared || DeclaresStream(decode, cd, id)
  {
    hide IDs, ObservedIDs, AggregatedStreams;
    AggregatedMembers(cd.streams, s);
    IDMembers(cd.streams, id);
  }

  /** A pair is aggregated exactly when a live channel other than a backfill lists it with
      an aggregator that is neither unset nor calculated; a stream ID is counted, observed
      or declared exactly when a live channel lists it, lists it to be observed, or is an
      expression channel that declares it. */
  lemma {:induction false} TallyMembers(
    decode: Definition -> Facts, defs: map<ChannelID, Definition>, s: Stream, id: StreamID)
    ensures s in TallyOf(decode, defs).pairs <==> exists c :: c in defs && AggregatesFor(defs[c], s)
    ensures id in TallyOf(decode, defs).ids <==> exists c :: c in defs && Lists(defs[c], id)
    ensures id in TallyOf(decode, defs).observed <==> exists c :: c in defs && ListsObserved(defs[c], id)
    ensures id in TallyOf(decode, defs).declared <==> exists c :: c in defs && DeclaresStream(decode, defs[c], id)
    decreases |defs|
  {
    hide Cost, Add, AggregatesFor, Lists, ListsObserved, DeclaresStream;
    if defs != map[] {
      hide TallyOf;
      var k :| k in defs;
      assert (defs - {k}).Keys == defs.Keys - {k};
      TallyWithout(decode, defs, k);
      TallyMembers(decode, defs - {k}, s, id);
      CostMembers(decode, TallyOf(decode, defs - {k}), defs[k], s, id);
      assert forall c :: c in defs <==> c == k || c in defs - {k};
    }
  }

  // ------------------------------------------------------------------ clashes

  ghost function Support<T>(m: multiset<T>): set<T> { set x | x in m }

  /** Claims beyond each stream ID's first owner: the observing channels together
      are one owner, and each declaring expression is another. */
  ghost function Clashes(observed: multiset<StreamID>, declared: multiset<StreamID>): int {
    |declared| - |Free(Support(declared), Support(observed))|
  }

  /** Declared streams that nobody observes. */
  ghost function Free(declared: set<StreamID>, observed: set<StreamID>): set<StreamID> { declared - observed }

  function Excess(observed: nat, declared: nat): int {
    if declared == 0 then 0 else if observed > 0 then declared else declared - 1
  }

  lemma SupportPlus<T>(m: multiset<T>, x: T)
    ensures Support(m + multiset{x}) == Support(m) + {x}
  {
  }

  lemma SupportMinus<T>(m: multiset<T>, x: T)
    ensures Support(m - multiset{x}) == if m[x] <= 1 then Support(m) - {x} else Support(m)
  {
  }

  lemma SizeMinus<T>(m: multiset<T>, x: T)
    ensures |m - multiset{x}| == if x in m then |m| - 1 else |m|
  {
    if x in m {
      assert m == (m - multiset{x}) + multiset{x};
    } else {
      assert m - multiset{x} == m;
    }
  }

  lemma RemoveOne<T>(s: set<T>, x: T)
    ensures |s - {x}| == if x in s then |s| - 1 else |s|
    ensures |s + {x}| == if x in s then |s| else |s| + 1
  {
    if x in s {
      assert s == (s - {x}) + {x};
      assert s + {x} == s;
    } else {
      assert s - {x} == s;
    }
  }

  /** Adds the elements with a delta of 1, and takes them away with -1. */
  function Shift<T>(m: multiset<T>, xs: seq<T>, delta: int): multiset<T> {
    if delta == 1 then m + multiset(xs) else m - multiset(xs)
  }

  lemma ShiftOneMore<T>(m: multiset<T>, xs: seq<T>, x: T, delta: int)
    ensures Shift(Shift(m, xs, delta), [x], delta) == Shift(m, xs + [x], delta)
  {
  }

  /** What moving one element does to a multiset's support, size and multiplicity. */
  lemma ShiftOne(m: multiset<StreamID>, x: StreamID, delta: int)
    requires delta == 1 || delta == -1
    ensures var n := Shift(m, [x], delta);
            && n[x] == Max(m[x] + delta, 0)
            && Support(n) == (if delta == 1 then Support(m) + {x} else if m[x] <= 1 then Support(m) - {x}
                else Support(m))
            && |n| == (if delta == 1 then |m| + 1 else if m[x] > 0 then |m| - 1 else |m|)
            && (x in Support(m) <==> m[x] > 0)
  {
    assert multiset([x]) == multiset{x};
    if delta == 1 {
      SupportPlus(m, x);
    } else {
      SupportMinus(m, x);
      SizeMinus(m, x);
    }
  }

  lemma FreeChanges(d: set<StreamID>, o: set<StreamID>, x: StreamID)
    ensures Free(d, o + {x}) == (if x in d && x !in o then Free(d, o) - {x} else Free(d, o))
    ensures Free(d, o - {x}) == (if x in d && x in o then Free(d, o) + {x} else Free(d, o))
    ensures Free(d + {x}, o) == (if x !in d && x !in o then Free(d, o) + {x} else Free(d, o))
    ensures Free(d - {x}, o) == (if x in d && x !in o then Free(d, o) - {x} else Free(d, o))
    ensures x in Free(d, o) <==> x in d && x !in o
  {
  }

  /** Moving one observer changes the clashes by the excess of that stream only. */
  lemma ClashesObserved(observed: multiset<StreamID>, declared: multiset<StreamID>, x: StreamID, delta: int)
    requires delta == 1 || delta == -1
    ensures var o := Shift(observed, [x], delta);
            Clashes(o, declared) ==
              Clashes(observed, declared) - Excess(observed[x], declared[x]) + Excess(o[x], declared[x])
  {
    hide Shift, Support, Free;
    ShiftOne(observed, x, delta);
    ShiftOne(declared, x, 1);
    FreeChanges(Support(declared), Support(observed), x);
    RemoveOne(Free(Support(declared), Support(observed)), x);
  }

  lemma ClashesDeclared(observed: multiset<StreamID>, declared: multiset<StreamID>, x: StreamID, delta: int)
    requires delta == 1 || delta == -1
    ensures var d := Shift(declared, [x], delta);
            Clashes(observed, d) ==
              Clashes(observed, declared) - Excess(observed[x], declared[x]) + Excess(observed[x], d[x])
  {
    hide Shift, Support, Free;
    ShiftOne(declared, x, delta);
    ShiftOne(observed, x, 1);
    FreeChanges(Support(declared), Support(observed), x);
    RemoveOne(Free(Support(declared), Support(observed)), x);
  }
}
