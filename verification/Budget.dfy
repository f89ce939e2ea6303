/** The incrementally maintained budget of a set of channel definitions
    (llo/protocol/channel_definitions_budget.go). */
module Budgets {
  import opened Collections
  import opened Tallies

  // ---------------------------------------------------------- reference counts

  /** A reference count per key, holding no key that nothing refers to. */
  ghost predicate Counts<K(!new)>(m: map<K, int>, t: multiset<K>) {
    forall k :: (k in m <==> k in t) && (k in m ==> m[k] == t[k])
  }

  function CountOf<K>(m: map<K, int>, k: K): int { if k in m then m[k] else 0 }

  /** Adds delta to a count, dropping the key once nothing holds it. */
  function Counted<K>(m: map<K, int>, k: K, delta: int): map<K, int> {
    var n := CountOf(m, k) + delta;
    if n <= 0 then m - {k} else m[k := n]
  }

  lemma CountedCounts<K(!new)>(m: map<K, int>, t: multiset<K>, k: K, delta: int)
    requires Counts(m, t) && (delta == 1 || delta == -1)
    ensures Counts(Counted(m, k, delta), Shift(t, [k], delta))
  {
    var u := Shift(t, [k], delta);
    assert multiset([k]) == multiset{k};
    assert CountOf(m, k) == t[k];
  }

  /** The counts of a tally are unique: equal tallies have equal maps. */
  lemma CountsUnique<K(!new)>(m: map<K, int>, n: map<K, int>, t: multiset<K>)
    requires Counts(m, t) && Counts(n, t)
    ensures m == n
  {
    assert m.Keys == n.Keys;
  }

  lemma CountsSize<K(!new)>(m: map<K, int>, t: multiset<K>)
    requires Counts(m, t)
    ensures |m| == |Support(t)|
  {
    assert m.Keys == Support(t);
  }

  // ------------------------------------------------------------------- totals

  datatype Totals = Totals(
    streamEntries: int, optsBytes: int, aggregatedPairs: int, calculatedStreams: int,
    twapCalls: int, streamIDs: int, clashes: int)

  predicate GrowsPast(before: int, after: int, limit: int) { after > limit && after > before }

  predicate Grows(before: Totals, after: Totals) {
    || GrowsPast(before.streamEntries, after.streamEntries, MAX_STREAM_ENTRIES)
    || GrowsPast(before.optsBytes, after.optsBytes, MAX_OPTS_BYTES)
    || GrowsPast(before.aggregatedPairs, after.aggregatedPairs, MAX_AGGREGATED_PAIRS)
    || GrowsPast(before.calculatedStreams, after.calculatedStreams, MAX_CALCULATED_STREAMS)
    || GrowsPast(before.twapCalls, after.twapCalls, MAX_TWAP_CALLS)
    || GrowsPast(before.streamIDs, after.streamIDs, MAX_STREAM_IDS)
    || GrowsPast(before.clashes, after.clashes, 0)
  }

  /** A change is accepted as long as no total ends above both its limit and where it was. */
  predicate Accepts(before: Totals, after: Totals) {
    && after.streamEntries <= Max(before.streamEntries, 50_000)
    && after.optsBytes <= Max(before.optsBytes, 1024 * 1024)
    && after.aggregatedPairs <= Max(before.aggregatedPairs, 20_000)
    && after.calculatedStreams <= Max(before.calculatedStreams, 20_000)
    && after.twapCalls <= Max(before.twapCalls, 64)
    && after.streamIDs <= Max(before.streamIDs, 10_000)
    && after.clashes <= Max(before.clashes, 0)
  }

  lemma AcceptsIff(before: Totals, after: Totals)
    ensures Accepts(before, after) <==> !Grows(before, after)
  {
  }

  /** The pairs that live channels other than backfills have aggregated. */
  ghost function AggregatedBy(defs: map<ChannelID, Definition>): set<Stream> {
    set c, s | c in defs && s in defs[c].streams && AggregatesFor(defs[c], s) :: s
  }

  ghost function ListedBy(defs: map<ChannelID, Definition>): set<StreamID> {
    set c, s | c in defs && !defs[c].tombstone && s in defs[c].streams :: s.id
  }

  /** The totals that count distinct things count these. */
  lemma DistinctTotals(decode: Definition -> Facts, defs: map<ChannelID, Definition>)
    ensures TotalsOf(TallyOf(decode, defs)).aggregatedPairs == |AggregatedBy(defs)|
    ensures TotalsOf(TallyOf(decode, defs)).streamIDs == |ListedBy(defs)|
  {
    hide TallyOf, Clashes;
    var t := TallyOf(decode, defs);
    forall s ensures s in Support(t.pairs) <==> s in AggregatedBy(defs) {
      TallyMembers(decode, defs, s, 0);
    }
    forall id ensures id in Support(t.ids) <==> id in ListedBy(defs) {
      TallyMembers(decode, defs, Stream(0, Unset), id);
      if c :| c in defs && Lists(defs[c], id) {
        var s :| s in defs[c].streams && s.id == id;
      }
    }
    assert Support(t.pairs) == AggregatedBy(defs);
    assert Support(t.ids) == ListedBy(defs);
  }

  ghost function TotalsOf(t: Tally): Totals {
    Totals(t.entries, t.opts, |Support(t.pairs)|, t.declarations, t.twap, |Support(t.ids)|,
        Clashes(t.observed, t.declared))
  }

  /** What a definition set costs once `prev` is swapped for `next`. */
  function Swapped(decode: Definition -> Facts, t: Tally, prev: Option<Definition>, next: Definition): Tally {
    Add(if prev.Some? then Subtract(t, Cost(decode, prev.value)) else t, Cost(decode, next))
  }

  function Unswapped(decode: Definition -> Facts, t: Tally, prev: Option<Definition>, next: Definition): Tally {
    var without := Subtract(t, Cost(decode, next));
    if prev.Some? then Add(without, Cost(decode, prev.value)) else without
  }

  ghost predicate Contains(t: Tally, c: Tally) {
    c.pairs <= t.pairs && c.ids <= t.ids && c.observed <= t.observed && c.declared <= t.declared
  }

  /** Rolling a swap back restores the tally exactly when `prev` was part of it. */
  lemma RollbackRestores(decode: Definition -> Facts, t: Tally, prev: Option<Definition>, next: Definition)
    ensures Unswapped(decode, Swapped(decode, t, prev, next), prev, next) == t
       <==> prev.None? || Contains(t, Cost(decode, prev.value))
  {
    hide Cost;
    var base := if prev.Some? then Subtract(t, Cost(decode, prev.value)) else t;
    SubtractUndoesAdd(base, Cost(decode, next));
    if prev.Some? { AddUndoesSubtract(t, Cost(decode, prev.value)); }
  }

  lemma PutBack<T>(t: multiset<T>, c: multiset<T>)
    ensures (t - c) + c == t <==> c <= t
  {
    assert c <= (t - c) + c;
  }

  lemma AddUndoesSubtract(t: Tally, c: Tally)
    ensures Add(Subtract(t, c), c) == t <==> Contains(t, c)
  {
    PutBack(t.pairs, c.pairs);
    PutBack(t.ids, c.ids);
    PutBack(t.observed, c.observed);
    PutBack(t.declared, c.declared);
  }

  /** Every counter and reference-count map of a budget. */
  datatype BudgetFields = BudgetFields(
    streamEntries: int, optsBytes: int, calculatedStreams: int, twapCalls: int,
    aggregatedPairs: map<Stream, int>, streamIDs: map<StreamID, int>,
    observed: map<StreamID, int>, calculated: map<StreamID, int>, clashes: int)

  ghost predicate Measures(f: BudgetFields, t: Tally) {
    && f.streamEntries == t.entries && f.optsBytes == t.opts
    && f.calculatedStreams == t.declarations && f.twapCalls == t.twap
    && Counts(f.aggregatedPairs, t.pairs) && Counts(f.streamIDs, t.ids)
    && Counts(f.observed, t.observed) && Counts(f.calculated, t.declared)
    && f.clashes == Clashes(t.observed, t.declared)
  }

  /** The fields are a function of the measured set: neither the order it was built
      in nor the changes that led to it leave a trace. */
  lemma FieldsUnique(f: BudgetFields, g: BudgetFields, t: Tally)
    requires Measures(f, t) && Measures(g, t)
    ensures f == g
  {
    hide Counts, Clashes;
    CountsUnique(f.aggregatedPairs, g.aggregatedPairs, t.pairs);
    CountsUnique(f.streamIDs, g.streamIDs, t.ids);
    CountsUnique(f.observed, g.observed, t.observed);
    CountsUnique(f.calculated, g.calculated, t.declared);
  }

  function Moved(decode: Definition -> Facts, t: Tally, cd: Definition, delta: int): Tally {
    if delta == 1 then Add(t, Cost(decode, cd)) else Subtract(t, Cost(decode, cd))
  }

  lemma MovedParts(decode: Definition -> Facts, t: Tally, cd: Definition, delta: int)
    requires delta == 1 || delta == -1
    ensures var m, facts := Moved(decode, t, cd, delta), DeriveFacts(decode, cd);
            && m.entries == t.entries + delta * |cd.streams| && m.opts == t.opts + delta * |cd.opts|
            && m.pairs == Shift(t.pairs, AggregatedPairs(cd), delta)
            && m == if cd.tombstone then t.(entries := m.entries, opts := m.opts, pairs := m.pairs)
                    else Tally(m.entries, m.opts, t.declarations + delta * |facts.calculatedIDs|,
                               t.twap + delta * facts.twapCalls, m.pairs,
                               Shift(t.ids, IDs(cd.streams), delta), Shift(t.observed, ObservedIDs(cd.streams), delta),
                               Shift(t.declared, facts.calculatedIDs, delta))
  {
    hide IDs, ObservedIDs, AggregatedStreams, DeriveFacts;
    if cd.tombstone { MovedTombstone(decode, t, cd, delta); }
  }

  lemma Nothing<T>(m: multiset<T>)
    ensures m + multiset{} == m && m - multiset{} == m
  {
  }

  lemma SizesOnly(t: Tally, entries: int, opts: int)
    ensures Add(t, ZERO.(entries := entries, opts := opts)) == t.(entries := t.entries + entries, opts := t.opts + opts)
    ensures Subtract(t, ZERO.(entries := entries, opts := opts)) ==
            t.(entries := t.entries - entries, opts := t.opts - opts)
  {
    Nothing(t.pairs);
    Nothing(t.ids);
    Nothing(t.observed);
    Nothing(t.declared);
  }

  lemma MovedTombstone(decode: Definition -> Facts, t: Tally, cd: Definition, delta: int)
    requires (delta == 1 || delta == -1) && cd.tombstone
    ensures Moved(decode, t, cd, delta) ==
            t.(entries := t.entries + delta * |cd.streams|, opts := t.opts + delta * |cd.opts|)
    ensures Shift(t.pairs, AggregatedPairs(cd), delta) == t.pairs
  {
    hide AggregatedStreams, IDs, ObservedIDs, DeriveFacts, Add, Subtract;
    SizesOnly(t, |cd.streams|, |cd.opts|);
    Nothing(t.pairs);
    assert multiset(AggregatedPairs(cd)) == multiset{};
  }

  class ChannelDefinitionsBudget {
    const decode: Definition -> Facts
    var streamEntries: int
    var optsBytes: int
    var calculatedStreams: int
    var twapCalls: int
    var aggregatedPairs: map<Stream, int>
    var streamIDs: map<StreamID, int>
    var observed: map<StreamID, int>
    var calculated: map<StreamID, int>
    var clashes: int

    ghost var tally: Tally

    ghost predicate Valid()
      reads this
    {
      && Sums() && Counts(aggregatedPairs, tally.pairs)
      && Owners(tally.ids, tally.observed, tally.declared)
    }

    ghost predicate Sums()
      reads this`streamEntries, this`optsBytes, this`calculatedStreams, this`twapCalls, this`tally
    {
      && streamEntries == tally.entries && optsBytes == tally.opts
      && calculatedStreams == tally.declarations && twapCalls == tally.twap
    }

    ghost predicate Owners(i: multiset<StreamID>, o: multiset<StreamID>, d: multiset<StreamID>)
      reads this`streamIDs, this`observed, this`calculated, this`clashes
    {
      && Counts(streamIDs, i) && Counts(observed, o) && Counts(calculated, d)
      && clashes == Clashes(o, d)
    }

    /** Claims on a stream ID beyond its first owner. */
    function ExcessClaims(id: StreamID): int
      reads this`observed, this`calculated
    {
      var declared := CountOf(calculated, id);
      if declared == 0 then 0 else if CountOf(observed, id) > 0 then declared else declared - 1
    }

    method OwnObserved(
      id: StreamID, delta: int, ghost i: multiset<StreamID>, ghost o: multiset<StreamID>, ghost d: multiset<StreamID>)
      requires Owners(i, o, d) && (delta == 1 || delta == -1)
      modifies this`observed, this`clashes
      ensures Owners(i, Shift(o, [id], delta), d)
    {
      hide Shift, Counts, Clashes, Counted;
      CountsAt(observed, o, id);
      CountsAt(calculated, d, id);
      ClashesObserved(o, d, id, delta);
      CountedCounts(observed, o, id, delta);
      clashes := clashes - ExcessClaims(id);
      observed := Counted(observed, id, delta);
      CountsAt(observed, Shift(o, [id], delta), id);
      clashes := clashes + ExcessClaims(id);
    }

    method OwnCalculated(
      id: StreamID, delta: int, ghost i: multiset<StreamID>, ghost o: multiset<StreamID>, ghost d: multiset<StreamID>)
      requires Owners(i, o, d) && (delta == 1 || delta == -1)
      modifies this`calculated, this`clashes
      ensures Owners(i, o, Shift(d, [id], delta))
    {
      hide Shift, Counts, Clashes, Counted;
      CountsAt(observed, o, id);
      CountsAt(calculated, d, id);
      ClashesDeclared(o, d, id, delta);
      CountedCounts(calculated, d, id, delta);
      clashes := clashes - ExcessClaims(id);
      calculated := Counted(calculated, id, delta);
      CountsAt(calculated, Shift(d, [id], delta), id);
      clashes := clashes + ExcessClaims(id);
    }

    method CountPairs(pairs: seq<Stream>, delta: int, ghost t: multiset<Stream>)
      requires Counts(aggregatedPairs, t) && (delta == 1 || delta == -1)
      modifies this`aggregatedPairs
      ensures Counts(aggregatedPairs, Shift(t, pairs, delta))
    {
      hide Counts, Counted;
      assert Shift(t, pairs[..0], delta) == t;
      for n := 0 to |pairs|
        invariant Counts(aggregatedPairs, Shift(t, pairs[..n], delta))
      {
        hide Shift;
        CountedCounts(aggregatedPairs, Shift(t, pairs[..n], delta), pairs[n], delta);
        ShiftOneMore(t, pairs[..n], pairs[n], delta);
        assert pairs[..n] + [pairs[n]] == pairs[..n + 1];
        aggregatedPairs := Counted(aggregatedPairs, pairs[n], delta);
      }
      assert pairs[..|pairs|] == pairs;
    }

    /** Counts one listed stream ID and, unless it is calculated, its observer. */
    method CountStream(
      strm: Stream, delta: int, ghost i: multiset<StreamID>, ghost o: multiset<StreamID>, ghost d: multiset<StreamID>)
      requires Owners(i, o, d) && (delta == 1 || delta == -1)
      modifies this`streamIDs, this`observed, this`clashes
      ensures Owners(Shift(i, [strm.id], delta),
                     if strm.aggregator.Calculated? then o else Shift(o, [strm.id], delta), d)
    {
      hide Counts, Counted, Clashes, Shift;
      CountedCounts(streamIDs, i, strm.id, delta);
      streamIDs := Counted(streamIDs, strm.id, delta);
      if !strm.aggregator.Calculated? {
        OwnObserved(strm.id, delta, Shift(i, [strm.id], delta), o, d);
      }
    }

    /** Counts the listed streams of a definition. */
    method CountStreams(
      streams: seq<Stream>, delta: int, ghost i: multiset<StreamID>, ghost o: multiset<StreamID>,
      ghost d: multiset<StreamID>)
      requires Owners(i, o, d) && (delta == 1 || delta == -1)
      modifies this`streamIDs, this`observed, this`clashes
      ensures Owners(Shift(i, IDs(streams), delta), Shift(o, ObservedIDs(streams), delta), d)
    {
      hide Counts, Clashes, Shift, IDs, ObservedIDs;
      ShiftNone(i, o, streams, delta);
      for n := 0 to |streams|
        invariant Owners(Shift(i, IDs(streams[..n]), delta), Shift(o, ObservedIDs(streams[..n]), delta), d)
      {
        ShiftNext(i, o, streams, delta, n);
        CountStream(streams[n], delta, Shift(i, IDs(streams[..n]), delta),
                    Shift(o, ObservedIDs(streams[..n]), delta), d);
      }
      assert streams[..|streams|] == streams;
    }

    method CountDeclared(
      ids: seq<StreamID>, delta: int, ghost i: multiset<StreamID>, ghost o: multiset<StreamID>,
      ghost d: multiset<StreamID>)
      requires Owners(i, o, d) && (delta == 1 || delta == -1)
      modifies this`calculated, this`clashes
      ensures Owners(i, o, Shift(d, ids, delta))
    {
      hide Counts, Clashes;
      assert Shift(d, ids[..0], delta) == d;
      for n := 0 to |ids|
        invariant Owners(i, o, Shift(d, ids[..n], delta))
      {
        hide Shift;
        ShiftOneMore(d, ids[..n], ids[n], delta);
        assert ids[..n] + [ids[n]] == ids[..n + 1];
        OwnCalculated(ids[n], delta, i, o, Shift(d, ids[..n], delta));
      }
      assert ids[..|ids|] == ids;
    }

    /** Adds a definition to the measured set with a delta of 1, and removes it with -1. */
    method Apply(cd: Definition, delta: int)
      requires Valid() && (delta == 1 || delta == -1)
      modifies this
      ensures Valid() && tally == Moved(decode, old(tally), cd, delta)
    {
      hide Counts, Clashes, Moved, Shift, AggregatedPairs, IDs, ObservedIDs, DeriveFacts;
      ghost var t := tally;
      MovedParts(decode, t, cd, delta);
      tally := Moved(decode, t, cd, delta);
      streamEntries := streamEntries + delta * |cd.streams|;
      optsBytes := optsBytes + delta * |cd.opts|;
      CountPairs(AggregatedPairs(cd), delta, t.pairs);
      if cd.tombstone {
        return;
      }
      CountStreams(cd.streams, delta, t.ids, t.observed, t.declared);
      var facts := DeriveFacts(decode, cd);
      twapCalls := twapCalls + delta * facts.twapCalls;
      calculatedStreams := calculatedStreams + delta * |facts.calculatedIDs|;
      CountDeclared(facts.calculatedIDs, delta, tally.ids, tally.observed, t.declared);
    }

    function Fields(): BudgetFields
      reads this
    {
      BudgetFields(streamEntries, optsBytes, calculatedStreams, twapCalls, aggregatedPairs, streamIDs, observed,
          calculated, clashes)
    }

    lemma ValidMeasures()
      requires Valid()
      ensures Measures(Fields(), tally)
    {
    }

    lemma OnlyFields()
      requires Valid()
      ensures forall f :: Measures(f, tally) ==> f == Fields()
    {
      hide Measures;
      ValidMeasures();
      forall f | Measures(f, tally) ensures f == Fields() {
        FieldsUnique(f, Fields(), tally);
      }
    }

    function CurrentTotals(): Totals
      reads this
    {
      Totals(streamEntries, optsBytes, |aggregatedPairs|, calculatedStreams, twapCalls, |streamIDs|, clashes)
    }

    lemma TotalsMatch()
      requires Valid()
      ensures CurrentTotals() == TotalsOf(tally)
    {
      CountsSize(aggregatedPairs, tally.pairs);
      CountsSize(streamIDs, tally.ids);
    }

    /** Measures a set, visiting its channels in whatever order the map yields. */
    constructor (f: Definition -> Facts, defs: map<ChannelID, Definition>)
      ensures Valid() && decode == f && tally == TallyOf(f, defs)
    {
      decode := f;
      streamEntries, optsBytes, calculatedStreams, twapCalls, clashes := 0, 0, 0, 0, 0;
      aggregatedPairs, streamIDs, observed, calculated := map[], map[], map[], map[];
      tally := ZERO;
      new;
      ZeroClashes();
      AddAll(defs);
    }

    method AddAll(defs: map<ChannelID, Definition>)
      requires Valid() && tally == ZERO
      modifies this
      ensures Valid() && tally == TallyOf(decode, defs)
    {
      hide TallyOf, Cost, Add, Subtract, Counts, Clashes;
      var rest := defs.Keys;
      NothingMeasured(decode, defs);
      while rest != {}
        invariant Valid() && rest <= defs.Keys
        invariant tally == TallyOf(decode, defs - rest)
        decreases |rest|
      {
        var c :| c in rest;
        TallySet(decode, defs - rest, c, defs[c]);
        DrainStep(defs, rest, c);
        Apply(defs[c], 1);
        rest := rest - {c};
      }
      assert defs - {} == defs;
    }

    /** Swaps `prev` for `next`, unless that grows a total past its budget. */
    method Replace(prev: Option<Definition>, next: Definition) returns (ok: bool)
      requires Valid()
      modifies this
      ensures Valid()
      ensures ok == !Grows(TotalsOf(old(tally)), TotalsOf(Swapped(decode, old(tally), prev, next)))
      ensures ok <==> Accepts(TotalsOf(old(tally)), TotalsOf(Swapped(decode, old(tally), prev, next)))
      ensures tally == if ok then Swapped(decode, old(tally), prev, next)
                       else Unswapped(decode, Swapped(decode, old(tally), prev, next), prev, next)
      ensures !ok && (prev.Some? ==> Contains(old(tally), Cost(decode, prev.value))) ==>
                tally == old(tally) && Fields() == old(Fields())
    {
      hide Cost, Add, Subtract, Counts, Clashes, Grows, Accepts, TotalsOf, Contains, Measures;
      ghost var t, fields := tally, Fields();
      RollbackRestores(decode, t, prev, next);
      AcceptsIff(TotalsOf(t), TotalsOf(Swapped(decode, t, prev, next)));
      ValidMeasures();
      var before := CurrentTotals();
      TotalsMatch();
      if prev.Some? {
        Apply(prev.value, -1);
      }
      Apply(next, 1);
      TotalsMatch();
      if Grows(before, CurrentTotals()) {
        Apply(next, -1);
        if prev.Some? {
          Apply(prev.value, 1);
        }
        ValidMeasures();
        if tally == t { FieldsUnique(fields, Fields(), t); }
        return false;
      }
      ok := true;
    }
  }

  lemma ShiftNone(i: multiset<StreamID>, o: multiset<StreamID>, streams: seq<Stream>, delta: int)
    ensures Shift(i, IDs(streams[..0]), delta) == i && Shift(o, ObservedIDs(streams[..0]), delta) == o
  {
  }

  lemma ShiftNext(i: multiset<StreamID>, o: multiset<StreamID>, streams: seq<Stream>, delta: int, n: nat)
    requires n < |streams|
    ensures Shift(i, IDs(streams[..n + 1]), delta) == Shift(Shift(i, IDs(streams[..n]), delta), [streams[n].id], delta)
    ensures var before := Shift(o, ObservedIDs(streams[..n]), delta);
            Shift(o, ObservedIDs(streams[..n + 1]), delta) ==
            if streams[n].aggregator.Calculated? then before else Shift(before, [streams[n].id], delta)
  {
    hide Shift;
    assert streams[..n + 1][..n] == streams[..n];
    ShiftOneMore(i, IDs(streams[..n]), streams[n].id, delta);
    ShiftOneMore(o, ObservedIDs(streams[..n]), streams[n].id, delta);
    assert ObservedIDs(streams[..n]) + [] == ObservedIDs(streams[..n]);
  }

  lemma DrainStep<V>(m: map<ChannelID, V>, rest: set<ChannelID>, c: ChannelID)
    requires c in rest && rest <= m.Keys
    ensures c !in m - rest && (m - rest)[c := m[c]] == m - (rest - {c})
  {
  }

  lemma NothingMeasured(decode: Definition -> Facts, defs: map<ChannelID, Definition>)
    ensures TallyOf(decode, defs - defs.Keys) == ZERO
  {
    assert defs - defs.Keys == map[];
  }

  lemma ZeroClashes()
    ensures Clashes(multiset{}, multiset{}) == 0
  {
  }

  lemma CountsAt<K(!new)>(m: map<K, int>, t: multiset<K>, k: K)
    requires Counts(m, t)
    ensures CountOf(m, k) == t[k]
  {
  }

  // --------------------------------------------------------------------- runs

  datatype Change = Change(channel: ChannelID, next: Definition)

  ghost predicate Refused(decode: Definition -> Facts, defs: map<ChannelID, Definition>, change: Change) {
    Grows(TotalsOf(TallyOf(decode, defs)), TotalsOf(TallyOf(decode, defs[change.channel := change.next])))
  }

  /** The set a run of requested changes leaves, each judged by recomputation. */
  ghost function AfterChanges(
    decode: Definition -> Facts, defs: map<ChannelID, Definition>, changes: seq<Change>): map<ChannelID, Definition>
  {
    if changes == [] then defs
    else
      var before, last := AfterChanges(decode, defs, changes[..|changes| - 1]), changes[|changes| - 1];
      if Refused(decode, before, last) then before else before[last.channel := last.next]
  }

  function Current(defs: map<ChannelID, Definition>, c: ChannelID): Option<Definition> {
    if c in defs then Some(defs[c]) else None
  }

  lemma SwappedIsRecomputed(
    decode: Definition -> Facts, defs: map<ChannelID, Definition>, c: ChannelID, next: Definition)
    ensures Swapped(decode, TallyOf(decode, defs), Current(defs, c), next) == TallyOf(decode, defs[c := next])
    ensures c in defs ==> Contains(TallyOf(decode, defs), Cost(decode, defs[c]))
  {
    hide Cost, TallyOf;
    TallySet(decode, defs, c, next);
    if c in defs { TallyWithout(decode, defs, c); }
  }

  method ChangeOne(budget: ChannelDefinitionsBudget, defs: map<ChannelID, Definition>, change: Change)
    returns (out: map<ChannelID, Definition>)
    requires budget.Valid() && budget.tally == TallyOf(budget.decode, defs)
    modifies budget
    ensures budget.Valid() && budget.tally == TallyOf(budget.decode, out)
    ensures out == if Refused(budget.decode, defs, change) then defs else defs[change.channel := change.next]
  {
    hide TallyOf, Cost, Swapped, Contains, TotalsOf, Grows, Counts, Clashes, Unswapped;
    SwappedIsRecomputed(budget.decode, defs, change.channel, change.next);
    var ok := budget.Replace(Current(defs, change.channel), change.next);
    out := if ok then defs[change.channel := change.next] else defs;
  }

  /** Applies requested changes to a measured set one after another. Afterwards the
      budget's fields are those of a budget built from the resulting set. */
  method RunChanges(budget: ChannelDefinitionsBudget, defs: map<ChannelID, Definition>, changes: seq<Change>)
    returns (out: map<ChannelID, Definition>)
    requires budget.Valid() && budget.tally == TallyOf(budget.decode, defs)
    modifies budget
    ensures budget.Valid() && budget.tally == TallyOf(budget.decode, out)
    ensures out == AfterChanges(budget.decode, defs, changes)
    ensures forall f :: Measures(f, TallyOf(budget.decode, out)) ==> f == budget.Fields()
  {
    hide TallyOf, Refused, Counts, Clashes, Measures;
    out := defs;
    for i := 0 to |changes|
      invariant budget.Valid() && budget.tally == TallyOf(budget.decode, out)
      invariant out == AfterChanges(budget.decode, defs, changes[..i])
    {
      assert changes[..i + 1][..i] == changes[..i];
      out := ChangeOne(budget, out, changes[i]);
    }
    assert changes[..|changes|] == changes;
    budget.OnlyFields();
  }

  predicate Within(t: Totals) {
    && t.streamEntries <= MAX_STREAM_ENTRIES && t.optsBytes <= MAX_OPTS_BYTES
    && t.aggregatedPairs <= MAX_AGGREGATED_PAIRS && t.calculatedStreams <= MAX_CALCULATED_STREAMS
    && t.twapCalls <= MAX_TWAP_CALLS && t.streamIDs <= MAX_STREAM_IDS && t.clashes <= 0
  }

  lemma NotGrownTransitive(a: Totals, b: Totals, c: Totals)
    requires !Grows(a, b) && !Grows(b, c)
    ensures !Grows(a, c)
  {
  }

  /** Over every run, no total ever ends above both its limit and its start, so a
      set within every budget stays within all of them. */
  lemma {:induction false} RunsNeverGrow(
    decode: Definition -> Facts, defs: map<ChannelID, Definition>, changes: seq<Change>)
    ensures var before, after := TotalsOf(TallyOf(decode, defs)),
              TotalsOf(TallyOf(decode, AfterChanges(decode, defs, changes)));
            !Grows(before, after) && (Within(before) ==> Within(after))
  {
    hide TallyOf, TotalsOf;
    if changes != [] {
      var init := changes[..|changes| - 1];
      RunsNeverGrow(decode, defs, init);
      if !Refused(decode, AfterChanges(decode, defs, init), changes[|changes| - 1]) {
        NotGrownTransitive(TotalsOf(TallyOf(decode, defs)), TotalsOf(TallyOf(decode, AfterChanges(decode, defs, init))),
                           TotalsOf(TallyOf(decode, AfterChanges(decode, defs, changes))));
      }
    }
  }
}
