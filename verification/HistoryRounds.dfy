/** One history round of the state transition (llo/dev/v31/statetransition.go).

    A round admits pairs, sets their depths, appends the agreed values, serves
    reads and flushes. `PairHolds` says what well-formed storage of one pair means;
    a round takes it from each window to the next one, whatever other pairs hold. */
module HistoryRounds {
  import opened Collections
  import opened HistoryLayout
  import opened HistoryTracking
  import opened HistoryRing
  import opened KeyValueStates
  import opened HistoryStores
  import opened HistoryRequirements

  datatype Agreed = Agreed(pair: Pair, record: Record)

  datatype Request = Request(pair: Pair, count: nat)

  /** What a round of the state transition feeds the history store. */
  datatype RoundInput = RoundInput(required: map<Pair, nat>, agreed: seq<Agreed>, requests: seq<Request>)

  datatype RoundOutput = RoundOutput(
    data: Data, answers: seq<Result<seq<Record>, HistoryError>>, depths: map<Pair, nat>, denied: seq<Pair>,
    corrupt: set<Pair>, readKeys: seq<Key>, writtenKeys: seq<Key>, deletedKeys: seq<Key>)

  datatype RoundError = IndexTooLong | DepthRejected | AppendFailed(error: HistoryError)

  function Get(windows: map<Pair, Window>, k: Pair): Window { if k in windows then windows[k] else EMPTY_WINDOW }

  function DepthIn(depths: map<Pair, nat>, k: Pair): nat { if k in depths then depths[k] else 0 }

  function Incumbents(data: Data): set<Pair> { set k | k in IndexOf(data) }

  // ---------------------------------------------------- well-formed storage

  /** A pair's keys are exactly those of window `w`; an unindexed pair has none. */
  ghost predicate PairHolds(data: Data, k: Pair, w: Window) {
    if k in IndexOf(data) then CellHolds(CellOf(data, k), w) && w.depth > 0
    else CellOf(data, k) == EMPTY_CELL && w == EMPTY_WINDOW
  }

  /** Index, stored headers and windows coincide, each window's slots are exactly
      its retained chunks, and nothing else is stored. */
  ghost predicate Represents(data: Data, windows: map<Pair, Window>) {
    && SortedPairs(IndexOf(data), windows.Keys)
    && |windows.Keys| <= MAX_PAIRS
    && (windows.Keys != {} ==> VersionOf(data) == LAYOUT_VERSION)
    && (forall k :: PairHolds(data, k, Get(windows, k)))
  }

  /** Nothing has been stored yet. */
  lemma EmptyStoreRepresentsNothing()
    ensures Represents(map[], map[])
  {
  }

  // -------------------------------------------------------- the round, closed

  function AppendAll(w: Window, records: seq<Record>): Window {
    if records == [] then w
    else AppendTo(AppendAll(w, records[..|records| - 1]), records[|records| - 1])
  }

  function RecordsOf(agreed: seq<Agreed>, k: Pair): seq<Record> {
    if agreed == [] then []
    else
      RecordsOf(agreed[..|agreed| - 1], k) +
      if agreed[|agreed| - 1].pair == k then [agreed[|agreed| - 1].record] else []
  }

  /** An admitted window takes its depth and then the round's agreed value. */
  function NextWindow(w: Window, depth: nat, agreed: seq<Agreed>, k: Pair): Window {
    AppendAll(SetDepth(w, depth), RecordsOf(agreed, k))
  }

  predicate OncePerPair(agreed: seq<Agreed>) {
    forall i, j :: 0 <= i < j < |agreed| ==> agreed[i].pair != agreed[j].pair
  }

  lemma {:induction false} NotYetAgreed(agreed: seq<Agreed>, k: Pair)
    requires forall i :: 0 <= i < |agreed| ==> agreed[i].pair != k
    ensures RecordsOf(agreed, k) == []
  {
    if agreed != [] { NotYetAgreed(agreed[..|agreed| - 1], k); }
  }

  /** How far a round has come: depths set on `keys`, then values appended. */
  datatype Phase = Phase(base: map<Pair, Window>, depths: map<Pair, nat>, keys: set<Pair>, agreed: seq<Agreed>)

  function Expected(p: Phase, k: Pair): Window {
    AppendAll(if k in p.keys then SetDepth(Get(p.base, k), DepthIn(p.depths, k)) else Get(p.base, k),
              if k in p.depths then RecordsOf(p.agreed, k) else [])
  }

  lemma ExpectedSet(p: Phase, k: Pair)
    requires p.agreed == [] && k !in p.keys
    ensures var q := p.(keys := p.keys + {k});
            && Expected(q, k) == SetDepth(Expected(p, k), DepthIn(p.depths, k))
            && forall j :: j != k ==> Expected(q, j) == Expected(p, j)
  {
  }

  lemma ExpectedAppend(p: Phase, a: Agreed)
    ensures var q := p.(agreed := p.agreed + [a]);
            && Expected(q, a.pair) ==
               (if a.pair in p.depths then AppendTo(Expected(p, a.pair), a.record) else Expected(p, a.pair))
            && forall j :: j != a.pair ==> Expected(q, j) == Expected(p, j)
  {
    hide RecordsOf;
    OtherRecords(p.agreed, a);
    var records := RecordsOf(p.agreed, a.pair) + [a.record];
    assert records[..|records| - 1] == RecordsOf(p.agreed, a.pair);
  }

  // ------------------------------------------------------------- being in step

  /** What a store holds at one moment, by value. */
  datatype Snapshot = Snapshot(
    data: Data, windows: map<Pair, Working>, required: map<Pair, nat>, known: map<Pair, Window>, corrupt: set<Pair>)

  ghost function Snap(store: HistoryStore): Snapshot
    reads store, store.kv`data
  {
    Snapshot(store.kv.data, store.windows, store.required, store.known, store.corrupt)
  }

  ghost predicate SoundAt(s: Snapshot, k: Pair) {
    if k in s.known then |s.known[k].log| <= MAX_UINT64 else k !in s.windows && CellOf(s.data, k) == EMPTY_CELL
  }

  /** Every good pair means the window the phase expects, and none was discarded. */
  ghost predicate InStep(s: Snapshot, p: Phase, good: iset<Pair>) {
    forall k :: k in good ==> SoundAt(s, k) && Get(s.known, k) == Expected(p, k) && k !in s.corrupt
  }

  ghost predicate DepthHeld(s: Snapshot, k: Pair, depth: nat) {
    && k in s.windows && s.windows[k].header.requiredCount == depth
    && DepthIn(s.required, k) == depth
  }

  /** Depths set so far stay set, and no other discarded pair asks for a window. */
  ghost predicate Held(s: Snapshot, p: Phase) {
    && (forall k :: k in p.keys ==> DepthIn(p.depths, k) <= MAX_DEPTH && DepthHeld(s, k, DepthIn(p.depths, k)))
    && (forall k :: k !in p.keys ==> DepthIn(s.required, k) == 0)
    && (forall k :: k in s.corrupt && k !in p.keys && k in s.windows ==> DepthHeld(s, k, 0))
  }

  ghost predicate AllGood(good: iset<Pair>) { forall k: Pair :: k in good }

  ghost predicate Progress(store: HistoryStore, p: Phase, good: iset<Pair>)
    reads store, store.kv
  {
    && store.Valid() && Held(Snap(store), p) && InStep(Snap(store), p, good) && Traced(Snap(store), p)
    && (AllGood(good) ==> ReadOnce(store.kv.readKeys, store.windows))
  }

  /** Nothing was loaded or appended yet. */
  ghost predicate Early(store: HistoryStore, p: Phase)
    reads store, store.kv
  {
    AllUntouched(store.windows) && AsStored(store.kv.data, store.windows, p)
  }

  ghost predicate AllUntouched(windows: map<Pair, Working>) {
    forall k :: k in windows ==> Untouched(windows[k])
  }

  /** Two states of a store that differ at one pair only. */
  ghost predicate OnlyAt(a: Snapshot, b: Snapshot, k: Pair) {
    && b.data == a.data
    && b.windows - {k} == a.windows - {k}
    && b.known - {k} == a.known - {k}
    && b.corrupt - {k} == a.corrupt - {k}
    && b.required - {k} == a.required - {k}
  }

  lemma SameElsewhere<V>(a: map<Pair, V>, b: map<Pair, V>, k: Pair)
    requires a - {k} == b - {k}
    ensures forall j :: j != k ==> (j in a <==> j in b)
    ensures forall j :: j != k && j in a ==> j in b && a[j] == b[j]
  {
    forall j | j != k ensures j in a <==> j in b {
      assert j in a - {k} <==> j in b - {k};
    }
    forall j | j != k && j in a ensures j in b && a[j] == b[j] {
      assert j in a - {k} <==> j in b - {k};
      assert (a - {k})[j] == (b - {k})[j];
    }
  }

  lemma StepInStep(a: Snapshot, b: Snapshot, p: Phase, q: Phase, good: iset<Pair>, k: Pair)
    requires InStep(a, p, good) && OnlyAt(a, b, k)
    requires forall j :: j != k ==> Expected(q, j) == Expected(p, j)
    requires k in good ==>
               && k in b.known && b.known[k] == Expected(q, k) && |b.known[k].log| <= MAX_UINT64 && k !in b.corrupt
    ensures InStep(b, q, good)
  {
    hide CellOf, Expected;
    SameElsewhere(b.known, a.known, k);
    SameElsewhere(b.windows, a.windows, k);
    forall j | j in good && j != k ensures j !in b.corrupt {
      assert j in b.corrupt - {k} <==> j in a.corrupt - {k};
    }
  }

  lemma StepHeld(a: Snapshot, b: Snapshot, p: Phase, q: Phase, k: Pair)
    requires Held(a, p) && OnlyAt(a, b, k)
    requires q.depths == p.depths && p.keys <= q.keys <= p.keys + {k}
    requires k in q.keys ==> DepthIn(q.depths, k) <= MAX_DEPTH && DepthHeld(b, k, DepthIn(q.depths, k))
    requires k !in q.keys ==> DepthIn(b.required, k) == 0 && (k in b.corrupt && k in b.windows ==> DepthHeld(b, k, 0))
    ensures Held(b, q)
  {
    SameElsewhere(b.windows, a.windows, k);
    SameElsewhere(b.required, a.required, k);
    forall j | j in b.corrupt && j != k ensures j in a.corrupt {
      assert j in b.corrupt - {k} <==> j in a.corrupt - {k};
    }
    forall j | j in q.keys && j != k ensures DepthHeld(b, j, DepthIn(q.depths, j)) {
      assert DepthHeld(a, j, DepthIn(p.depths, j));
    }
    forall j | j in b.corrupt && j !in q.keys && j in b.windows && j != k ensures DepthHeld(b, j, 0) {
      assert DepthHeld(a, j, 0);
    }
  }

  lemma InStepAt(store: HistoryStore, p: Phase, good: iset<Pair>, k: Pair)
    requires InStep(Snap(store), p, good) && k in good
    ensures store.Sound(k) && store.Current(k) == Expected(p, k) && k !in store.corrupt
    ensures |Expected(p, k).log| <= MAX_UINT64
  {
    assert SoundAt(Snap(store), k);
  }

  lemma WindowsOnlyAt(a: Snapshot, b: Snapshot, k: Pair)
    requires b.data == a.data && k in b.windows && b.windows == a.windows[k := b.windows[k]]
    requires b.known - {k} == a.known - {k} && b.corrupt - {k} == a.corrupt - {k}
    requires b.required == a.required || (k in b.required && b.required == a.required[k := b.required[k]])
    ensures OnlyAt(a, b, k)
    ensures AllUntouched(a.windows) && Untouched(b.windows[k]) ==> AllUntouched(b.windows)
  {
    hide Untouched;
  }

  lemma UntouchedAt(windows: map<Pair, Working>, k: Pair)
    requires AllUntouched(windows)
    ensures k in windows ==> Untouched(windows[k]) && windows[k].dirtyChunk.None?
  {
  }

  // -------------------------------------------------- whatever storage holds

  /** A stored layout of another version counts for nothing. */
  predicate Abandoned(data: Data, k: Pair) { VersionOf(data) != LAYOUT_VERSION && k in IndexOf(data) }

  /** The header key holds something that does not decode to a header. */
  ghost predicate Junk(data: Data, k: Pair) { HeaderReading(Lookup(data, HeaderKey(k))).Err? && !Abandoned(data, k) }

  /** The working copy of a pair once its depth is set. */
  ghost function Prepared(data: Data, k: Pair, n: nat): Working
    requires n <= MAX_DEPTH
  {
    OpenedFromOk(data, k, n);
    WithDepth(if Abandoned(data, k) then ResetCopy() else OpenedFrom(data, k, n), n)
  }

  lemma PreparedOk(data: Data, k: Pair, n: nat)
    requires n <= MAX_DEPTH
    ensures Consistent(Prepared(data, k, n)) && HeaderShape(Prepared(data, k, n).header)
    ensures Untouched(Prepared(data, k, n)) && Prepared(data, k, n).header.requiredCount == n
  {
    hide Consistent, OpenedFrom, WithDepth, HeaderShape, ResetCopy, Evicted, Retains;
    OpenedFromOk(data, k, n);
    ResetMeans(data, k, 0);
    var s := if Abandoned(data, k) then ResetCopy() else OpenedFrom(data, k, n);
    assert Consistent(s) && Untouched(s);
    ConsistentShape(s);
    WithDepthConsistent(s, n);
    WithDepthKeepsUntouched(s, n);
    ConsistentShape(WithDepth(s, n));
  }

  lemma ConsistentShape(s: Working)
    requires Consistent(s)
    ensures HeaderShape(s.header)
  {
  }

  /** The newest chunk's slot holds another chunk that matches the header. */
  ghost predicate TailElsewhere(data: Data, k: Pair, h: Header)
    requires HeaderShape(h) && h.counts != []
  {
    match ChunkReading(Lookup(data, ChunkKey(k, Slot(TailSequence(h)))))
    case Ok(Some(c)) => Matches(h, c) && c.sequence != TailSequence(h)
    case _ => false
  }

  /** The one way stored bytes can fail an append: the header decodes, with its new depth
      the newest chunk has room for a record that is newer and fits, and the slot that
      chunk belongs in holds another one the header accepts. */
  ghost predicate Displaced(data: Data, k: Pair, n: nat, r: Record)
    requires n <= MAX_DEPTH
  {
    PreparedOk(data, k, n);
    var h := Prepared(data, k, n).header;
    && !Abandoned(data, k) && HeaderReading(Lookup(data, HeaderKey(k))).Ok?
    && TailHasRoom(h) && MayStore(h, r) && RecordBytes(r) <= MAX_RECORD_BYTES
    && TailElsewhere(data, k, h)
  }

  lemma PreparedTail(data: Data, k: Pair, n: nat)
    requires n <= MAX_DEPTH
    ensures TailHasRoom(Prepared(data, k, n).header) ==>
              !Abandoned(data, k) && HeaderReading(Lookup(data, HeaderKey(k))).Ok?
  {
  }

  lemma TailLoadedIs(data: Data, k: Pair, s: Working, depth: nat)
    requires HeaderShape(s.header) && s.header.requiredCount > 0 && TailHasRoom(s.header) && s.chunks == map[]
    ensures TailElsewhere(data, k, s.header) ==>
              var t := TailLoaded(data, k, s, depth);
              t == s.(chunks := t.chunks) && TailSequence(s.header) !in t.chunks
    ensures !TailElsewhere(data, k, s.header) ==>
              var t := TailLoaded(data, k, s, depth);
              t == Discarded(depth) || (t == s.(chunks := t.chunks) && TailSequence(s.header) in t.chunks)
  {
    hide Discarded, Matches;
    var q := TailSequence(s.header);
    assert [q][..0] == [];
    NoneGathered(data, k, s);
    GatherNext(data, k, s, [q], 0, s);
    assert [q][..1] == [q];
  }

  /** An append to a prepared window fails exactly when its newest chunk is displaced. */
  lemma AppendFailsIff(data: Data, k: Pair, n: nat, r: Record)
    requires 0 < n <= MAX_DEPTH
    ensures HeaderShape(Prepared(data, k, n).header)
    ensures var answer := AppendAnswer(TailLoaded(data, k, Prepared(data, k, n), n), r.observedAt, Some(r.value));
            answer in {Ok(true), Ok(false), Err(RecordTooLarge), Err(ChunkNotLoaded)} &&
            (answer == Err(ChunkNotLoaded) <==> Displaced(data, k, n, r))
  {
    hide RecordBytes, Prepared, TailElsewhere, Discarded, Gathered, HeaderShape, HeaderReading;
    PreparedOk(data, k, n);
    PreparedTail(data, k, n);
    DiscardedIsAppendable(n);
    var s := Prepared(data, k, n);
    if TailHasRoom(s.header) {
      TailLoadedIs(data, k, s, n);
    } else {
      NoneGathered(data, k, s);
    }
  }

  /** Every pair is still as stored: its depth set if it is among the keys, not opened
      or abandoned otherwise. */
  ghost predicate AsStored(data: Data, windows: map<Pair, Working>, p: Phase) {
    forall k ::
      if k in p.keys then
        && DepthIn(p.depths, k) <= MAX_DEPTH && k in windows
        && windows[k] == Prepared(data, k, DepthIn(p.depths, k))
      else (k in windows <==> Abandoned(data, k)) && (k in windows ==> windows[k] == ResetCopy())
  }

  lemma StepAsStored(data: Data, a: map<Pair, Working>, b: map<Pair, Working>, p: Phase, k: Pair, n: nat)
    requires AsStored(data, a, p) && k !in p.keys && n == DepthIn(p.depths, k) <= MAX_DEPTH
    requires k in b && b == a[k := b[k]]
    requires var s := if k in a then a[k] else OpenedFrom(data, k, n); HeaderShape(s.header) && b[k] == WithDepth(s, n)
    ensures AsStored(data, b, p.(keys := p.keys + {k}))
  {
    hide OpenedFrom, WithDepth, HeaderShape, ResetCopy, Abandoned;
  }

  /** What is traced of each pair through a round: a discarded window holds nothing but
      this round's record, a pair without a header is not discarded by reading it, and
      a junk header is found out. */
  ghost predicate TracedAt(s: Snapshot, p: Phase, k: Pair) {
    && (k in s.corrupt ==> k in s.known && (s.known[k].log == [] || s.known[k].log == RecordsOf(p.agreed, k)))
    && (k !in p.keys && Lookup(s.data, HeaderKey(k)) == None ==>
          k !in s.corrupt && (k in s.windows ==> s.windows[k].header.counts == []))
    && (k in s.windows && Junk(s.data, k) ==> k in s.corrupt)
  }

  ghost predicate Traced(s: Snapshot, p: Phase) { forall k :: TracedAt(s, p, k) }

  lemma StepTraced(a: Snapshot, b: Snapshot, p: Phase, q: Phase, k: Pair)
    requires Traced(a, p) && OnlyAt(a, b, k) && TracedAt(b, q, k)
    requires p.keys <= q.keys && forall j :: j != k ==> RecordsOf(q.agreed, j) == RecordsOf(p.agreed, j)
    ensures Traced(b, q)
  {
    hide RecordsOf, Junk;
    SameElsewhere(b.windows, a.windows, k);
    SameElsewhere(b.known, a.known, k);
    forall j | j != k ensures TracedAt(b, q, j) {
      assert TracedAt(a, p, j);
      assert j in b.corrupt - {k} <==> j in a.corrupt - {k};
    }
  }

  lemma OtherRecords(agreed: seq<Agreed>, a: Agreed)
    ensures forall j :: j != a.pair ==> RecordsOf(agreed + [a], j) == RecordsOf(agreed, j)
    ensures RecordsOf(agreed + [a], a.pair) == RecordsOf(agreed, a.pair) + [a.record]
  {
    var more := agreed + [a];
    assert more[..|more| - 1] == agreed;
    forall j | j != a.pair ensures RecordsOf(more, j) == RecordsOf(agreed, j) {
      assert RecordsOf(agreed, j) + [] == RecordsOf(agreed, j);
    }
  }

  // ------------------------------------------------------------ setting depths

  lemma ShrinksLog(w: Window, n: nat)
    ensures |SetDepth(w, n).log| <= |w.log|
  {
  }

  /** Sets the depth of one pair. */
  method SetOne(store: HistoryStore, k: Pair, n: nat, ghost p: Phase, ghost good: iset<Pair>) returns (ok: bool)
    requires Progress(store, p, good) && Early(store, p)
    requires p.agreed == [] && k !in p.keys && n == DepthIn(p.depths, k)
    modifies store, store.kv`readKeys
    ensures store.index == old(store.index) && store.layoutReset == old(store.layoutReset)
    ensures store.abandoned == old(store.abandoned)
    ensures ok == (n <= MAX_DEPTH)
    ensures ok ==> Progress(store, p.(keys := p.keys + {k}), good) && Early(store, p.(keys := p.keys + {k}))
  {
    hide Coherent, ReadOnce, SetDepth, CellOf, InStep, Held, Expected, Untouched, AllUntouched, AllGood, OnlyAt,
      Traced, AsStored,
      OpenedFrom, WithDepth, HeaderShape, HeaderReading;
    ghost var a, q := Snap(store), p.(keys := p.keys + {k});
    UntouchedAt(store.windows, k);
    ExpectedSet(p, k);
    if k in good {
      InStepAt(store, p, good, k);
      ShrinksLog(Expected(p, k), n);
    }
    ok := store.SetRequired(k, n);
    if ok {
      WindowsOnlyAt(a, Snap(store), k);
      StepInStep(a, Snap(store), p, q, good, k);
      StepHeld(a, Snap(store), p, q, k);
      StepAsStored(a.data, a.windows, store.windows, p, k, n);
      SetTraced(a, Snap(store), p, k, n);
    }
  }

  lemma SetTraced(a: Snapshot, b: Snapshot, p: Phase, k: Pair, n: nat)
    requires Traced(a, p) && OnlyAt(a, b, k) && p.agreed == [] && k in b.windows
    requires if k in a.windows then b.corrupt == a.corrupt
             else b.corrupt == if HeaderReading(Lookup(b.data, HeaderKey(k))).Err? then a.corrupt + {k} else a.corrupt
    requires k in b.corrupt && k !in a.corrupt ==> k in b.known && b.known[k] == SetDepth(Window([], 0, n), n)
    requires k in a.corrupt && k in a.known && |a.known[k].log| <= MAX_UINT64 ==>
               k in b.known && b.known[k] == SetDepth(a.known[k], n)
    ensures Traced(b, p.(keys := p.keys + {k}))
  {
    hide SetDepth, HeaderReading;
    assert TracedAt(a, p, k);
    ShrinksLog(Window([], 0, n), n);
    if k in a.corrupt { ShrinksLog(a.known[k], n); }
    StepTraced(a, b, p, p.(keys := p.keys + {k}), k);
  }

  method SetAll(
    store: HistoryStore, keys: seq<Pair>, ghost pairs: set<Pair>, depths: map<Pair, nat>, ghost p: Phase,
    ghost good: iset<Pair>)
    returns (ok: bool)
    requires SortedPairs(keys, pairs)
    requires Progress(store, p, good) && Early(store, p)
    requires p.agreed == [] && p.depths == depths && pairs !! p.keys
    modifies store, store.kv`readKeys
    ensures store.index == old(store.index) && store.layoutReset == old(store.layoutReset)
    ensures store.abandoned == old(store.abandoned)
    ensures ok <==> forall k :: k in pairs ==> DepthIn(depths, k) <= MAX_DEPTH
    ensures ok ==> Progress(store, p.(keys := p.keys + pairs), good) && Early(store, p.(keys := p.keys + pairs))
  {
    hide Progress, Early, NoDuplicates, SortedBy;
    ghost var done: set<Pair> := {};
    assert p.(keys := p.keys + done) == p;
    for i := 0 to |keys|
      invariant forall k :: k in done <==> k in keys[..i]
      invariant Progress(store, p.(keys := p.keys + done), good) && Early(store, p.(keys := p.keys + done))
      invariant store.index == old(store.index) && store.layoutReset == old(store.layoutReset)
      invariant store.abandoned == old(store.abandoned)
      invariant forall k :: k in keys[..i] ==> DepthIn(depths, k) <= MAX_DEPTH
    {
      NextUnseen(keys, i);
      assert keys[i] in keys;
      ghost var q := p.(keys := p.keys + done);
      ok := SetOne(store, keys[i], DepthIn(depths, keys[i]), q, good);
      if !ok {
        return;
      }
      done := done + {keys[i]};
      assert q.(keys := q.keys + {keys[i]}) == p.(keys := p.keys + done);
    }
    assert keys[..|keys|] == keys;
    assert done == pairs;
    ok := true;
  }

  /** Sets every admitted depth, then clears every stored pair that was not admitted. */
  method Apply(store: HistoryStore, depths: map<Pair, nat>, ghost p: Phase, ghost good: iset<Pair>) returns (ok: bool)
    requires Progress(store, p, good) && Early(store, p)
    requires p.agreed == [] && p.depths == depths && p.keys == {}
    modifies store, store.kv`readKeys
    ensures store.index == old(store.index) && store.layoutReset == old(store.layoutReset)
    ensures store.abandoned == old(store.abandoned)
    ensures ok <==> forall k :: k in depths ==> depths[k] <= MAX_DEPTH
    ensures ok ==> Progress(store, p.(keys := depths.Keys + store.index), good)
    ensures ok ==> Early(store, p.(keys := depths.Keys + store.index))
  {
    hide Progress, Early, NoDuplicates, SortedPairs;
    var keys := SortPairs(depths.Keys);
    ok := SetAll(store, keys, depths.Keys, depths, p, good);
    if !ok {
      return;
    }
    ghost var q := p.(keys := depths.Keys);
    assert p.(keys := p.keys + depths.Keys) == q;
    ok := Clear(store, depths, q, good);
  }

  method Orphans(index: set<Pair>, depths: map<Pair, nat>) returns (keys: seq<Pair>)
    ensures SortedPairs(keys, index - depths.Keys)
  {
    keys := SortPairs(index - depths.Keys);
  }

  /** Gives every stored pair that was not admitted the depth zero. */
  method Clear(store: HistoryStore, depths: map<Pair, nat>, ghost p: Phase, ghost good: iset<Pair>) returns (ok: bool)
    requires Progress(store, p, good) && Early(store, p)
    requires p.agreed == [] && p.depths == depths && p.keys == depths.Keys
    modifies store, store.kv`readKeys
    ensures store.index == old(store.index) && store.layoutReset == old(store.layoutReset)
    ensures store.abandoned == old(store.abandoned)
    ensures ok && Progress(store, p.(keys := depths.Keys + store.index), good)
    ensures Early(store, p.(keys := depths.Keys + store.index))
  {
    hide Progress, Early, SortedPairs;
    ghost var orphans := store.index - depths.Keys;
    var rest := Orphans(store.index, depths);
    ok := SetAll(store, rest, orphans, depths, p, good);
    assert p.keys + orphans == depths.Keys + store.index;
  }

  lemma Members(keys: seq<Pair>, pairs: set<Pair>)
    requires SortedPairs(keys, pairs)
    ensures NoDuplicates(keys) && (set k | k in keys) == pairs
    ensures forall k :: k in keys <==> k in pairs
  {
  }

  // ----------------------------------------------------------------- appending

  lemma AppendGrows(w: Window, r: Record)
    ensures |AppendTo(w, r).log| <= |w.log| + 1
  {
  }

  /** Storing this agreed value fails the round. */
  ghost predicate Fails(data: Data, depths: map<Pair, nat>, a: Agreed) {
    a.pair in depths && depths[a.pair] <= MAX_DEPTH && Displaced(data, a.pair, depths[a.pair], a.record)
  }

  /** Records a pair's agreed value, if it was admitted. A value too large to
      store is dropped rather than failing the round. */
  method AppendOne(store: HistoryStore, depths: map<Pair, nat>, a: Agreed, ghost p: Phase, ghost good: iset<Pair>)
    returns (failure: Option<HistoryError>)
    requires Progress(store, p, good) && p.depths == depths && RecordsOf(p.agreed, a.pair) == []
    requires a.pair in depths ==> a.pair in p.keys && Waiting(store.kv.data, store.windows, depths, a.pair)
    requires a.pair in good ==> |Expected(p, a.pair).log| < MAX_UINT64
    modifies store, store.kv`readKeys
    ensures store.index == old(store.index) && store.layoutReset == old(store.layoutReset)
    ensures store.abandoned == old(store.abandoned)
    ensures Progress(store, p.(agreed := p.agreed + [a]), good)
    ensures store.windows - {a.pair} == old(store.windows) - {a.pair}
    ensures failure == if Fails(store.kv.data, depths, a) then Some(ChunkNotLoaded) else None
    ensures failure.Some? ==> a.pair !in good
  {
    hide Coherent, ReadOnce, AppendTo, CellOf, InStep, Held, Expected, Untouched, AllUntouched, AllGood, OnlyAt,
      Accepts, Traced, Prepared,
      TailLoaded, AppendAnswer, Displaced, HeaderShape, RecordsOf;
    ghost var before, q, k := Snap(store), p.(agreed := p.agreed + [a]), a.pair;
    ExpectedAppend(p, a);
    if a.pair !in depths {
      SameExpected(before, p, q, good);
      AppendTraced(before, before, p, a, 0);
      return None;
    }
    if k in good {
      InStepAt(store, p, good, k);
      AppendGrows(Expected(p, k), a.record);
    }
    AllGoodHas(good, k);
    HeldAt(before, p, k);
    AppendFailsIff(store.kv.data, k, depths[k], a.record);
    var appended := store.Append(a.pair, a.record.observedAt, Some(a.record.value));
    WindowsOnlyAt(before, Snap(store), k);
    StepInStep(before, Snap(store), p, q, good, k);
    StepHeld(before, Snap(store), p, q, k);
    AppendTraced(before, Snap(store), p, a, Admissible(depths[k]));
    failure := if appended.Ok? || appended.error == RecordTooLarge then None else Some(appended.error);
  }

  lemma AppendTraced(s: Snapshot, t: Snapshot, p: Phase, a: Agreed, depth: nat)
    requires Traced(s, p) && RecordsOf(p.agreed, a.pair) == []
    requires s == t || (OnlyAt(s, t, a.pair) && a.pair in s.windows && a.pair in p.keys)
    requires s.corrupt <= t.corrupt
    requires s != t && a.pair in t.corrupt && a.pair !in s.corrupt ==>
               a.pair in t.known && t.known[a.pair] == AppendTo(Window([], 0, depth), a.record)
    requires s != t && a.pair in s.corrupt && a.pair in s.known && |s.known[a.pair].log| <= MAX_UINT64 ==>
               a.pair in t.known && t.known[a.pair] == AppendTo(s.known[a.pair], a.record)
    ensures Traced(t, p.(agreed := p.agreed + [a]))
  {
    hide RecordsOf, Junk;
    OtherRecords(p.agreed, a);
    assert TracedAt(s, p, a.pair);
    assert OnlyAt(s, s, a.pair);
    StepTraced(s, t, p, p.(agreed := p.agreed + [a]), a.pair);
  }

  /** The window of an admitted pair that is still to be appended to. */
  ghost predicate Waiting(data: Data, windows: map<Pair, Working>, depths: map<Pair, nat>, k: Pair) {
    && k in depths && 0 < depths[k] <= MAX_DEPTH
    && k in windows && Untouched(windows[k]) && windows[k] == Prepared(data, k, depths[k])
  }

  lemma AllGoodHas(good: iset<Pair>, k: Pair)
    ensures AllGood(good) ==> k in good
  {
  }

  lemma HeldAt(s: Snapshot, p: Phase, k: Pair)
    requires Held(s, p)
    ensures k in p.keys ==> DepthIn(p.depths, k) <= MAX_DEPTH && DepthHeld(s, k, DepthIn(p.depths, k))
    ensures k !in p.keys ==> DepthIn(s.required, k) == 0
    ensures k in s.corrupt && k !in p.keys && k in s.windows ==> DepthHeld(s, k, 0)
  {
  }

  /** Phases that expect the same windows are interchangeable. */
  lemma SameExpected(s: Snapshot, p: Phase, q: Phase, good: iset<Pair>)
    requires InStep(s, p, good) && Held(s, p)
    requires q.depths == p.depths && q.keys == p.keys && forall k :: Expected(q, k) == Expected(p, k)
    ensures InStep(s, q, good) && Held(s, q)
  {
    hide Expected;
  }

  lemma NothingAgreedYet(p: Phase, agreed: seq<Agreed>, i: nat)
    requires i < |agreed| && OncePerPair(agreed)
    ensures |Expected(p.(agreed := agreed[..i]), agreed[i].pair).log| <= |Get(p.base, agreed[i].pair).log|
  {
    hide SetDepth;
    NotYetAgreed(agreed[..i], agreed[i].pair);
    ShrinksLog(Get(p.base, agreed[i].pair), DepthIn(p.depths, agreed[i].pair));
  }

  /** The admitted pairs still to be appended to are as stored. */
  ghost predicate Appendables(
    data: Data, windows: map<Pair, Working>, depths: map<Pair, nat>, agreed: seq<Agreed>, i: nat)
  {
    forall j :: i <= j < |agreed| && agreed[j].pair in depths ==> Waiting(data, windows, depths, agreed[j].pair)
  }

  lemma AppendablesRest(
    data: Data, a: map<Pair, Working>, b: map<Pair, Working>, depths: map<Pair, nat>, agreed: seq<Agreed>, i: nat)
    requires i < |agreed| && OncePerPair(agreed) && Appendables(data, a, depths, agreed, i)
    requires b - {agreed[i].pair} == a - {agreed[i].pair}
    ensures agreed[i].pair in depths ==> Waiting(data, a, depths, agreed[i].pair)
    ensures Appendables(data, b, depths, agreed, i + 1)
  {
    hide Untouched, Prepared;
    SameElsewhere(a, b, agreed[i].pair);
  }

  lemma NothingRecordedYet(agreed: seq<Agreed>, i: nat)
    requires i < |agreed| && OncePerPair(agreed)
    ensures RecordsOf(agreed[..i], agreed[i].pair) == []
  {
    NotYetAgreed(agreed[..i], agreed[i].pair);
  }

  /** Records every agreed value. */
  method AppendValues(
    store: HistoryStore, depths: map<Pair, nat>, agreed: seq<Agreed>, ghost p: Phase, ghost good: iset<Pair>)
    returns (failure: Option<HistoryError>)
    requires Progress(store, p, good) && p.depths == depths && p.agreed == [] && depths.Keys <= p.keys
    requires OncePerPair(agreed) && Appendables(store.kv.data, store.windows, depths, agreed, 0)
    requires forall k :: k in good ==> |Get(p.base, k).log| < MAX_UINT64
    modifies store, store.kv`readKeys
    ensures store.index == old(store.index) && store.layoutReset == old(store.layoutReset)
    ensures store.abandoned == old(store.abandoned)
    ensures failure.None? ==> Progress(store, p.(agreed := agreed), good)
    ensures failure.Some? <==> exists a :: a in agreed && Fails(store.kv.data, depths, a)
    ensures failure.Some? ==> failure.value == ChunkNotLoaded && exists a :: a in agreed && a.pair !in good
  {
    hide Progress, Appendables, OncePerPair, Untouched, Expected, Waiting, Fails, RecordsOf;
    assert p.(agreed := agreed[..0]) == p;
    for i := 0 to |agreed|
      invariant Progress(store, p.(agreed := agreed[..i]), good)
      invariant Appendables(store.kv.data, store.windows, depths, agreed, i)
      invariant store.index == old(store.index) && store.layoutReset == old(store.layoutReset)
      invariant store.abandoned == old(store.abandoned)
      invariant forall j :: 0 <= j < i ==> !Fails(store.kv.data, depths, agreed[j])
    {
      ghost var q, windows := p.(agreed := agreed[..i]), store.windows;
      NothingAgreedYet(p, agreed, i);
      NothingRecordedYet(agreed, i);
      AppendablesRest(store.kv.data, windows, windows, depths, agreed, i);
      failure := AppendOne(store, depths, agreed[i], q, good);
      if failure.Some? {
        assert agreed[i] in agreed;
        return;
      }
      AppendablesRest(store.kv.data, windows, store.windows, depths, agreed, i);
      assert q.(agreed := q.agreed + [agreed[i]]) == p.(agreed := agreed[..i + 1]);
    }
    assert agreed[..|agreed|] == agreed;
    failure := None;
  }

  // ------------------------------------------------------------------- reading

  method ServeOne(store: HistoryStore, request: Request, ghost p: Phase, ghost good: iset<Pair>)
    returns (answer: Result<seq<Record>, HistoryError>)
    requires Progress(store, p, good) && |RecordsOf(p.agreed, request.pair)| <= MAX_UINT64
    modifies store, store.kv`readKeys
    ensures store.index == old(store.index) && store.layoutReset == old(store.layoutReset)
    ensures store.abandoned == old(store.abandoned)
    ensures Progress(store, p, good)
    ensures request.pair in store.windows && old(store.windows).Keys <= store.windows.Keys
    ensures request.pair in good ==> answer == ReadAnswer(Expected(p, request.pair), request.count)
  {
    hide Coherent, ReadOnce, CellOf, InStep, Held, Expected, Untouched, AllGood, OnlyAt, ReadAnswer, Traced,
      OpenedFrom, HeaderShape,
      Misread, HeaderReading;
    ghost var before, k := Snap(store), request.pair;
    if k in good { InStepAt(store, p, good, k); }
    AllGoodHas(good, k);
    HeldAt(before, p, k);
    answer := store.Series(request.pair, request.count);
    WindowsOnlyAt(before, Snap(store), k);
    StepInStep(before, Snap(store), p, p, good, k);
    StepHeld(before, Snap(store), p, p, k);
    OpenedFromErr(store.kv.data, k, store.RequiredOf(k));
    ServeTraced(before, Snap(store), p, k, store.RequiredOf(k));
  }

  lemma ServeTraced(a: Snapshot, b: Snapshot, p: Phase, k: Pair, depth: nat)
    requires Traced(a, p) && OnlyAt(a, b, k) && k in b.windows && a.corrupt <= b.corrupt
    requires k in b.corrupt && k !in a.corrupt ==> k in b.known && b.known[k] == Window([], 0, Admissible(depth))
    requires k in a.corrupt && k in a.known && |a.known[k].log| <= MAX_UINT64 ==>
               k in b.known && b.known[k] == a.known[k]
    requires k !in a.windows && HeaderReading(Lookup(b.data, HeaderKey(k))).Err? ==> k in b.corrupt
    requires var h := if k in a.windows then a.windows[k].header else OpenedFrom(b.data, k, depth).header;
             && (b.windows[k].header == h || b.windows[k].header.counts == [])
             && (k in b.corrupt && k !in a.corrupt ==>
                   h.counts != [] || HeaderReading(Lookup(b.data, HeaderKey(k))).Err?)
    ensures |RecordsOf(p.agreed, k)| <= MAX_UINT64 ==> Traced(b, p)
  {
    hide RecordsOf, OpenedFrom;
    assert TracedAt(a, p, k);
    OpenedFromErr(b.data, k, depth);
    if |RecordsOf(p.agreed, k)| <= MAX_UINT64 { StepTraced(a, b, p, p, k); }
  }

  /** Answers every read of the round. */
  method Serve(store: HistoryStore, requests: seq<Request>, ghost p: Phase, ghost good: iset<Pair>)
    returns (answers: seq<Result<seq<Record>, HistoryError>>)
    requires Progress(store, p, good) && forall k :: |RecordsOf(p.agreed, k)| <= MAX_UINT64
    modifies store, store.kv`readKeys
    ensures store.index == old(store.index) && store.layoutReset == old(store.layoutReset)
    ensures store.abandoned == old(store.abandoned)
    ensures Progress(store, p, good)
    ensures |answers| == |requests| && forall i :: 0 <= i < |requests| ==> requests[i].pair in store.windows
    ensures forall i :: 0 <= i < |requests| && requests[i].pair in good ==>
              answers[i] == ReadAnswer(Expected(p, requests[i].pair), requests[i].count)
  {
    hide Progress, ReadAnswer, Expected, RecordsOf;
    answers := [];
    for i := 0 to |requests|
      invariant Progress(store, p, good) && |answers| == i
      invariant forall j :: 0 <= j < i ==> requests[j].pair in store.windows
      invariant store.index == old(store.index) && store.layoutReset == old(store.layoutReset)
      invariant store.abandoned == old(store.abandoned)
      invariant forall j :: 0 <= j < i && requests[j].pair in good ==>
                  answers[j] == ReadAnswer(Expected(p, requests[j].pair), requests[j].count)
    {
      var answer := ServeOne(store, requests[i], p, good);
      answers := answers + [answer];
    }
  }

  // ------------------------------------------------------------------ flushing

  /** What flushing makes of one pair. */
  ghost predicate FlushedAt(s: Snapshot, index: set<Pair>, data: Data, k: Pair) {
    var c, kept := CellOf(s.data, k), k in s.windows && s.windows[k].header.requiredCount > 0;
    && (k in IndexOf(data) <==> kept && (k in index || Changed(s.windows[k])))
    && CellOf(data, k) == if kept then Written(c, s.windows[k])
                          else if k in index then
                            Cell(None, c.slots - if k in s.windows then DeletedSlots(s.windows[k])
                                else set d | d in AllSlots())
                          else c
  }

  /** A pair that means a window with a depth is stored and indexed as that window. */
  lemma FlushedWindow(s: Snapshot, index: set<Pair>, data: Data, k: Pair)
    requires Coherent(s.data, s.windows, s.known) && FlushedAt(s, index, data, k)
    requires k in s.windows && k in s.known && s.windows[k].header.requiredCount > 0
    requires k !in index ==> s.windows[k].headerDirty || CellOf(s.data, k) == EMPTY_CELL
    ensures PairHolds(data, k, s.known[k]) && s.known[k].depth == s.windows[k].header.requiredCount
  {
    hide CellOf, CellHolds, Written, Consistent, WindowOk, Placed, LoadedFromLog, CleanIsStored, NothingStray, HeaderOf;
    assert Means(s.data, s.windows, k, s.known[k]);
    WrittenHolds(CellOf(s.data, k), s.windows[k], s.known[k].log);
  }

  /** A stored pair that means a window without a depth is removed. */
  lemma FlushedOrphan(s: Snapshot, index: set<Pair>, data: Data, k: Pair)
    requires Coherent(s.data, s.windows, s.known) && FlushedAt(s, index, data, k)
    requires k in s.windows && k in s.known && s.windows[k].header.requiredCount == 0 && k in index
    ensures PairHolds(data, k, EMPTY_WINDOW)
  {
    hide CellOf, CellHolds, Written, Consistent, Tracks;
    assert Means(s.data, s.windows, k, s.known[k]);
    TornDownIsEmpty(CellOf(s.data, k), s.windows[k], s.known[k].log);
    assert CellOf(s.data, k).slots - DeletedSlots(s.windows[k]) == map[];
  }

  lemma SoundKnown(s: Snapshot, p: Phase, good: iset<Pair>, k: Pair)
    requires Coherent(s.data, s.windows, s.known) && InStep(s, p, good) && k in good
    ensures k in s.windows ==> k in s.known
    ensures k in s.known ==> s.known[k] == Expected(p, k)
    ensures k !in s.known ==> Expected(p, k) == EMPTY_WINDOW && CellOf(s.data, k) == EMPTY_CELL
    ensures k in s.windows ==> s.windows[k].header.requiredCount == Expected(p, k).depth
  {
    hide CellOf, Consistent, Tracks, Expected;
    assert SoundAt(s, k);
    if k in s.known { assert Means(s.data, s.windows, k, s.known[k]); }
  }

  /** The window a pair is left with. */
  function OutcomeOf(base: map<Pair, Window>, depths: map<Pair, nat>, agreed: seq<Agreed>, k: Pair): Window {
    if k in depths then NextWindow(Get(base, k), depths[k], agreed, k) else EMPTY_WINDOW
  }

  lemma FlushedGood(s: Snapshot, index: set<Pair>, data: Data, p: Phase, good: iset<Pair>, k: Pair)
    requires Coherent(s.data, s.windows, s.known) && InStep(s, p, good) && Held(s, p) && FlushedAt(s, index, data, k)
    requires p.keys == p.depths.Keys + index && (k in p.depths ==> p.depths[k] > 0)
    requires k in good && (k !in index ==> CellOf(s.data, k) == EMPTY_CELL && Get(p.base, k) == EMPTY_WINDOW)
    ensures PairHolds(data, k, OutcomeOf(p.base, p.depths, p.agreed, k))
  {
    hide CellOf, CellHolds, Written, Coherent, InStep, Held, SetDepth, RecordsOf;
    HeldAt(s, p, k);
    SoundKnown(s, p, good, k);
    if k in p.depths {
      FlushedWindow(s, index, data, k);
    } else if k in index {
      FlushedOrphan(s, index, data, k);
    }
  }

  /** A discarded pair that was admitted warms from empty, one that was only indexed is
      gone, and any other is left as it was found, which was not empty. */
  ghost predicate Restored(old_: Data, data: Data, depths: map<Pair, nat>, agreed: seq<Agreed>, k: Pair) {
    if k in depths then
      exists w :: PairHolds(data, k, w) && w.depth == depths[k] && (w.log == [] || w.log == RecordsOf(agreed, k))
    else if k in IndexOf(old_) then PairHolds(data, k, EMPTY_WINDOW)
    else k !in IndexOf(data) && CellOf(data, k) == CellOf(old_, k) && CellOf(data, k) != EMPTY_CELL
  }

  /** So it is well-formed afterwards exactly when it was admitted or indexed. */
  lemma RestoredIff(old_: Data, data: Data, depths: map<Pair, nat>, agreed: seq<Agreed>, k: Pair)
    requires Restored(old_, data, depths, agreed, k)
    ensures (exists w :: PairHolds(data, k, w)) <==> k in depths || k in IndexOf(old_)
  {
    hide CellOf, CellHolds, RecordsOf;
    if k in depths {
      var w :| PairHolds(data, k, w) && w.depth == depths[k];
    } else if k in IndexOf(old_) {
      assert PairHolds(data, k, EMPTY_WINDOW);
    }
  }

  lemma FlushedCorrupt(s: Snapshot, index: set<Pair>, data: Data, p: Phase, k: Pair)
    requires Coherent(s.data, s.windows, s.known) && Held(s, p) && TracedAt(s, p, k) && FlushedAt(s, index, data, k)
    requires p.keys == p.depths.Keys + index && (k in p.depths ==> p.depths[k] > 0)
    requires k in s.corrupt && k in s.windows && k in s.known && s.windows[k].headerDirty
    requires forall j :: j in index <==> j in IndexOf(s.data)
    ensures Restored(s.data, data, p.depths, p.agreed, k)
  {
    hide CellOf, CellHolds, Written, Coherent, Held, PairHolds, RecordsOf;
    HeldAt(s, p, k);
    if k in p.depths {
      FlushedWindow(s, index, data, k);
      assert PairHolds(data, k, s.known[k]);
    } else if k in index {
      FlushedOrphan(s, index, data, k);
    } else {
      HeaderInCell(s.data, k);
    }
  }

  lemma HeaderInCell(data: Data, k: Pair)
    ensures CellOf(data, k).header == Lookup(data, HeaderKey(k))
  {
  }

  method FlushRound(store: HistoryStore)
    requires store.Valid() && store.kv.writtenKeys == [] && store.kv.deletedKeys == []
    requires forall k :: k in store.index <==> k in IndexOf(store.kv.data)
    modifies store.kv`data, store.kv`writtenKeys, store.kv`deletedKeys, store`index, store`layoutReset
    ensures forall k :: FlushedAt(old(Snap(store)), old(store.index), store.kv.data, k)
    ensures TouchedOnce(store.kv.writtenKeys, store.kv.deletedKeys)
    ensures if old(store.abandoned) > 0 || store.index != old(store.index)
            then SortedPairs(IndexOf(store.kv.data), store.index) &&
                (old(store.layoutReset) ==> VersionOf(store.kv.data) == LAYOUT_VERSION)
            else IndexOf(store.kv.data) == old(IndexOf(store.kv.data))
    ensures !old(store.layoutReset) ==> VersionOf(store.kv.data) == old(VersionOf(store.kv.data))
    ensures forall k :: k in store.index <==> k in IndexOf(store.kv.data)
  {
    hide CellOf, Written, Coherent, Changed, TouchedOnce, DeletedSlots, AllSlots, SortedBy, NoDuplicates;
    EmptyJournal();
    store.Flush();
  }

  lemma EmptyJournal()
    ensures Journal([], [], {})
  {
  }

  // ---------------------------------------------------------------- the round

  /** What a round may take a pair to hold when it starts. A stored layout of
      another version counts as nothing, whatever its keys hold. */
  ghost predicate StartsAs(data: Data, k: Pair, w: Window) {
    if VersionOf(data) != LAYOUT_VERSION && k in IndexOf(data) then w == EMPTY_WINDOW
    else PairHolds(data, k, w) && |w.log| < MAX_UINT64
  }

  ghost function Trusted(data: Data, base: map<Pair, Window>, good: iset<Pair>): map<Pair, Window> {
    map k | k in IndexOf(data) && k in good && VersionOf(data) == LAYOUT_VERSION :: Get(base, k)
  }

  /** Loads the index and, when the layout changed, abandons what it names. */
  method Start(kv: KeyValueState, ghost base: map<Pair, Window>, ghost good: iset<Pair>)
    returns (store: Option<HistoryStore>)
    requires kv.readKeys == []
    requires forall k :: k in good ==> StartsAs(kv.data, k, Get(base, k))
    modifies kv`readKeys
    ensures store.None? <==> |IndexOf(kv.data)| > MAX_PAIRS
    ensures store.Some? ==>
      var h := store.value;
      && fresh(h) && h.kv == kv && h.Valid() && AllUntouched(h.windows)
      && h.required == map[] && h.corrupt == {}
      && (forall k :: k in h.index <==> k in IndexOf(kv.data))
      && h.layoutReset == (VersionOf(kv.data) != LAYOUT_VERSION)
      && h.abandoned == (if h.layoutReset then |IndexOf(kv.data)| else 0)
      && (forall k :: k in h.windows <==> Abandoned(kv.data, k))
      && (forall k :: k in h.windows ==> h.windows[k] == ResetCopy())
      && (forall k :: k in good ==> SoundAt(Snap(h), k) && Get(h.known, k) == Get(base, k))
      && ReadOnce(kv.readKeys, h.windows)
  {
    hide CellOf, CellHolds, Coherent, ReadOnce;
    var index := kv.Read(IndexKey);
    var keys := DecodeIndex(index);
    if |keys| > MAX_PAIRS {
      return None;
    }
    var version := kv.Read(VersionKey);
    TrustedHolds(kv.data, base, good);
    var h := new HistoryStore(kv, keys, DecodeVersion(version), Trusted(kv.data, base, good));
    if h.layoutReset {
      h.AbandonLayout(keys);
    }
    StartSound(Snap(h), base, good);
    StartReadOnce(h.windows);
    assert kv.readKeys == [IndexKey, VersionKey];
    store := Some(h);
  }

  lemma TrustedHolds(data: Data, base: map<Pair, Window>, good: iset<Pair>)
    requires forall k :: k in good ==> StartsAs(data, k, Get(base, k))
    ensures var m := Trusted(data, base, good); forall k :: k in m ==> CellHolds(CellOf(data, k), m[k])
  {
    hide CellOf, CellHolds;
    var m := Trusted(data, base, good);
    forall k | k in m ensures CellHolds(CellOf(data, k), m[k]) {
      assert StartsAs(data, k, Get(base, k));
    }
  }

  lemma StartReadOnce(windows: map<Pair, Working>)
    ensures ReadOnce([IndexKey, VersionKey], windows)
  {
  }

  lemma StartSound(s: Snapshot, base: map<Pair, Window>, good: iset<Pair>)
    requires forall k :: k in good ==> StartsAs(s.data, k, Get(base, k))
    requires if VersionOf(s.data) == LAYOUT_VERSION then s.windows == map[] && s.known == Trusted(s.data, base, good)
             else && (forall k :: k in s.windows <==> k in IndexOf(s.data))
                  && s.known.Keys == s.windows.Keys && forall k :: k in s.known ==> s.known[k] == EMPTY_WINDOW
    ensures forall k :: k in good ==> SoundAt(s, k) && Get(s.known, k) == Get(base, k)
  {
    hide CellOf, CellHolds;
    forall k | k in good ensures SoundAt(s, k) && Get(s.known, k) == Get(base, k) {
      assert StartsAs(s.data, k, Get(base, k));
      assert VersionOf(s.data) != LAYOUT_VERSION ==> (k in s.known <==> k in s.windows);
    }
  }

  lemma Begin(store: HistoryStore, p: Phase, good: iset<Pair>)
    requires store.Valid() && store.required == map[] && store.corrupt == {}
    requires forall k :: k in good ==> SoundAt(Snap(store), k) && Get(store.known, k) == Get(p.base, k)
    requires ReadOnce(store.kv.readKeys, store.windows) && AllUntouched(store.windows)
    requires forall k :: k in store.windows <==> Abandoned(store.kv.data, k)
    requires forall k :: k in store.windows ==> store.windows[k] == ResetCopy()
    requires p.keys == {} && p.agreed == []
    ensures Progress(store, p, good) && Early(store, p)
  {
    hide CellOf, Coherent, ReadOnce, AllUntouched;
  }

  /** The index is sorted without repeats, and its layout is the current one. */
  ghost predicate TidyIndex(data: Data) {
    && Ascending(IndexOf(data))
    && (IndexOf(data) != [] ==> VersionOf(data) == LAYOUT_VERSION)
  }

  /** A round opens the pairs it admits, the indexed ones and those that are read. */
  ghost predicate Touched(data: Data, input: RoundInput, depths: map<Pair, nat>, k: Pair) {
    k in depths || k in IndexOf(data) || exists i :: 0 <= i < |input.requests| && input.requests[i].pair == k
  }

  /** What one round does, for every pair that starts out well-formed or absent
      (`good`), whatever the storage of the others. */
  ghost predicate RoundDone(data: Data, input: RoundInput, base: map<Pair, Window>, good: iset<Pair>, out: RoundOutput)
  {
    && IsAdmission(input.required, Incumbents(data), out.depths, out.denied)
    && (forall k :: k in good ==> PairHolds(out.data, k, OutcomeOf(base, out.depths, input.agreed, k)))
    && |out.answers| == |input.requests|
    && (forall i :: 0 <= i < |input.requests| && input.requests[i].pair in good ==>
          out.answers[i] == ReadAnswer(OutcomeOf(base, out.depths, input.agreed, input.requests[i].pair),
              input.requests[i].count))
    && (forall k :: k in out.corrupt ==> k !in good && Restored(data, out.data, out.depths, input.agreed, k))
    && (forall k :: Junk(data, k) && Touched(data, input, out.depths, k) ==> k in out.corrupt)
    && (TidyIndex(data) || (VersionOf(data) != LAYOUT_VERSION && IndexOf(data) != []) ==> TidyIndex(out.data))
    && TouchedOnce(out.writtenKeys, out.deletedKeys)
    && (AllGood(good) ==> NoDuplicates(out.readKeys))
  }

  lemma ExpectedOutcome(p: Phase, k: Pair)
    requires k in p.depths ==> k in p.keys
    requires Get(p.base, k) == EMPTY_WINDOW || (k in p.keys && Get(p.base, k).depth > 0)
    ensures Expected(p, k) == OutcomeOf(p.base, p.depths, p.agreed, k)
  {
  }

  lemma TidyAfter(data: Data, data': Data, index: set<Pair>)
    requires VersionOf(data) == LAYOUT_VERSION ==> VersionOf(data') == LAYOUT_VERSION
    requires || (TidyIndex(data) && IndexOf(data') == IndexOf(data))
             || (SortedPairs(IndexOf(data'), index) && VersionOf(data') == LAYOUT_VERSION)
    ensures TidyIndex(data')
  {
    AscendingIff(IndexOf(data'));
  }

  /** What the store holds when a round is ready to flush. */
  ghost predicate Settled(s: Snapshot, p: Phase, good: iset<Pair>) {
    && Coherent(s.data, s.windows, s.known) && Held(s, p) && InStep(s, p, good) && Traced(s, p)
    && s.corrupt <= s.known.Keys && s.corrupt <= s.windows.Keys
    && (forall k :: k in s.corrupt ==> s.windows[k].headerDirty)
  }

  lemma ProgressSettled(store: HistoryStore, p: Phase, good: iset<Pair>)
    requires Progress(store, p, good)
    ensures store.Valid() && Settled(Snap(store), p, good)
    ensures AllGood(good) ==> NoDuplicates(store.kv.readKeys)
  {
    hide Coherent, Held, InStep, NoDuplicates, Traced;
  }

  lemma FlushedPairs(s: Snapshot, index: set<Pair>, data: Data, p: Phase, good: iset<Pair>)
    requires Settled(s, p, good) && forall k :: FlushedAt(s, index, data, k)
    requires p.keys == p.depths.Keys + index && forall k :: k in p.depths ==> p.depths[k] > 0
    requires forall k :: k in index <==> k in IndexOf(s.data)
    requires forall k :: k in good ==> StartsAs(s.data, k, Get(p.base, k))
    ensures forall k :: k in good ==> PairHolds(data, k, OutcomeOf(p.base, p.depths, p.agreed, k))
    ensures forall k :: k in s.corrupt ==> k !in good && Restored(s.data, data, p.depths, p.agreed, k)
    ensures forall k :: Junk(s.data, k) && (k in p.keys || k in s.windows) ==> k in s.corrupt
  {
    hide CellOf, CellHolds, Coherent, FlushedAt, Restored, OutcomeOf, Expected, Junk, RecordsOf;
    forall k | k in good ensures PairHolds(data, k, OutcomeOf(p.base, p.depths, p.agreed, k)) {
      assert StartsAs(s.data, k, Get(p.base, k));
      FlushedGood(s, index, data, p, good, k);
    }
    forall k | k in s.corrupt ensures Restored(s.data, data, p.depths, p.agreed, k) {
      FlushedCorrupt(s, index, data, p, k);
    }
    forall k | Junk(s.data, k) && (k in p.keys || k in s.windows) ensures k in s.corrupt {
      assert TracedAt(s, p, k);
      HeldAt(s, p, k);
    }
  }

  lemma StartsBounded(data: Data, base: map<Pair, Window>, good: iset<Pair>)
    requires forall k :: k in good ==> StartsAs(data, k, Get(base, k))
    ensures forall k :: k in good ==> |Get(base, k).log| < MAX_UINT64
  {
    hide PairHolds;
    forall k | k in good ensures |Get(base, k).log| < MAX_UINT64 {
      assert StartsAs(data, k, Get(base, k));
    }
  }

  lemma AllAppendable(store: HistoryStore, p: Phase, agreed: seq<Agreed>)
    requires Early(store, p) && p.depths.Keys <= p.keys && forall k :: k in p.depths ==> p.depths[k] > 0
    ensures Appendables(store.kv.data, store.windows, p.depths, agreed, 0)
  {
    hide Untouched, Prepared;
  }

  lemma {:induction false} AtMostOneRecord(agreed: seq<Agreed>, k: Pair)
    requires OncePerPair(agreed)
    ensures |RecordsOf(agreed, k)| <= 1
  {
    if agreed != [] {
      var n := |agreed| - 1;
      if agreed[n].pair == k { NotYetAgreed(agreed[..n], k); } else { AtMostOneRecord(agreed[..n], k); }
    }
  }

  lemma AnswersMatch(p: Phase, data: Data, good: iset<Pair>, index: set<Pair>)
    requires p.keys == p.depths.Keys + index && forall k :: k in index <==> k in IndexOf(data)
    requires forall k :: k in good ==> StartsAs(data, k, Get(p.base, k))
    ensures forall k :: k in good ==> Expected(p, k) == OutcomeOf(p.base, p.depths, p.agreed, k)
  {
    hide CellOf, CellHolds, Expected, OutcomeOf;
    forall k | k in good ensures Expected(p, k) == OutcomeOf(p.base, p.depths, p.agreed, k) {
      assert StartsAs(data, k, Get(p.base, k));
      ExpectedOutcome(p, k);
    }
  }

  /** The rest of a round once depths are set: append, read, flush. */
  method Finish(
    store: HistoryStore, input: RoundInput, depths: map<Pair, nat>, denied: seq<Pair>, ghost p: Phase,
    ghost good: iset<Pair>)
    returns (r: Result<RoundOutput, RoundError>)
    requires Progress(store, p, good) && Early(store, p) && OncePerPair(input.agreed)
    requires p.depths == depths && p.keys == depths.Keys + store.index && p.agreed == []
    requires forall k :: k in depths ==> depths[k] > 0
    requires store.kv.writtenKeys == [] && store.kv.deletedKeys == []
    requires forall k :: k in store.index <==> k in IndexOf(store.kv.data)
    requires store.layoutReset == (VersionOf(store.kv.data) != LAYOUT_VERSION)
    requires store.abandoned == if store.layoutReset then |IndexOf(store.kv.data)| else 0
    requires forall k :: k in good ==> StartsAs(store.kv.data, k, Get(p.base, k))
    requires IsAdmission(input.required, Incumbents(store.kv.data), depths, denied)
    modifies store, store.kv
    ensures r.Err? <==> exists a :: a in input.agreed && Fails(old(store.kv.data), depths, a)
    ensures r.Err? ==> r == Err(AppendFailed(ChunkNotLoaded)) && exists a :: a in input.agreed && a.pair !in good
    ensures r.Ok? ==> r.value.depths == depths && RoundDone(old(store.kv.data), input, p.base, good, r.value)
  {
    hide Progress, Early, OncePerPair, StartsAs, IsAdmission, PairHolds, Restored, ReadAnswer, Expected, OutcomeOf,
      TouchedOnce, NoDuplicates, TidyIndex, AllGood, SortedPairs, FlushedAt, Appendables, Settled, RecordsOf,
      Fails, Junk;
    AllAppendable(store, p, input.agreed);
    forall k ensures |RecordsOf(input.agreed, k)| <= 1 { AtMostOneRecord(input.agreed, k); }
    StartsBounded(store.kv.data, p.base, good);
    var failure := AppendValues(store, depths, input.agreed, p, good);
    if failure.Some? {
      return Err(AppendFailed(failure.value));
    }
    ghost var q := p.(agreed := input.agreed);
    var answers := Serve(store, input.requests, q, good);
    ghost var data, index, s := store.kv.data, store.index, Snap(store);
    AnswersMatch(q, data, good, index);
    ProgressSettled(store, q, good);
    var corrupt := store.corrupt;
    FlushRound(store);
    FlushedPairs(s, index, store.kv.data, q, good);
    if TidyIndex(data) || (VersionOf(data) != LAYOUT_VERSION && IndexOf(data) != []) {
      TidyAfter(data, store.kv.data, store.index);
    }
    r := Ok(RoundOutput(store.kv.data, answers, depths, denied, corrupt,
                        store.kv.readKeys, store.kv.writtenKeys, store.kv.deletedKeys));
  }

  /** Whether and how a round fails, decided by what is stored and what was admitted. */
  ghost predicate Verdict(data: Data, input: RoundInput, depths: map<Pair, nat>, r: Result<RoundOutput, RoundError>) {
    if exists k :: k in depths && depths[k] > MAX_DEPTH then r == Err(DepthRejected)
    else if exists a :: a in input.agreed && Fails(data, depths, a) then r == Err(AppendFailed(ChunkNotLoaded))
    else r.Ok? && r.value.depths == depths
  }

  /** One round against the stored data. On an error nothing is persisted. */
  method Round(data: Data, input: RoundInput, ghost base: map<Pair, Window>, ghost good: iset<Pair>)
    returns (r: Result<RoundOutput, RoundError>)
    requires OncePerPair(input.agreed) && forall k :: k in input.required ==> input.required[k] > 0
    requires forall k :: k in good ==> StartsAs(data, k, Get(base, k))
    ensures r == Err(IndexTooLong) <==> |IndexOf(data)| > MAX_PAIRS
    ensures |IndexOf(data)| <= MAX_PAIRS ==>
              exists depths, denied ::
                && IsAdmission(input.required, Incumbents(data), depths, denied)
                && Verdict(data, input, depths, r)
    ensures r == Err(DepthRejected) ==> exists k :: k in input.required && input.required[k] > MAX_DEPTH
    ensures r.Err? && r.error.AppendFailed? ==> exists a :: a in input.agreed && a.pair !in good
    ensures r.Ok? ==> RoundDone(data, input, base, good, r.value)
    ensures r.Ok? ==> forall k :: k in r.value.depths ==> r.value.depths[k] <= MAX_DEPTH
  {
    hide Progress, Early, AllUntouched, OncePerPair, StartsAs, RoundDone, ReadOnce, SoundAt, SortedPairs,
      NoDuplicates, Coherent, Fails,
      Abandoned, IsAdmission;
    var kv := new KeyValueState(data);
    var start := Start(kv, base, good);
    if start.None? {
      return Err(IndexTooLong);
    }
    var store := start.value;
    var depths, denied := AdmitPairs(store, input.required);
    AdmittedAsRequired(data, input.required, depths, denied);
    ghost var p := Phase(base, depths, {}, []);
    Begin(store, p, good);
    var ok := Apply(store, depths, p, good);
    if !ok {
      r := Err(DepthRejected);
      assert Verdict(data, input, depths, r);
      return;
    }
    r := Finish(store, input, depths, denied, p.(keys := depths.Keys + store.index), good);
    assert Verdict(data, input, depths, r);
  }

  /** Admits pairs against the stored index. */
  method AdmitPairs(store: HistoryStore, required: map<Pair, nat>) returns (depths: map<Pair, nat>, denied: seq<Pair>)
    requires forall k :: k in store.index <==> k in IndexOf(store.kv.data)
    ensures IsAdmission(required, Incumbents(store.kv.data), depths, denied)
  {
    hide IsAdmission, SortedPairs, NoDuplicates;
    var incumbents := SortPairs(store.index);
    Members(incumbents, store.index);
    depths, denied := Admit(required, incumbents);
    assert (set k | k in incumbents) == Incumbents(store.kv.data);
  }

  lemma AdmittedAsRequired(data: Data, required: map<Pair, nat>, depths: map<Pair, nat>, denied: seq<Pair>)
    requires IsAdmission(required, Incumbents(data), depths, denied)
    ensures forall k :: k in depths ==> k in required && depths[k] == required[k]
  {
  }

  /** A round that finds another layout version. Whatever the keys of the indexed pairs
      hold, each of them is well-formed afterwards: warmed from empty when admitted, gone
      when not; and the index is rewritten in the current layout. */
  method RoundAfterLayoutChange(data: Data, input: RoundInput) returns (r: Result<RoundOutput, RoundError>)
    requires VersionOf(data) != LAYOUT_VERSION && IndexOf(data) != []
    requires OncePerPair(input.agreed) && forall k :: k in input.required ==> input.required[k] > 0
    ensures r.Ok? ==> TidyIndex(r.value.data)
    ensures r.Ok? ==> forall k :: k in IndexOf(data) ==>
              PairHolds(r.value.data, k, OutcomeOf(map[], r.value.depths, input.agreed, k))
    ensures r.Ok? ==> forall k :: k in IndexOf(data) ==> k !in r.value.corrupt
  {
    hide PairHolds, OutcomeOf, TidyIndex, OncePerPair, IsAdmission, ReadAnswer, Restored, TouchedOnce, NoDuplicates;
    ghost var good := iset k | k in IndexOf(data);
    r := Round(data, input, map[], good);
  }
}
