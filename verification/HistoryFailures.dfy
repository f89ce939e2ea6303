/** Stored bytes that no reset repairs, as concrete inputs
    (llo/protocol/stream_history_ring.go, llo/dev/v31/history.go). */
module HistoryFailures {
  import opened Collections
  import opened HistoryLayout
  import opened HistoryTracking
  import opened HistoryRing
  import opened KeyValueStates
  import opened HistoryStores
  import opened HistoryRequirements
  import opened HistoryRounds

  /** A retained chunk copied into the newest chunk's slot displaces it at every depth at
      which nothing is evicted. */
  lemma CopiedChunkDisplaces(data: Data, k: Pair, w: Window, q: nat, n: nat, r: Record)
    requires VersionOf(data) == LAYOUT_VERSION && WindowOk(w) && 0 < |w.log| <= MAX_UINT64
    requires Retained(w, q) && q < ChunksFor(|w.log|) - 1 && |w.log| % 64 != 0
    requires 0 < n <= MAX_DEPTH && |w.log| - 64 * w.first < n + 64 && Accepts(w.(depth := n), r)
    requires Lookup(data, HeaderKey(k)) == Some(HeaderBytes(HeaderOf(w)))
    requires Lookup(data, ChunkKey(k, Slot(ChunksFor(|w.log|) - 1))) == Some(ChunkBytes(ChunkOf(w.log, q)))
    ensures Displaced(data, k, n, r)
  {
    hide RecordBytes, Prepared, HeaderOf, HeaderShape, WindowOk;
    PreparedHeader(data, k, w, n);
    Deeper(w, n);
    TailOf(w.(depth := n));
    ChunkMatchesHeader(w.(depth := n), q);
    ChunkOfDecodes(w, q);
  }

  lemma Deeper(w: Window, n: nat)
    requires WindowOk(w) && 0 < n <= MAX_DEPTH && |w.log| - 64 * w.first < n + 64
    ensures WindowOk(w.(depth := n)) && HeaderShape(HeaderOf(w.(depth := n)))
  {
    HeaderOfShape(w.(depth := n));
  }

  lemma PreparedHeader(data: Data, k: Pair, w: Window, n: nat)
    requires VersionOf(data) == LAYOUT_VERSION && WindowOk(w) && |w.log| <= MAX_UINT64
    requires 0 < n <= MAX_DEPTH && |w.log| - 64 * w.first < n + 64
    requires Lookup(data, HeaderKey(k)) == Some(HeaderBytes(HeaderOf(w)))
    ensures HeaderReading(Lookup(data, HeaderKey(k))).Ok? && Prepared(data, k, n).header == HeaderOf(w.(depth := n))
  {
    hide WithDepth, HeaderOf;
    HeaderOfDecodes(w);
    NothingEvicted(w, n);
  }

  lemma TailOf(w: Window)
    requires WindowOk(w) && |w.log| > 0 && |w.log| % 64 != 0
    ensures TailHasRoom(HeaderOf(w)) && TailSequence(HeaderOf(w)) == ChunksFor(|w.log|) - 1
    ensures HeaderOf(w).last == w.log[|w.log| - 1].observedAt && HeaderOf(w).requiredCount == w.depth
  {
    var h := HeaderOf(w);
    assert h.counts[|h.counts| - 1] == CountAt(w.log, ChunksFor(|w.log|) - 1) < 64;
  }

  lemma NothingEvicted(w: Window, n: nat)
    requires WindowOk(w) && 0 < n <= MAX_DEPTH && |w.log| - 64 * w.first < n + 64
    ensures HeaderShape(HeaderOf(w)) && WithDepth(Opened(HeaderOf(w)), n).header == HeaderOf(w.(depth := n))
  {
    hide HeaderOf, HeaderShape, Total, Surplus, Trim;
    HeaderOfShape(w);
    HeaderTotal(w);
    HeaderDepth(w, n);
    TrimNothing(HeaderOf(w).(requiredCount := n));
  }

  lemma HeaderDepth(w: Window, n: nat)
    requires WindowOk(w) && n <= MAX_DEPTH
    ensures HeaderOf(w.(depth := n)) == HeaderOf(w).(requiredCount := n)
    ensures HeaderShape(HeaderOf(w).(requiredCount := n)) && HeaderOf(w).requiredCount == w.depth
  {
    HeaderOfShape(w);
  }

  lemma TrimNothing(h: Header)
    requires HeaderShape(h) && h.requiredCount > 0 && Total(h.counts) < h.requiredCount + 64
    ensures Trim(h) == h
  {
    assert Surplus(h) == 0;
  }

  // ------------------------------------------------------ sixty-five records

  const VALUE := StoredValue(0, [])

  const DEPTH: nat := 100

  /** One full chunk and one record in the next. */
  function SixtyFive(): Window { Window(seq(65, i requires 0 <= i => Record(i + 1, VALUE)), 0, DEPTH) }

  lemma SixtyFiveOk()
    ensures WindowOk(SixtyFive()) && |SixtyFive().log| == 65
    ensures Accepts(SixtyFive(), Record(66, VALUE))
  {
    var w := SixtyFive();
    forall i | 0 <= i < 65 ensures RecordBytes(w.log[i]) <= MAX_RECORD_BYTES {
      assert w.log[i] == Record(i + 1, VALUE);
    }
  }

  /** The first chunk stored in both slots. */
  ghost function Copied(k: Pair): Data {
    SixtyFiveOk();
    map[IndexKey := IndexBytes([k]), VersionKey := VersionBytes(LAYOUT_VERSION),
        HeaderKey(k) := HeaderBytes(HeaderOf(SixtyFive())),
        ChunkKey(k, 0) := ChunkBytes(ChunkOf(SixtyFive().log, 0)),
        ChunkKey(k, 1) := ChunkBytes(ChunkOf(SixtyFive().log, 0))]
  }

  /** Every round on this storage that requires the pair at a depth of at least two and
      agrees on a newer value for it fails. */
  method FailingRound(data: Data, k: Pair, input: RoundInput, ghost a: Agreed)
    returns (r: Result<RoundOutput, RoundError>)
    requires data == Copied(k) && OncePerPair(input.agreed)
    requires forall j :: j in input.required ==> 0 < input.required[j] <= MAX_DEPTH
    requires k in input.required && input.required[k] >= 2
    requires a in input.agreed && a.pair == k && Accepts(SixtyFive(), a.record)
    ensures r == Err(AppendFailed(ChunkNotLoaded))
  {
    hide Displaced, RoundDone, Precedes, Accepts;
    r := Round(data, input, map[], iset{});
    ghost var depths, denied :|
      IsAdmission(input.required, Incumbents(data), depths, denied) && Verdict(data, input, depths, r);
    assert Incumbents(data) == {k};
    IncumbentsAreNeverDenied(input.required, {k}, depths, denied, k);
    CopiedFails(k, depths[k], a.record);
    assert Fails(data, depths, a);
  }

  lemma CopiedFails(k: Pair, n: nat, r: Record)
    requires 2 <= n <= MAX_DEPTH && Accepts(SixtyFive(), r)
    ensures Displaced(Copied(k), k, n, r)
  {
    hide Displaced;
    SixtyFiveOk();
    CopiedChunkDisplaces(Copied(k), k, SixtyFive(), 0, n, r);
  }

  /** Reading the newest record of that storage fails too, and discards nothing. */
  method FailingRead(store: HistoryStore, k: Pair) returns (r: Result<seq<Record>, HistoryError>)
    requires store.Valid() && store.kv.data == Copied(k) && k !in store.windows
    modifies store, store.kv`readKeys
    ensures r == Err(ChunkNotLoaded) && store.corrupt == old(store.corrupt)
  {
    hide Coherent, Misread, HeaderShape, OpenedFrom, ReadAnswer, ReadOnce, CellOf;
    CopiedMisreads(k, store.RequiredOf(k));
    r := store.Series(k, 1);
  }

  lemma CopiedMisreads(k: Pair, depth: nat)
    ensures HeaderShape(OpenedFrom(Copied(k), k, depth).header)
    ensures Misread(Copied(k), k, OpenedFrom(Copied(k), k, depth), 1)
  {
    hide Copied, OpenedFrom, HeaderShape, ChunkOf, SixtyFive, ChunkReading, GatheredOne, FirstGap, PlanStart, Total,
      Gathered;
    SixtyFiveOk();
    CopiedOpens(k, depth);
    var data, s := Copied(k), OpenedFrom(Copied(k), k, depth);
    var t := s.(chunks := map[0 := ChunkOf(SixtyFive().log, 0)]);
    NoneGathered(data, k, s);
    assert [1][..0] == [];
    GatherNext(data, k, s, [1], 0, s);
    assert [1][..1] == [1];
    GapBetween(t, 1, 1, 2);
  }

  /** What is opened, what is asked for, and what is found in its place. */
  lemma CopiedOpens(k: Pair, depth: nat)
    ensures WindowOk(SixtyFive()) && |SixtyFive().log| == 65
    ensures var s := OpenedFrom(Copied(k), k, depth);
            var t := s.(chunks := map[0 := ChunkOf(SixtyFive().log, 0)]);
            && HeaderShape(s.header) && s.chunks == map[] && s.header.firstSequence == 0 && |s.header.counts| == 2
            && Total(s.header.counts) == 65 && PlanStart(s.header, 1) == 1 && PlanOf(s.header, 1) == [1]
            && GatheredOne(Copied(k), k, s.header, s, 1) == Some(t) && FirstGap(t.chunks, 1, 1)
  {
    hide RecordBytes, ReadGap;
    SixtyFiveOk();
    var w := SixtyFive();
    HeaderOfDecodes(w);
    HeaderOfShape(w);
    var h := HeaderOf(w);
    assert OpenedFrom(Copied(k), k, depth) == Opened(h);
    assert h.counts[1] == CountAt(w.log, 1) == 1;
    TotalClosed(h.counts);
    ChunkMatchesHeader(w, 0);
    ChunkOfDecodes(w, 0);
  }

  // ------------------------------------------------------------- a junk header

  /** Reading a pair that is neither admitted nor indexed and whose header does not
      decode discards its window, yet the round leaves the bytes where they are. */
  method UnrepairedRead(data: Data, k: Pair, n: nat) returns (r: Result<RoundOutput, RoundError>)
    requires data == map[HeaderKey(k) := JunkBytes]
    ensures r.Ok? && k in r.value.corrupt && CellOf(r.value.data, k).header == Some(JunkBytes)
    ensures forall w :: !PairHolds(r.value.data, k, w)
  {
    hide PairHolds, TidyIndex, TouchedOnce, NoDuplicates, ReadAnswer, CellOf, Precedes;
    var input := RoundInput(map[], [], [Request(k, n)]);
    r := Round(data, input, map[], iset{});
    ghost var depths, denied :| IsAdmission(input.required, Incumbents(data), depths, denied) &&
        Verdict(data, input, depths, r);
    assert r.Ok?;
    assert input.requests[0].pair == k && Touched(data, input, r.value.depths, k) && Junk(data, k);
    HeaderInCell(data, k);
    RestoredIff(data, r.value.data, r.value.depths, input.agreed, k);
  }
}
