/** The round's working copy of one window against what its keys hold in storage.

    `Tracks` is the invariant of a round: the working copy describes a window, and
    what is stored plus the pending write set is exactly that window. It holds of a
    freshly opened well-formed window and of a reset window over any storage
    contents at all, and every mutation keeps it.
 */
module HistoryTracking {
  import opened Collections
  import opened HistoryLayout

  datatype Pair = Pair(streamID: nat, aggregator: nat)

  /** The value under a key: a serialised message, or bytes that decode to nothing. */
  datatype Bytes =
    | HeaderBytes(header: Header)
    | ChunkBytes(chunk: Chunk)
    | IndexBytes(pairs: seq<Pair>)
    | VersionBytes(version: nat)
    | JunkBytes

  /** Everything stored under one pair's keys. */
  datatype Cell = Cell(header: Option<Bytes>, slots: map<nat, Bytes>)

  const EMPTY_CELL: Cell := Cell(None, map[])

  ghost predicate CellHolds(c: Cell, w: Window) {
    && WindowOk(w)
    && c.header == Some(HeaderBytes(HeaderOf(w)))
    && c.slots.Keys == RetainedSlots(w)
    && forall s :: Retained(w, s) ==>
         Slot(s) in c.slots && c.slots[Slot(s)] == ChunkBytes(ChunkOf(w.log, s))
  }

  /** What well-formed storage of a window holds, key by key: record `i` of the log is in
      place `i % 64` of chunk `i / 64`, stored under slot `i / 64 % 18`, as far as it is
      retained, and the header gives depth, oldest chunk, newest time, and size and first
      time of every retained chunk. */
  lemma StoredLayout(c: Cell, w: Window)
    requires CellHolds(c, w)
    ensures forall i :: 64 * w.first <= i < |w.log| ==>
              && i / 64 % 18 in c.slots && c.slots[i / 64 % 18].ChunkBytes?
              && var chunk := c.slots[i / 64 % 18].chunk;
                 && chunk.sequence == i / 64 && i % 64 < |chunk.records| && chunk.records[i % 64] == w.log[i]
                 && |chunk.records| == Min(64, |w.log| - 64 * (i / 64))
    ensures forall slot :: slot in c.slots ==> exists i :: 64 * w.first <= i < |w.log| && i / 64 % 18 == slot
    ensures c.header.Some? && c.header.value.HeaderBytes?
    ensures var h := c.header.value.header;
            && h.requiredCount == w.depth && h.firstSequence == w.first
            && (w.log != [] ==> h.last == w.log[|w.log| - 1].observedAt)
            && |h.counts| == |h.chunkFirst| == (|w.log| + 63) / 64 - w.first
            && forall j :: 0 <= j < |h.counts| ==>
                 && h.counts[j] == Min(64, |w.log| - 64 * (w.first + j))
                 && h.chunkFirst[j] == w.log[64 * (w.first + j)].observedAt
  {
    hide WindowOk, ChunkOf;
    forall i | 64 * w.first <= i < |w.log|
      ensures i / 64 % 18 in c.slots && c.slots[i / 64 % 18] == ChunkBytes(ChunkOf(w.log, i / 64)) && RecordAt(w, i)
    {
      RecordPlace(w, i);
    }
    forall slot | slot in c.slots ensures exists i :: 64 * w.first <= i < |w.log| && i / 64 % 18 == slot {
      var s :| w.first <= s < ChunksFor(|w.log|) && Slot(s) == slot;
      assert 64 * w.first <= 64 * s < |w.log| && 64 * s / 64 % 18 == slot;
    }
    HeaderPlaces(w);
  }

  ghost predicate RecordAt(w: Window, i: nat)
    requires i < |w.log|
  {
    var chunk := ChunkOf(w.log, i / 64);
    && chunk.sequence == i / 64 && i % 64 < |chunk.records| && chunk.records[i % 64] == w.log[i]
    && |chunk.records| == Min(64, |w.log| - 64 * (i / 64))
  }

  lemma RecordPlace(w: Window, i: nat)
    requires WindowOk(w) && 64 * w.first <= i < |w.log|
    ensures Retained(w, i / 64) && Slot(i / 64) == i / 64 % 18 && RecordAt(w, i)
  {
    var q := i / 64;
    assert 64 * q <= i < 64 * q + 64;
    assert ChunkOf(w.log, q).records[i - 64 * q] == w.log[i];
  }

  lemma HeaderPlaces(w: Window)
    requires WindowOk(w)
    ensures var h := HeaderOf(w);
            && h.requiredCount == w.depth && h.firstSequence == w.first
            && (w.log != [] ==> h.last == w.log[|w.log| - 1].observedAt)
            && |h.counts| == |h.chunkFirst| == (|w.log| + 63) / 64 - w.first
            && forall j :: 0 <= j < |h.counts| ==>
                 && h.counts[j] == Min(64, |w.log| - 64 * (w.first + j))
                 && h.chunkFirst[j] == w.log[64 * (w.first + j)].observedAt
  {
  }

  // ------------------------------------------------------- the working copy

  datatype Working = Working(
    header: Header, chunks: map<nat, Chunk>, deleted: seq<nat>,
    headerDirty: bool, dirtyChunk: Option<Chunk>, stored: bool)

  function Opened(h: Header): Working { Working(h, map[], [], false, None, false) }

  function AllSlots(): seq<nat> { seq(CHUNK_SLOTS, i => i) }

  function ResetCopy(): Working { Working(EMPTY_HEADER, map[], AllSlots(), true, None, false) }

  /** Loaded chunks carry the sequence and the record count the header gives them. */
  ghost predicate ChunksMatch(h: Header, chunks: map<nat, Chunk>) {
    forall q :: q in chunks ==>
      && h.firstSequence <= q < h.firstSequence + |h.counts|
      && chunks[q].sequence == q
      && |chunks[q].records| == h.counts[q - h.firstSequence]
  }

  ghost predicate Consistent(s: Working) {
    HeaderShape(s.header) && Retains(s.header) && ChunksMatch(s.header, s.chunks)
  }

  function EvictedSlots(first: nat, k: nat): (r: seq<nat>)
    ensures |r| == k && forall i :: 0 <= i < k ==> r[i] == Slot(first + i)
  {
    seq<nat>(k, i requires 0 <= i < k => Slot(first + i))
  }

  function Evicted(s: Working): Working
    requires HeaderShape(s.header)
  {
    var k, f := Surplus(s.header), s.header.firstSequence;
    s.(header := Trim(s.header),
       chunks := map q | q in s.chunks && !(f <= q < f + k) :: s.chunks[q],
       deleted := s.deleted + EvictedSlots(f, k),
       headerDirty := s.headerDirty || k > 0)
  }

  /** The working copy once the `j` oldest chunks are gone. */
  function Dropping(s: Working, j: nat): Working
    requires j <= |s.header.counts| == |s.header.chunkFirst|
  {
    var f := s.header.firstSequence;
    s.(header := s.header.(firstSequence := f + j, counts := s.header.counts[j..],
        chunkFirst := s.header.chunkFirst[j..]),
       chunks := map q | q in s.chunks && !(f <= q < f + j) :: s.chunks[q],
       deleted := s.deleted + EvictedSlots(f, j),
       headerDirty := s.headerDirty || j > 0)
  }

  lemma DroppingNone(s: Working)
    requires |s.header.counts| == |s.header.chunkFirst|
    ensures Dropping(s, 0) == s
  {
    assert Dropping(s, 0).chunks == s.chunks;
  }

  lemma DroppingOneMore(s: Working, j: nat)
    requires j < |s.header.counts| == |s.header.chunkFirst|
    ensures var d := Dropping(s, j);
            Dropping(s, j + 1) == Working(
              d.header.(firstSequence := d.header.firstSequence + 1, counts := d.header.counts[1..],
                  chunkFirst := d.header.chunkFirst[1..]),
              d.chunks - {d.header.firstSequence}, d.deleted + [Slot(d.header.firstSequence)], true, d.dirtyChunk,
              d.stored)
  {
    var f, d := s.header.firstSequence, Dropping(s, j);
    assert EvictedSlots(f, j + 1) == EvictedSlots(f, j) + [Slot(f + j)];
    assert Dropping(s, j + 1).chunks == d.chunks - {f + j};
  }

  lemma DroppingSurplus(s: Working)
    requires HeaderShape(s.header) && s.header.requiredCount > 0
    ensures Dropping(s, Surplus(s.header)) == Evicted(s)
  {
  }

  lemma DroppingAll(s: Working, j: nat)
    requires HeaderShape(s.header) && j == |s.header.counts| && j <= Surplus(s.header)
    ensures Evicted(s) ==
            Dropping(s, j).(header := s.header.(firstSequence := 0, last := 0, counts := [], chunkFirst := []))
  {
  }

  function WithDepth(s: Working, depth: nat): Working
    requires HeaderShape(s.header) && depth <= MAX_DEPTH
  {
    if depth == s.header.requiredCount then s
    else Evicted(s.(header := s.header.(requiredCount := depth), headerDirty := true))
  }

  predicate TailHasRoom(h: Header) { h.counts != [] && h.counts[|h.counts| - 1] < CHUNK_RECORDS }

  function TailSequence(h: Header): int { h.firstSequence + |h.counts| - 1 }

  /** The header after one more record, before eviction. */
  function Extended(h: Header, at: nat): Header
    requires |h.counts| == |h.chunkFirst|
  {
    if TailHasRoom(h) then
      h.(counts := h.counts[|h.counts| - 1 := h.counts[|h.counts| - 1] + 1], last := at)
    else
      h.(counts := h.counts + [1], chunkFirst := h.chunkFirst + [at], last := at)
  }

  function NewTail(s: Working, r: Record): Chunk
    requires TailHasRoom(s.header) ==> TailSequence(s.header) in s.chunks
  {
    if TailHasRoom(s.header) then
      var c := s.chunks[TailSequence(s.header)];
      c.(records := c.records + [r])
    else Chunk(s.header.firstSequence + |s.header.counts|, [r])
  }

  /** The working copy after storing `r`, before eviction. */
  function Stored(s: Working, r: Record): Working
    requires |s.header.counts| == |s.header.chunkFirst|
    requires TailHasRoom(s.header) ==> TailSequence(s.header) in s.chunks
  {
    var h, c := Extended(s.header, r.observedAt), NewTail(s, r);
    s.(header := h,
       chunks := s.chunks[(if TailHasRoom(s.header) then TailSequence(s.header) else c.sequence) := c],
       headerDirty := true, dirtyChunk := Some(c), stored := true)
  }

  predicate MayStore(h: Header, r: Record) {
    h.requiredCount > 0 && (h.counts != [] ==> r.observedAt > h.last)
  }

  /** Accepting a record keeps every header check but the retention bound, which
      eviction then restores, whatever decodable header the round started from. */
  lemma ExtendedShape(h: Header, r: Record)
    requires HeaderShape(h) && MayStore(h, r)
    ensures HeaderShape(Extended(h, r.observedAt))
  {
    var e := Extended(h, r.observedAt);
    assert CountsOk(e.counts);
  }

  lemma DroppingKeepsMatch(h: Header, t: Header, chunks: map<nat, Chunk>, rest: map<nat, Chunk>, k: nat)
    requires ChunksMatch(h, chunks)
    requires k <= |h.counts| && t.firstSequence == h.firstSequence + k && t.counts == h.counts[k..]
    requires rest == map q | q in chunks && !(h.firstSequence <= q < h.firstSequence + k) :: chunks[q]
    ensures ChunksMatch(t, rest)
  {
  }

  lemma TornDownMatches(s: Working)
    requires HeaderShape(s.header) && ChunksMatch(s.header, s.chunks) && s.header.requiredCount == 0
    ensures Evicted(s).chunks == map[]
  {
  }

  lemma EvictedMatches(s: Working)
    requires HeaderShape(s.header) && ChunksMatch(s.header, s.chunks)
    ensures ChunksMatch(Evicted(s).header, Evicted(s).chunks)
  {
    if s.header.requiredCount == 0 {
      TornDownMatches(s);
    } else {
      var t := Evicted(s);
      DroppingKeepsMatch(s.header, t.header, s.chunks, t.chunks, Surplus(s.header));
    }
  }

  lemma EvictedConsistent(s: Working)
    requires HeaderShape(s.header) && ChunksMatch(s.header, s.chunks)
    ensures Consistent(Evicted(s))
  {
    TrimRetains(s.header);
    EvictedMatches(s);
  }

  lemma WithDepthConsistent(s: Working, depth: nat)
    requires Consistent(s) && depth <= MAX_DEPTH
    ensures Consistent(WithDepth(s, depth))
  {
    if depth != s.header.requiredCount {
      EvictedConsistent(s.(header := s.header.(requiredCount := depth), headerDirty := true));
    }
  }

  lemma StoredConsistent(s: Working, r: Record)
    requires Consistent(s) && MayStore(s.header, r)
    requires TailHasRoom(s.header) ==> TailSequence(s.header) in s.chunks
    ensures HeaderShape(Stored(s, r).header) && Consistent(Evicted(Stored(s, r)))
  {
    ExtendedShape(s.header, r);
    EvictedConsistent(Stored(s, r));
  }

  // --------------------------------------------------------------- write sets

  datatype RingWriteSet = RingWriteSet(header: Option<Header>, chunk: Option<Chunk>, deletedSlots: seq<nat>)

  function WrittenSlots(s: Working): set<nat> {
    if s.dirtyChunk.Some? then {Slot(s.dirtyChunk.value.sequence)} else {}
  }

  function DeletedSlots(s: Working): set<nat> { (set d | d in s.deleted) - WrittenSlots(s) }

  /** A cell once the working copy's write set has been applied to it. */
  function Written(c: Cell, s: Working): Cell {
    Cell(if s.headerDirty then Some(HeaderBytes(s.header)) else c.header,
         map slot | slot in c.slots.Keys + WrittenSlots(s) && slot !in DeletedSlots(s) ::
           if slot in WrittenSlots(s) then ChunkBytes(s.dirtyChunk.value) else c.slots[slot])
  }

  // ---------------------------------------------------------------- tracking

  function View(s: Working, log: seq<Record>): Window {
    Window(log, s.header.firstSequence, s.header.requiredCount)
  }

  function NewestChunk(log: seq<Record>): int { ChunksFor(|log|) - 1 }

  /** A retained chunk this round has not rewritten. */
  predicate Clean(s: Working, log: seq<Record>, q: nat) {
    Retained(View(s, log), q) && !(s.dirtyChunk.Some? && q == NewestChunk(log))
  }

  ghost predicate LoadedFromLog(s: Working, log: seq<Record>) {
    forall q :: q in s.chunks ==> Retained(View(s, log), q) && s.chunks[q] == ChunkOf(log, q)
  }

  ghost predicate CleanIsStored(c: Cell, s: Working, log: seq<Record>) {
    forall q :: Clean(s, log, q) ==>
      && Slot(q) in c.slots && c.slots[Slot(q)] == ChunkBytes(ChunkOf(log, q))
      && Slot(q) !in s.deleted
  }

  ghost predicate NothingStray(c: Cell, s: Working, log: seq<Record>) {
    forall slot :: slot in c.slots ==> slot in s.deleted || slot in RetainedSlots(View(s, log))
  }

  /** Storage plus the pending write set is the window `log`, which may still hold
      chunks that eviction is about to drop. */
  ghost predicate Follows(c: Cell, s: Working, log: seq<Record>) {
    && Placed(View(s, log))
    && ChunksFor(|log|) - s.header.firstSequence <= CHUNK_SLOTS
    && s.header == HeaderOf(View(s, log))
    && LoadedFromLog(s, log)
    && (s.dirtyChunk.Some? ==>
          && log != [] && s.dirtyChunk.value == ChunkOf(log, NewestChunk(log))
          && NewestChunk(log) in s.chunks && s.stored && s.headerDirty)
    && CleanIsStored(c, s, log)
    && NothingStray(c, s, log)
    && (!s.headerDirty ==>
          && s.deleted == []
          && (c.header == Some(HeaderBytes(s.header)) || (c.header == None && s.header == EMPTY_HEADER)))
  }

  ghost predicate Tracks(c: Cell, s: Working, log: seq<Record>) {
    WindowOk(View(s, log)) && Follows(c, s, log)
  }

  lemma OpenedTracks(c: Cell, w: Window)
    requires CellHolds(c, w)
    ensures Tracks(c, Opened(HeaderOf(w)), w.log)
    ensures View(Opened(HeaderOf(w)), w.log) == w
  {
  }

  lemma AbsentTracks()
    ensures Tracks(EMPTY_CELL, Opened(EMPTY_HEADER), [])
  {
    assert HeaderOf(EMPTY_WINDOW) == EMPTY_HEADER;
  }

  /** A reset window tracks the empty log over any storage contents. */
  lemma ResetTracks(c: Cell)
    requires forall slot :: slot in c.slots ==> slot < CHUNK_SLOTS
    ensures Tracks(c, ResetCopy(), [])
  {
    assert HeaderOf(EMPTY_WINDOW) == EMPTY_HEADER;
    forall slot | slot in c.slots ensures slot in AllSlots() {
      assert AllSlots()[slot] == slot;
    }
  }

  /** The stored newest chunk, or any other clean one, is what Provide accepts. */
  lemma LoadTracks(c: Cell, s: Working, log: seq<Record>, q: nat)
    requires Tracks(c, s, log) && Clean(s, log, q)
    ensures Tracks(c, s.(chunks := s.chunks[q := ChunkOf(log, q)]), log)
  {
    var t := s.(chunks := s.chunks[q := ChunkOf(log, q)]);
    assert View(t, log) == View(s, log);
    assert forall p :: Clean(t, log, p) <==> Clean(s, log, p);
  }

  lemma EvictedSlotOf(first: nat, k: nat, q: nat)
    requires first <= q < first + k
    ensures Slot(q) in EvictedSlots(first, k)
  {
    assert EvictedSlots(first, k)[q - first] == Slot(q);
  }

  lemma ApartInTheRing(p: nat, q: nat)
    requires p < q < p + CHUNK_SLOTS
    ensures Slot(p) != Slot(q)
  {
  }

  /** A retained chunk never shares a slot with one evicted from under it. */
  lemma EvictionSparesRetained(first: nat, k: nat, q: nat)
    requires first + k <= q < first + CHUNK_SLOTS
    ensures Slot(q) !in EvictedSlots(first, k)
  {
    forall i | 0 <= i < k ensures EvictedSlots(first, k)[i] != Slot(q) { ApartInTheRing(first + i, q); }
  }

  lemma EvictView(s: Working, log: seq<Record>)
    requires Placed(View(s, log)) && s.header == HeaderOf(View(s, log)) && s.header.requiredCount > 0
    ensures HeaderShape(s.header)
    ensures View(Evicted(s), log) == Retain(View(s, log))
    ensures Evicted(s).header == HeaderOf(Retain(View(s, log)))
    ensures Retain(View(s, log)).first == s.header.firstSequence + Surplus(s.header)
  {
    TrimIsRetain(View(s, log));
    SurplusIsRetain(View(s, log));
  }

  lemma EvictKeepsLoaded(s: Working, log: seq<Record>)
    requires Placed(View(s, log)) && s.header == HeaderOf(View(s, log)) && s.header.requiredCount > 0
    requires LoadedFromLog(s, log) && HeaderShape(s.header)
    ensures LoadedFromLog(Evicted(s), log)
  {
    EvictView(s, log);
  }

  lemma EvictKeepsClean(c: Cell, s: Working, log: seq<Record>)
    requires Follows(c, s, log) && s.header.requiredCount > 0 && HeaderShape(s.header)
    ensures CleanIsStored(c, Evicted(s), log)
  {
    EvictView(s, log);
    var t := Evicted(s);
    forall q | Clean(t, log, q)
      ensures Slot(q) in c.slots && c.slots[Slot(q)] == ChunkBytes(ChunkOf(log, q)) && Slot(q) !in t.deleted
    {
      assert Clean(s, log, q);
      EvictionSparesRetained(s.header.firstSequence, Surplus(s.header), q);
    }
  }

  lemma EvictCoversStored(c: Cell, s: Working, log: seq<Record>, slot: nat)
    requires Follows(c, s, log) && HeaderShape(s.header)
    requires slot in c.slots
    ensures slot in Evicted(s).deleted
         || exists q :: s.header.firstSequence + Surplus(s.header) <= q < ChunksFor(|log|) && Slot(q) == slot
  {
    if slot !in s.deleted {
      var f := s.header.firstSequence;
      var q :| f <= q < ChunksFor(|log|) && Slot(q) == slot;
      if q < f + Surplus(s.header) { EvictedSlotOf(f, Surplus(s.header), q); }
    }
  }

  lemma EvictFollows(c: Cell, s: Working, log: seq<Record>)
    requires Follows(c, s, log) && s.header.requiredCount > 0
    ensures HeaderShape(s.header) && Tracks(c, Evicted(s), log)
    ensures View(Evicted(s), log) == Retain(View(s, log))
  {
    EvictView(s, log);
    RetainKeepsOk(View(s, log));
    EvictKeepsLoaded(s, log);
    EvictKeepsClean(c, s, log);
    forall slot | slot in c.slots
      ensures slot in Evicted(s).deleted || slot in RetainedSlots(Retain(View(s, log)))
    {
      EvictCoversStored(c, s, log, slot);
    }
  }

  /** Teardown deletes every stored slot and leaves the canonical empty window. */
  lemma TeardownFollows(c: Cell, s: Working, log: seq<Record>)
    requires Follows(c, s, log) && s.header.requiredCount == 0
    requires s.dirtyChunk.None? && s.headerDirty
    ensures HeaderShape(s.header) && Tracks(c, Evicted(s), [])
    ensures View(Evicted(s), []) == EMPTY_WINDOW
  {
    TrimIsRetain(View(s, log));
    var t := Evicted(s);
    assert View(t, []) == EMPTY_WINDOW;
    assert HeaderOf(EMPTY_WINDOW) == EMPTY_HEADER;
    forall slot | slot in c.slots ensures slot in t.deleted {
      EvictCoversStored(c, s, log, slot);
    }
  }

  lemma DepthFollows(c: Cell, s: Working, log: seq<Record>, depth: nat)
    requires Tracks(c, s, log) && depth <= MAX_DEPTH
    ensures Follows(c, s.(header := s.header.(requiredCount := depth), headerDirty := true), log)
  {
    var t := s.(header := s.header.(requiredCount := depth), headerDirty := true);
    assert forall q :: Clean(t, log, q) <==> Clean(s, log, q);
    assert RetainedSlots(View(t, log)) == RetainedSlots(View(s, log));
  }

  /** Changing the depth keeps the working copy in step with storage. */
  lemma WithDepthTracks(c: Cell, s: Working, log: seq<Record>, depth: nat)
    requires Tracks(c, s, log) && depth <= MAX_DEPTH
    requires s.dirtyChunk.None?
    ensures HeaderShape(s.header)
    ensures Tracks(c, WithDepth(s, depth), if depth == 0 then [] else log)
    ensures View(WithDepth(s, depth), if depth == 0 then [] else log) == SetDepth(View(s, log), depth)
  {
    HeaderOfShape(View(s, log));
    if depth != s.header.requiredCount {
      var t := s.(header := s.header.(requiredCount := depth), headerDirty := true);
      DepthFollows(c, s, log, depth);
      assert View(t, log) == View(s, log).(depth := depth);
      if depth == 0 { TeardownFollows(c, t, log); } else { EvictFollows(c, t, log); }
    }
  }

  // ------------------------------------------------------ appending a record

  lemma RoomFromLog(w: Window)
    requires Placed(w)
    ensures TailHasRoom(HeaderOf(w)) <==> |w.log| % 64 != 0
    ensures TailHasRoom(HeaderOf(w)) ==> TailSequence(HeaderOf(w)) == NewestChunk(w.log)
    ensures w.first + |HeaderOf(w).counts| == ChunksFor(|w.log|)
  {
  }

  lemma ExtendedCounts(log: seq<Record>, first: nat, r: Record)
    requires first <= ChunksFor(|log|)
    ensures |log| % 64 == 0 ==> Counts(log + [r], first) == Counts(log, first) + [1]
    ensures |log| % 64 == 0 ==> Starts(log + [r], first) == Starts(log, first) + [r.observedAt]
    ensures |log| % 64 != 0 ==> Starts(log + [r], first) == Starts(log, first)
    ensures |log| % 64 != 0 && first < ChunksFor(|log|) ==>
              var i := ChunksFor(|log|) - first - 1;
              Counts(log + [r], first) == Counts(log, first)[i := Counts(log, first)[i] + 1]
  {
  }

  lemma ExtendedIsHeaderOf(w: Window, r: Record)
    requires Placed(w)
    ensures w.first <= ChunksFor(|w.log + [r]|)
    ensures Extended(HeaderOf(w), r.observedAt) == HeaderOf(w.(log := w.log + [r]))
  {
    RoomFromLog(w);
    ExtendedCounts(w.log, w.first, r);
  }

  lemma OlderChunkUnchanged(log: seq<Record>, r: Record, q: nat)
    requires q < NewestChunk(log + [r])
    ensures 64 * q < |log| && ChunkOf(log + [r], q) == ChunkOf(log, q)
  {
  }

  lemma NewTailIsChunk(s: Working, log: seq<Record>, r: Record)
    requires Placed(View(s, log)) && s.header == HeaderOf(View(s, log)) && LoadedFromLog(s, log)
    requires TailHasRoom(s.header) ==> TailSequence(s.header) in s.chunks
    ensures NewTail(s, r) == ChunkOf(log + [r], NewestChunk(log + [r]))
  {
    RoomFromLog(View(s, log));
    hide HeaderOf, Placed, ChunkOf;
    NewestChunkGrows(log, r);
  }

  lemma NewestChunkGrows(log: seq<Record>, r: Record)
    ensures 0 <= NewestChunk(log + [r]) && 64 * NewestChunk(log + [r]) < |log + [r]|
    ensures |log| % 64 != 0 ==>
              && 0 <= NewestChunk(log) == NewestChunk(log + [r]) && 64 * NewestChunk(log) < |log|
              && ChunkOf(log + [r], NewestChunk(log)) ==
                 Chunk(NewestChunk(log), ChunkOf(log, NewestChunk(log)).records + [r])
    ensures |log| % 64 == 0 ==> ChunkOf(log + [r], NewestChunk(log + [r])) == Chunk(ChunksFor(|log|), [r])
  {
  }

  lemma StoredLoaded(s: Working, log: seq<Record>, r: Record)
    requires Placed(View(s, log)) && s.header == HeaderOf(View(s, log)) && LoadedFromLog(s, log)
    requires TailHasRoom(s.header) ==> TailSequence(s.header) in s.chunks
    ensures LoadedFromLog(Stored(s, r), log + [r])
  {
    RoomFromLog(View(s, log));
    NewTailIsChunk(s, log, r);
    var t := Stored(s, r);
    forall q | q in t.chunks
      ensures Retained(View(t, log + [r]), q) && t.chunks[q] == ChunkOf(log + [r], q)
    {
      if q != NewestChunk(log + [r]) { OlderChunkUnchanged(log, r, q); }
    }
  }

  lemma StoredClean(c: Cell, s: Working, log: seq<Record>, r: Record)
    requires Follows(c, s, log) && s.dirtyChunk.None?
    requires TailHasRoom(s.header) ==> TailSequence(s.header) in s.chunks
    ensures CleanIsStored(c, Stored(s, r), log + [r])
  {
    var t := Stored(s, r);
    forall q | Clean(t, log + [r], q)
      ensures Slot(q) in c.slots && c.slots[Slot(q)] == ChunkBytes(ChunkOf(log + [r], q)) && Slot(q) !in t.deleted
    {
      OlderChunkUnchanged(log, r, q);
      assert Clean(s, log, q);
    }
  }

  lemma StoredNothingStray(c: Cell, s: Working, log: seq<Record>, r: Record)
    requires Follows(c, s, log)
    requires TailHasRoom(s.header) ==> TailSequence(s.header) in s.chunks
    ensures NothingStray(c, Stored(s, r), log + [r])
  {
    var w, v := View(s, log), View(Stored(s, r), log + [r]);
    forall slot | slot in c.slots && slot !in s.deleted ensures slot in RetainedSlots(v) {
      var q :| w.first <= q < ChunksFor(|log|) && Slot(q) == slot;
      assert v.first <= q < ChunksFor(|v.log|);
    }
  }

  lemma StoredPlaced(w: Window, r: Record)
    requires WindowOk(w) && Accepts(w, r)
    ensures Placed(w.(log := w.log + [r]))
    ensures ChunksFor(|w.log + [r]|) - w.first <= CHUNK_SLOTS
  {
    AppendMonotone(w.log, r);
  }

  lemma StoredFollows(c: Cell, s: Working, log: seq<Record>, r: Record)
    requires Tracks(c, s, log) && s.dirtyChunk.None?
    requires Accepts(View(s, log), r)
    requires TailHasRoom(s.header) ==> TailSequence(s.header) in s.chunks
    ensures Follows(c, Stored(s, r), log + [r])
    ensures View(Stored(s, r), log + [r]) == View(s, log).(log := log + [r])
  {
    ExtendedIsHeaderOf(View(s, log), r);
    StoredPlaced(View(s, log), r);
    NewTailIsChunk(s, log, r);
    StoredLoaded(s, log, r);
    StoredClean(c, s, log, r);
    StoredNothingStray(c, s, log, r);
  }

  /** Appending keeps the working copy in step with storage, and the window it
      describes gains exactly that record. */
  lemma AppendTracks(c: Cell, s: Working, log: seq<Record>, r: Record)
    requires Tracks(c, s, log) && s.dirtyChunk.None?
    requires Accepts(View(s, log), r)
    requires TailHasRoom(s.header) ==> TailSequence(s.header) in s.chunks
    ensures HeaderShape(Stored(s, r).header)
    ensures Tracks(c, Evicted(Stored(s, r)), log + [r])
    ensures View(Evicted(Stored(s, r)), log + [r]) == AppendTo(View(s, log), r)
  {
    StoredFollows(c, s, log, r);
    EvictFollows(c, Stored(s, r), log + [r]);
  }

  // ------------------------------------------------------------ writing back

  /** Applying the write set of a tracked window stores exactly that window. */
  lemma WrittenHolds(c: Cell, s: Working, log: seq<Record>)
    requires Tracks(c, s, log) && s.header.requiredCount > 0
    ensures CellHolds(Written(c, s), View(s, log))
  {
    var w, d := View(s, log), Written(c, s);
    forall q | Retained(w, q)
      ensures Slot(q) in d.slots && d.slots[Slot(q)] == ChunkBytes(ChunkOf(log, q))
    {
      if s.dirtyChunk.Some? && Slot(q) == Slot(NewestChunk(log)) { SlotsDistinct(w, q, NewestChunk(log)); }
      assert Clean(s, log, q) || (s.dirtyChunk.Some? && q == NewestChunk(log));
    }
    WrittenSlotsExact(c, s, log);
  }

  lemma WrittenSlotsExact(c: Cell, s: Working, log: seq<Record>)
    requires Tracks(c, s, log)
    ensures Written(c, s).slots.Keys == RetainedSlots(View(s, log))
  {
    var w, d := View(s, log), Written(c, s);
    forall slot | slot in d.slots.Keys ensures slot in RetainedSlots(w) {
      if slot in WrittenSlots(s) { assert Retained(w, NewestChunk(log)); }
    }
    forall slot | slot in RetainedSlots(w) ensures slot in d.slots.Keys {
      var q :| w.first <= q < ChunksFor(|log|) && Slot(q) == slot;
      assert Clean(s, log, q) || (s.dirtyChunk.Some? && q == NewestChunk(log));
    }
  }

  /** Applying the deletions of a torn-down window leaves no chunk behind. */
  lemma TornDownIsEmpty(c: Cell, s: Working, log: seq<Record>)
    requires Tracks(c, s, log) && s.header.requiredCount == 0
    ensures c.slots.Keys <= DeletedSlots(s)
  {
  }
}
